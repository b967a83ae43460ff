/** UTF-8 as defined by section 4 of RFC 3629, and the check that decoding in pieces relies on. */
module Utf8 {
  import opened Wrappers

  type byte = x: int | 0 <= x < 256

  // ---- the grammar ----

  predicate Tail(b: byte) {
    0x80 <= b <= 0xBF
  }

  /** Length of the character a byte starts; 0 when it starts none. */
  function Width(lead: byte): nat {
    if lead <= 0x7F then 1
    else if 0xC2 <= lead <= 0xDF then 2
    else if 0xE0 <= lead <= 0xEF then 3
    else if 0xF0 <= lead <= 0xF4 then 4
    else 0
  }

  /** The second byte is restricted for some first bytes. */
  predicate SecondFits(lead: byte, second: byte) {
    match lead
    case 0xE0 => 0xA0 <= second <= 0xBF
    case 0xED => 0x80 <= second <= 0x9F
    case 0xF0 => 0x90 <= second <= 0xBF
    case 0xF4 => 0x80 <= second <= 0x8F
    case _ => Tail(second)
  }

  /** A non-empty prefix of a character that fits the grammar so far. */
  predicate FitsSoFar(s: seq<byte>) {
    && 1 <= |s| <= Width(s[0])
    && (|s| > 1 ==> SecondFits(s[0], s[1]))
    && (|s| > 2 ==> Tail(s[2]))
    && (|s| > 3 ==> Tail(s[3]))
  }

  predicate IsCharacter(s: seq<byte>) {
    FitsSoFar(s) && |s| == Width(s[0])
  }

  ghost predicate IsPartial(s: seq<byte>) {
    FitsSoFar(s) && |s| < Width(s[0])
  }

  ghost function Flatten(characters: seq<seq<byte>>): seq<byte> {
    if characters == [] then [] else characters[0] + Flatten(characters[1..])
  }

  ghost predicate AllCharacters(characters: seq<seq<byte>>) {
    forall i :: 0 <= i < |characters| ==> IsCharacter(characters[i])
  }

  // ---- what the grammar describes: the encodings of scalar values ----

  /** Code points up to U+10FFFF without the surrogates. */
  ghost predicate IsScalar(c: nat) {
    c < 0xD800 || 0xE000 <= c < 0x110000
  }

  /** The table of section 3 of RFC 3629. */
  ghost function Encode(c: nat): seq<byte>
    requires IsScalar(c)
  {
    if c < 0x80 then [c]
    else if c < 0x800 then [0xC0 + c / 0x40, 0x80 + c % 0x40]
    else if c < 0x10000 then [0xE0 + c / 0x1000, 0x80 + c / 0x40 % 0x40, 0x80 + c % 0x40]
    else [0xF0 + c / 0x40000, 0x80 + c / 0x1000 % 0x40, 0x80 + c / 0x40 % 0x40, 0x80 + c % 0x40]
  }

  ghost function EncodeAll(scalars: seq<nat>): seq<byte>
    requires forall i :: 0 <= i < |scalars| ==> IsScalar(scalars[i])
  {
    if scalars == [] then [] else Encode(scalars[0]) + EncodeAll(scalars[1..])
  }

  /** A string of octets is UTF-8 when it encodes a sequence of scalar values. */
  ghost predicate IsUtf8(s: seq<byte>) {
    exists scalars: seq<nat> :: Encodes(s, scalars)
  }

  ghost predicate Encodes(s: seq<byte>, scalars: seq<nat>) {
    (forall i :: 0 <= i < |scalars| ==> IsScalar(scalars[i])) && EncodeAll(scalars) == s
  }

  /** A high part and six low bits. */
  ghost function Join(high: nat, low: byte): nat {
    high * 0x40 + low as int % 0x40
  }

  lemma JoinSplits(high: nat, low: byte)
    ensures Join(high, low) / 0x40 == high && Join(high, low) % 0x40 == low as int % 0x40
  {
  }

  /** The scalar value of a character, read off its bytes. */
  ghost function Decode(s: seq<byte>): (c: nat)
    requires IsCharacter(s)
  {
    if |s| == 1 then s[0]
    else if |s| == 2 then Join(s[0] as int - 0xC0, s[1])
    else if |s| == 3 then Join(Join(s[0] as int - 0xE0, s[1]), s[2])
    else Join(Join(Join(s[0] as int - 0xF0, s[1]), s[2]), s[3])
  }

  lemma TwoBytes(s: seq<byte>)
    requires IsCharacter(s) && |s| == 2
    ensures IsScalar(Decode(s)) && Encode(Decode(s)) == s
  {
    JoinSplits(s[0] as int - 0xC0, s[1]);
  }

  lemma ThreeBytes(s: seq<byte>)
    requires IsCharacter(s) && |s| == 3
    ensures IsScalar(Decode(s)) && Encode(Decode(s)) == s
  {
    var high := Join(s[0] as int - 0xE0, s[1]);
    JoinSplits(s[0] as int - 0xE0, s[1]);
    JoinSplits(high, s[2]);
    TwiceSix(Decode(s));
  }

  /** The digits of a number written in base 64 with four places. */
  lemma FourDigits(a: nat, b: nat, c: nat, d: nat)
    requires b < 0x40 && c < 0x40 && d < 0x40
    ensures var n := ((a * 0x40 + b) * 0x40 + c) * 0x40 + d;
      n / 0x40000 == a && n / 0x1000 % 0x40 == b && n / 0x40 % 0x40 == c && n % 0x40 == d
  {
    var n := ((a * 0x40 + b) * 0x40 + c) * 0x40 + d;
    assert n / 0x40 == (a * 0x40 + b) * 0x40 + c;
    TwiceSix(n);
    ThriceSix(n);
  }

  lemma FourBytes(s: seq<byte>)
    requires IsCharacter(s) && |s| == 4
    ensures IsScalar(Decode(s)) && Encode(Decode(s)) == s
  {
    var a, b, c, d := s[0] as int - 0xF0, s[1] as int - 0x80, s[2] as int - 0x80, s[3] as int - 0x80;
    assert Decode(s) == ((a * 0x40 + b) * 0x40 + c) * 0x40 + d;
    assert 0x10000 <= Decode(s) < 0x110000;
    FourDigits(a, b, c, d);
  }

  lemma TwiceSix(n: nat)
    ensures n / 0x1000 == n / 0x40 / 0x40
  {
  }

  lemma ThriceSix(n: nat)
    ensures n / 0x40000 == n / 0x1000 / 0x40
  {
  }

  lemma DecodeEncodes(s: seq<byte>)
    requires IsCharacter(s)
    ensures IsScalar(Decode(s)) && Encode(Decode(s)) == s
  {
    if |s| == 2 {
      TwoBytes(s);
    } else if |s| == 3 {
      ThreeBytes(s);
    } else if |s| == 4 {
      FourBytes(s);
    }
  }

  lemma EncodeIsCharacter(c: nat)
    requires IsScalar(c)
    ensures IsCharacter(Encode(c))
  {
  }

  /** The grammar describes exactly the encodings of scalar values. */
  lemma CharacterIsEncoding(s: seq<byte>)
    ensures IsCharacter(s) <==> exists c :: IsScalar(c) && Encode(c) == s
  {
    if IsCharacter(s) { DecodeEncodes(s); }
    if c :| IsScalar(c) && Encode(c) == s { EncodeIsCharacter(c); }
  }

  lemma {:induction false} CharactersEncode(characters: seq<seq<byte>>) returns (scalars: seq<nat>)
    requires AllCharacters(characters)
    ensures Encodes(Flatten(characters), scalars)
    decreases |characters|
  {
    if characters == [] {
      scalars := [];
    } else {
      var rest := CharactersEncode(characters[1..]);
      DecodeEncodes(characters[0]);
      scalars := [Decode(characters[0])] + rest;
      assert scalars[1..] == rest;
    }
  }

  lemma {:induction false} EncodingsAreCharacters(scalars: seq<nat>) returns (characters: seq<seq<byte>>)
    requires forall i :: 0 <= i < |scalars| ==> IsScalar(scalars[i])
    ensures AllCharacters(characters) && Flatten(characters) == EncodeAll(scalars)
    decreases |scalars|
  {
    if scalars == [] {
      characters := [];
    } else {
      var rest := EncodingsAreCharacters(scalars[1..]);
      EncodeIsCharacter(scalars[0]);
      characters := [Encode(scalars[0])] + rest;
      assert characters[1..] == rest;
    }
  }

  /** A byte that continues what fits so far. */
  ghost function NextByte(s: seq<byte>): byte
    requires s != []
  {
    if |s| > 1 then 0x80 else if s[0] == 0xE0 then 0xA0 else if s[0] == 0xF0 then 0x90 else 0x80
  }

  lemma FitsLonger(s: seq<byte>)
    requires FitsSoFar(s) && |s| < Width(s[0])
    ensures FitsSoFar(s + [NextByte(s)])
  {
    var longer := s + [NextByte(s)];
    assert longer[0] == s[0] && longer[|s|] == NextByte(s);
    if |s| > 1 { assert longer[1] == s[1]; }
    if |s| > 2 { assert longer[2] == s[2]; }
  }

  lemma {:induction false} Completed(s: seq<byte>) returns (t: seq<byte>)
    requires FitsSoFar(s)
    ensures IsCharacter(s + t)
    decreases Width(s[0]) - |s|
  {
    if |s| == Width(s[0]) {
      t := [];
      assert s + t == s;
    } else {
      var longer := s + [NextByte(s)];
      FitsLonger(s);
      var rest := Completed(longer);
      t := [NextByte(s)] + rest;
      assert s + t == longer + rest;
    }
  }

  /** What fits so far is exactly a beginning of a character. */
  lemma FitsIsBeginning(s: seq<byte>)
    ensures FitsSoFar(s) <==> s != [] && exists t :: IsCharacter(s + t)
  {
    if FitsSoFar(s) { var t := Completed(s); }
    if s != [] && exists t :: IsCharacter(s + t) {
      var t :| IsCharacter(s + t);
      BeginningFits(s, t);
    }
  }

  lemma BeginningFits(s: seq<byte>, t: seq<byte>)
    requires s != [] && IsCharacter(s + t)
    ensures FitsSoFar(s)
  {
    assert forall k :: 0 <= k < |s| ==> (s + t)[k] == s[k];
  }

  // ---- deciding it ----

  ghost predicate Valid(s: seq<byte>) {
    s == [] || (var w := Width(s[0]); 1 <= w <= |s| && IsCharacter(s[..w]) && Valid(s[w..]))
  }

  lemma {:induction false} ValidIsUtf8(s: seq<byte>)
    ensures Valid(s) <==> IsUtf8(s)
  {
    if Valid(s) {
      var characters := Characters(s);
      var scalars := CharactersEncode(characters);
    }
    if IsUtf8(s) {
      var scalars: seq<nat> :| Encodes(s, scalars);
      var characters := EncodingsAreCharacters(scalars);
      FlattenIsValid(characters);
    }
  }

  lemma {:induction false} Characters(s: seq<byte>) returns (characters: seq<seq<byte>>)
    requires Valid(s)
    ensures Flatten(characters) == s && AllCharacters(characters)
    decreases |s|
  {
    if s == [] {
      characters := [];
    } else {
      var w := Width(s[0]);
      var rest := Characters(s[w..]);
      characters := [s[..w]] + rest;
      assert characters[1..] == rest;
      assert s == s[..w] + s[w..];
    }
  }

  lemma {:induction false} FlattenIsValid(characters: seq<seq<byte>>)
    requires AllCharacters(characters)
    ensures Valid(Flatten(characters))
    decreases |characters|
  {
    if characters != [] {
      var first, rest := characters[0], Flatten(characters[1..]);
      FlattenIsValid(characters[1..]);
      assert (first + rest)[..|first|] == first && (first + rest)[|first|..] == rest;
    }
  }

  // ---- decoding in pieces ----

  lemma {:induction false} ValidJoins(a: seq<byte>, b: seq<byte>)
    requires Valid(a)
    ensures Valid(a + b) <==> Valid(b)
    decreases |a|
  {
    if a == [] {
      assert a + b == b;
    } else {
      var w := Width(a[0]);
      ValidJoins(a[w..], b);
      assert (a + b)[..w] == a[..w] && (a + b)[w..] == a[w..] + b;
    }
  }

  /** A character that was started can only be valid when it is finished. */
  lemma PartialIsNotValid(s: seq<byte>)
    requires IsPartial(s)
    ensures !Valid(s) && |s| <= 3
  {
  }

  /** The answer of a UTF-8 check: all valid, or valid up to a position where the input ends inside
      a character, or up to one that no continuation can repair. */
  datatype Check = AllValid | Incomplete(validUpTo: nat) | Invalid(validUpTo: nat)

  function CheckUtf8(s: seq<byte>): Check
    decreases |s|
  {
    if s == [] then AllValid
    else
      var w := Width(s[0]);
      if |s| < w then if FitsSoFar(s) then Incomplete(0) else Invalid(0)
      else if w == 0 || !IsCharacter(s[..w]) then Invalid(0)
      else
        Shifted(CheckUtf8(s[w..]), w)
  }

  /** What an answer promises about an input whose valid part is p and whose rest is q. */
  ghost predicate Answers(check: Check, p: seq<byte>, q: seq<byte>) {
    match check
    case AllValid => q == []
    case Incomplete(n) => |p| == n && IsPartial(q)
    case Invalid(n) => |p| == n && q != [] && Hopeless(q)
  }

  ghost predicate Hopeless(s: seq<byte>) {
    forall t :: !Valid(s + t)
  }

  lemma MisfitIsHopeless(s: seq<byte>)
    requires s != [] && !FitsSoFar(if |s| < Width(s[0]) then s else s[..Width(s[0])])
    ensures Hopeless(s)
  {
    forall t
      ensures !Valid(s + t)
    {
      var w := Width(s[0]);
      if w <= |s| {
        assert (s + t)[..w] == s[..w];
      } else if w <= |s + t| {
        var c := (s + t)[..w];
        assert forall k :: 0 <= k < |s| ==> c[k] == s[k];
      }
    }
  }

  function Shifted(check: Check, n: nat): Check {
    match check
    case AllValid => AllValid
    case Incomplete(k) => Incomplete(n + k)
    case Invalid(k) => Invalid(n + k)
  }

  /** No continuation repairs an input that is valid up to a hopeless rest. */
  lemma HopelessJoins(a: seq<byte>, s: seq<byte>)
    requires Valid(a) && Hopeless(s)
    ensures Hopeless(a + s)
  {
    forall t
      ensures !Valid(a + s + t)
    {
      ValidJoins(a, s + t);
      Associate(a, s, t);
    }
  }

  lemma {:induction false} CheckIsRight(s: seq<byte>) returns (p: seq<byte>, q: seq<byte>)
    ensures s == p + q && Valid(p) && Answers(CheckUtf8(s), p, q)
    decreases |s|
  {
    if s == [] {
      p, q := [], [];
    } else {
      var w := Width(s[0]);
      if |s| < w || w == 0 || !IsCharacter(s[..w]) {
        BadStart(s);
        p, q := [], s;
      } else {
        var first, rest := s[..w], s[w..];
        p, q := CheckIsRight(rest);
        CharacterIsValid(first);
        ValidJoins(first, p);
        Associate(first, p, q);
        p := first + p;
      }
    }
  }

  lemma CharacterIsValid(s: seq<byte>)
    requires IsCharacter(s)
    ensures Valid(s)
  {
    assert s[..|s|] == s && s[|s|..] == [];
  }

  lemma BadStart(s: seq<byte>)
    requires s != [] && (|s| < Width(s[0]) || Width(s[0]) == 0 || !IsCharacter(s[..Width(s[0])]))
    ensures Answers(CheckUtf8(s), [], s)
  {
    if |s| >= Width(s[0]) || !FitsSoFar(s) { MisfitIsHopeless(s); }
  }
}
