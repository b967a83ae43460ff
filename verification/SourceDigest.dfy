/** The content digest: JSON string escaping of section 7 of RFC 8259, hashed piece by piece. */
module SourceDigest {
  import opened Wrappers
  import opened Cancellation
  import opened Utf8
  import opened SourceReader

  const QUOTE: byte := 0x22
  const BACKSLASH: byte := 0x5C

  // ---- escaping ----

  function HexDigit(n: nat): byte
    requires n < 16
  {
    if n < 10 then 0x30 + n else 0x61 + (n - 10)
  }

  /** The letter of a two-character escape; 0 when the byte has none. */
  function ShortEscape(b: byte): byte {
    match b
    case 0x22 => 0x22
    case 0x5C => 0x5C
    case 0x08 => 0x62
    case 0x0C => 0x66
    case 0x0A => 0x6E
    case 0x0D => 0x72
    case 0x09 => 0x74
    case _ => 0
  }

  /** Quotation mark, reverse solidus and control characters are escaped; any other byte stands for itself. */
  function EscapeByte(b: byte): seq<byte> {
    if ShortEscape(b) != 0 then [BACKSLASH, ShortEscape(b)]
    else if b < 0x20 then [BACKSLASH, 0x75, 0x30, 0x30, HexDigit(b / 16), HexDigit(b % 16)]
    else [b]
  }

  function Escape(s: seq<byte>): seq<byte> {
    if s == [] then [] else EscapeByte(s[0]) + Escape(s[1..])
  }

  /** The bytes of "0123456789abcdef". */
  const HEX_DIGITS: seq<byte> := [0x30, 0x31, 0x32, 0x33, 0x34, 0x35, 0x36, 0x37, 0x38, 0x39, 0x61, 0x62, 0x63, 0x64, 0x65, 0x66]

  lemma HexDigitIs(n: nat)
    requires n < 16
    ensures HexDigit(n) == HEX_DIGITS[n]
  {
  }

  /** What escaping writes: the two-character forms of RFC 8259 where they exist, a four-digit code for
      the other control characters, and everything else as it is. */
  lemma EscapesAre(b: byte)
    ensures b == '\"' as int ==> EscapeByte(b) == [0x5C, 0x22]
    ensures b == '\\' as int ==> EscapeByte(b) == [0x5C, 0x5C]
    ensures b == 8 ==> EscapeByte(b) == [0x5C, 'b' as int]
    ensures b == 9 ==> EscapeByte(b) == [0x5C, 't' as int]
    ensures b == 10 ==> EscapeByte(b) == [0x5C, 'n' as int]
    ensures b == 12 ==> EscapeByte(b) == [0x5C, 'f' as int]
    ensures b == 13 ==> EscapeByte(b) == [0x5C, 'r' as int]
    ensures b < 32 && b !in {8, 9, 10, 12, 13} ==>
      EscapeByte(b) == [0x5C, 'u' as int, '0' as int, '0' as int, HEX_DIGITS[b / 16], HEX_DIGITS[b % 16]]
    ensures b >= 32 && b != '\"' as int && b != '\\' as int ==> EscapeByte(b) == [b]
  {
    HexDigitIs(b / 16);
    HexDigitIs(b % 16);
  }

  ghost function JsonString(s: seq<byte>): seq<byte> {
    [QUOTE] + Escape(s) + [QUOTE]
  }

  lemma {:induction false} EscapeJoins(a: seq<byte>, b: seq<byte>)
    ensures Escape(a + b) == Escape(a) + Escape(b)
    decreases |a|
  {
    if a == [] {
      assert a + b == b;
    } else {
      EscapeJoins(a[1..], b);
      assert (a + b)[0] == a[0] && (a + b)[1..] == a[1..] + b;
      Associate(EscapeByte(a[0]), Escape(a[1..]), Escape(b));
    }
  }

  // ---- reading an escaped string back ----

  ghost function HexValue(digit: byte): Option<nat> {
    if 0x30 <= digit <= 0x39 then Some(digit - 0x30)
    else if 0x61 <= digit <= 0x66 then Some(digit - 0x61 + 10)
    else None
  }

  ghost function Unshort(letter: byte): Option<byte> {
    match letter
    case 0x22 => Some(0x22)
    case 0x5C => Some(0x5C)
    case 0x62 => Some(0x08)
    case 0x66 => Some(0x0C)
    case 0x6E => Some(0x0A)
    case 0x72 => Some(0x0D)
    case 0x74 => Some(0x09)
    case _ => None
  }

  /** The first character and how many bytes it took; None for anything no escaped string contains. */
  ghost function ReadOne(s: seq<byte>): (one: Option<(byte, nat)>)
    requires s != []
    ensures one.Some? ==> 1 <= one.value.1 <= |s|
  {
    if s[0] == QUOTE || s[0] < 0x20 then None
    else if s[0] != BACKSLASH then Some((s[0], 1))
    else if |s| < 2 then None
    else if Unshort(s[1]).Some? then Some((Unshort(s[1]).value, 2))
    else if |s| < 6 || s[1] != 0x75 || s[2] != 0x30 || s[3] != 0x30 then None
    else
      match (HexValue(s[4]), HexValue(s[5]))
      case (Some(h), Some(l)) => if 16 * h + l < 256 then Some((16 * h + l, 6)) else None
      case _ => None
  }

  ghost function Unescape(s: seq<byte>): Option<seq<byte>>
    decreases |s|
  {
    if s == [] then Some([])
    else
      match ReadOne(s)
      case None => None
      case Some((b, n)) =>
        match Unescape(s[n..])
        case None => None
        case Some(rest) => Some([b] + rest)
  }

  lemma OneReadsBack(b: byte, rest: seq<byte>)
    ensures ReadOne(EscapeByte(b) + rest) == Some((b, |EscapeByte(b)|))
  {
  }

  /** Reading an escaped string back gives the string, so no two strings share a digest input. */
  lemma {:induction false} EscapeReadsBack(s: seq<byte>)
    ensures Unescape(Escape(s)) == Some(s)
    decreases |s|
  {
    if s != [] {
      var rest := s[1..];
      EscapeReadsBack(rest);
      assert s == [s[0]] + rest;
      OneReadsBack(s[0], Escape(rest));
      assert (EscapeByte(s[0]) + Escape(rest))[|EscapeByte(s[0])|..] == Escape(rest);
    }
  }

  // ---- hashing in pieces ----

  /** "ferrum-atlas:1", and the domain "content". */
  const VERSION: seq<byte> := [0x66, 0x65, 0x72, 0x72, 0x75, 0x6D, 0x2D, 0x61, 0x74, 0x6C, 0x61, 0x73, 0x3A, 0x31]
  const CONTENT: seq<byte> := [0x63, 0x6F, 0x6E, 0x74, 0x65, 0x6E, 0x74]

  /** Everything a digest feeds its hash: a version, the domain, a zero byte and the JSON encoding. */
  ghost function DigestInput(version: seq<byte>, domain: seq<byte>, json: seq<byte>): seq<byte> {
    version + [0] + domain + [0] + json
  }

  /** The end of the text, or the first byte of a character. */
  predicate Boundary(text: seq<byte>, i: nat) {
    i == |text| || (i < |text| && !Tail(text[i]))
  }

  lemma FirstIsBoundary(text: seq<byte>)
    requires Utf8.Valid(text)
    ensures Boundary(text, 0)
  {
  }

  /** In valid text a boundary separates valid pieces. */
  lemma {:induction false} BoundarySplits(text: seq<byte>, i: nat)
    requires Utf8.Valid(text) && Boundary(text, i)
    ensures i <= |text| && Utf8.Valid(text[..i]) && Utf8.Valid(text[i..])
    decreases |text|
  {
    if i == 0 {
      assert text[..0] == [] && text[0..] == text;
    } else {
      var w := Width(text[0]);
      InsideIsNoBoundary(text, i);
      BoundarySplits(text[w..], i - w);
      CharacterIsValid(text[..w]);
      SplitLater(text, w, i);
    }
  }

  /** In valid text the boundaries are exactly the places where it can be cut into valid pieces. */
  lemma BoundaryIsCut(text: seq<byte>, i: nat)
    requires Utf8.Valid(text)
    ensures Boundary(text, i) <==> i <= |text| && Utf8.Valid(text[..i])
  {
    if Boundary(text, i) {
      BoundarySplits(text, i);
    } else if i <= |text| && Utf8.Valid(text[..i]) {
      assert text[..i] + text[i..] == text;
      ValidJoins(text[..i], text[i..]);
    }
  }

  lemma SplitLater(text: seq<byte>, w: nat, i: nat)
    requires w <= i <= |text| && Utf8.Valid(text[..w]) && Utf8.Valid(text[w..][..i - w]) && Utf8.Valid(text[w..][i - w..])
    ensures Utf8.Valid(text[..i]) && Utf8.Valid(text[i..])
  {
    ValidJoins(text[..w], text[w..][..i - w]);
    assert text[..w] + text[w..][..i - w] == text[..i];
    assert text[w..][i - w..] == text[i..];
  }

  lemma InsideIsNoBoundary(text: seq<byte>, i: nat)
    requires Utf8.Valid(text) && Boundary(text, i) && 0 < i <= |text|
    ensures Width(text[0]) <= i
  {
    var w := Width(text[0]);
    var c := text[..w];
    assert IsCharacter(c);
    assert forall k :: 0 <= k < w ==> c[k] == text[k];
  }

  /** A boundary is never more than three bytes back. */
  lemma {:induction false} BoundaryNearby(text: seq<byte>, end: nat)
    requires Utf8.Valid(text) && end <= |text|
    ensures exists i: nat :: i <= end <= i + 3 && Boundary(text, i)
    decreases |text|
  {
    if text == [] {
      assert Boundary(text, 0);
    } else {
      var w := Width(text[0]);
      FirstIsBoundary(text);
      if w <= end {
        BoundaryNearby(text[w..], end - w);
        var i: nat :| i <= end - w <= i + 3 && Boundary(text[w..], i);
        assert Boundary(text, i + w);
      }
    }
  }

  /** Moves back to the start of a character. */
  method FloorBoundary(text: seq<byte>, limit: nat) returns (end: nat)
    requires Utf8.Valid(text) && limit <= |text|
    ensures end <= limit <= end + 3 && Boundary(text, end) && (limit == |text| ==> end == limit)
  {
    BoundaryNearby(text, limit);
    ghost var floor: nat :| floor <= limit <= floor + 3 && Boundary(text, floor);
    end := limit;
    while !(end == |text| || !Tail(text[end]))
      invariant floor <= end <= limit && (limit == |text| ==> end == limit)
      decreases end
    {
      end := end - 1;
    }
  }

  /** Feeds the hash the bytes that escaping the whole text at once would give, always cutting
      between characters. None when cancelled. */
  method SourceDigest(text: seq<byte>, control: Control) returns (fed: Option<seq<byte>>)
    requires Utf8.Valid(text)
    modifies control
    ensures control.fired == (old(control.fired) || fed.None?)
    ensures fed.Some? ==> fed.value == DigestInput(VERSION, CONTENT, JsonString(text))
  {
    var stop := control.Stopped();
    if stop { return None; }
    var hash := VERSION + [0] + CONTENT + [0] + [QUOTE];
    ghost var prefix := hash;
    var start := 0;
    assert text[..0] == [] && text[0..] == text;
    while start < |text|
      invariant control.fired == old(control.fired)
      invariant start <= |text| && Utf8.Valid(text[start..]) && hash == prefix + Escape(text[..start])
    {
      stop := control.Stopped();
      if stop { return None; }
      var end := FloorPiece(text, start);
      ghost var before := hash;
      hash := hash + Escape(text[start..end]);
      PieceFed(text, start, end, prefix, before);
      start := end;
    }
    hash := hash + [QUOTE];
    WholeFed(text, VERSION, CONTENT, hash);
    stop := control.Stopped();
    return if stop then None else Some(hash);
  }

  method FloorPiece(text: seq<byte>, start: nat) returns (end: nat)
    requires start < |text| && Utf8.Valid(text[start..])
    ensures start < end <= |text| && Utf8.Valid(text[start..end]) && Utf8.Valid(text[end..])
  {
    var rest := text[start..];
    var limit := if start + SOURCE_CHUNK <= |text| then start + SOURCE_CHUNK else |text|;
    var n := FloorBoundary(rest, limit - start);
    assert n > 0;
    BoundarySplits(rest, n);
    end := start + n;
    SliceOfRest(text, start, n);
  }

  lemma SliceOfRest<T>(s: seq<T>, start: nat, n: nat)
    requires start + n <= |s|
    ensures s[start..][..n] == s[start..start + n] && s[start..][n..] == s[start + n..]
  {
  }

  lemma PieceFed(text: seq<byte>, start: nat, end: nat, prefix: seq<byte>, before: seq<byte>)
    requires start <= end <= |text| && before == prefix + Escape(text[..start])
    ensures before + Escape(text[start..end]) == prefix + Escape(text[..end])
  {
    EscapeJoins(text[..start], text[start..end]);
    assert text[..start] + text[start..end] == text[..end];
    Associate(prefix, Escape(text[..start]), Escape(text[start..end]));
  }

  lemma WholeFed(text: seq<byte>, version: seq<byte>, domain: seq<byte>, hash: seq<byte>)
    requires hash == version + [0] + domain + [0] + [QUOTE] + Escape(text[..|text|]) + [QUOTE]
    ensures hash == DigestInput(version, domain, JsonString(text))
  {
    assert text[..|text|] == text;
    var head := version + [0] + domain + [0];
    Associate(head, [QUOTE], Escape(text));
    Associate(head, [QUOTE] + Escape(text), [QUOTE]);
  }
}
