/** Import validation of one compiler body: identities, local effects and terminator shapes. */
module CompilerImport {
  import opened Wrappers
  import opened Mir

  // ---- decimal text of 128-bit switch values ----

  predicate IsDigit(c: char) {
    '0' <= c <= '9'
  }

  /** The value of a digit string; None on any other character. */
  function Digits(text: string): Option<nat> {
    if text == [] then Some(0)
    else if !IsDigit(text[|text| - 1]) then None
    else
      match Digits(text[..|text| - 1])
      case None => None
      case Some(high) => Some(10 * high + (text[|text| - 1] as int - '0' as int))
  }

  /** Unsigned parsing: an optional plus sign, at least one digit, at most 128 bits. */
  function ParseU128(text: string): Option<nat> {
    var digits := if |text| > 1 && text[0] == '+' then text[1..] else text;
    if digits == [] then None
    else
      match Digits(digits)
      case Some(value) => if value < 0x1_0000_0000_0000_0000_0000_0000_0000_0000 then Some(value) else None
      case None => None
  }

  function Decimal(n: nat): string {
    if n < 10 then [('0' as int + n) as char]
    else Decimal(n / 10) + [('0' as int + n % 10) as char]
  }

  /** The one text accepted for a value: what printing the parsed value gives back. */
  ghost predicate CanonicalValue(text: string) {
    ParseU128(text).Some? && Decimal(ParseU128(text).value) == text
  }

  /** The number that digits denote, most significant first. */
  ghost function Value(digits: string): nat
    requires forall i :: 0 <= i < |digits| ==> '0' <= digits[i] <= '9'
  {
    if digits == [] then 0 else Scaled(digits[0] as int - '0' as int, |digits| - 1) + Value(digits[1..])
  }

  /** A digit followed by n zeros. */
  ghost function Scaled(digit: nat, n: nat): nat {
    if n == 0 then digit else 10 * Scaled(digit, n - 1)
  }

  ghost predicate AllDigits(text: string) {
    forall i :: 0 <= i < |text| ==> '0' <= text[i] <= '9'
  }

  /** A numeral without leading zeros, of a number that fits 128 bits. */
  ghost predicate IsNumeral(text: string) {
    AllDigits(text) && text != [] && (text[0] == '0' ==> |text| == 1) && Value(text) < 0x1_0000_0000_0000_0000_0000_0000_0000_0000
  }

  lemma {:induction false} ValueAppend(init: string, last: char)
    requires AllDigits(init) && '0' <= last <= '9'
    ensures AllDigits(init + [last]) && Value(init + [last]) == 10 * Value(init) + (last as int - '0' as int)
    decreases |init|
  {
    var s := init + [last];
    if init == [] {
      assert s[1..] == [];
    } else {
      assert s[1..] == init[1..] + [last] && s[0] == init[0];
      ValueAppend(init[1..], last);
    }
  }

  lemma {:induction false} DigitsIsValue(text: string)
    ensures Digits(text).Some? <==> AllDigits(text)
    ensures AllDigits(text) ==> Digits(text) == Some(Value(text))
    decreases |text|
  {
    if text != [] {
      var init, last := text[..|text| - 1], text[|text| - 1];
      assert text == init + [last];
      DigitsIsValue(init);
      if AllDigits(text) {
        assert forall i :: 0 <= i < |init| ==> init[i] == text[i];
        ValueAppend(init, last);
      }
      if AllDigits(init) && IsDigit(last) { assert AllDigits(text); }
    }
  }

  lemma {:induction false} DecimalIsNumeral(n: nat)
    ensures var text := Decimal(n); AllDigits(text) && text != [] && (text[0] == '0' <==> n == 0) && Value(text) == n
    decreases n
  {
    if n < 10 {
      assert Decimal(n)[1..] == [];
    } else {
      DecimalIsNumeral(n / 10);
      ValueAppend(Decimal(n / 10), ('0' as int + n % 10) as char);
    }
  }

  lemma {:induction false} NumeralPrefix(text: string)
    requires AllDigits(text) && |text| > 1 && text[0] != '0'
    ensures var init := text[..|text| - 1];
      AllDigits(init) && init != [] && init[0] != '0' && Value(text) == 10 * Value(init) + (text[|text| - 1] as int - '0' as int)
    ensures Value(text[..|text| - 1]) > 0
    decreases |text|
  {
    var init, last := text[..|text| - 1], text[|text| - 1];
    assert text == init + [last];
    ValueAppend(init, last);
    Positive(init);
  }

  lemma Positive(text: string)
    requires AllDigits(text) && text != [] && text[0] != '0'
    ensures Value(text) > 0
  {
    ScaledPositive(text[0] as int - '0' as int, |text| - 1);
  }

  lemma {:induction false} ScaledPositive(digit: nat, n: nat)
    requires digit >= 1
    ensures Scaled(digit, n) >= 1
    decreases n
  {
    if n > 0 { ScaledPositive(digit, n - 1); }
  }

  lemma {:induction false} DecimalOfValue(text: string)
    requires AllDigits(text) && text != [] && (text[0] == '0' ==> |text| == 1)
    ensures Decimal(Value(text)) == text
    decreases |text|
  {
    if |text| == 1 {
      assert text[1..] == [];
      assert text == [text[0]];
    } else {
      var init, last := text[..|text| - 1], text[|text| - 1];
      NumeralPrefix(text);
      DecimalOfValue(init);
      var n, d := Value(text), last as int - '0' as int;
      assert n / 10 == Value(init) && n % 10 == d;
      assert text == init + [last];
    }
  }

  /** Printing back what was parsed accepts exactly the numerals, and reads their value. */
  lemma CanonicalIsNumeral(text: string)
    ensures CanonicalValue(text) <==> IsNumeral(text)
    ensures IsNumeral(text) ==> ParseU128(text) == Some(Value(text))
  {
    DigitsIsValue(text);
    if ParseU128(text).Some? { DecimalIsNumeral(ParseU128(text).value); }
    if IsNumeral(text) { DecimalOfValue(text); }
    if CanonicalValue(text) && text[0] == '+' { assert false; }
  }

  // ---- successor shapes ----

  function Count(successors: seq<Successor>, kind: EdgeKind): nat {
    if successors == [] then 0
    else Count(successors[..|successors| - 1], kind) + (if successors[|successors| - 1].kind == kind then 1 else 0)
  }

  /** The value of a canonical switch edge. */
  ghost function SwitchNumber(edge: Successor): Option<nat> {
    if edge.kind == SwitchValue && edge.switchValue.Some? && IsNumeral(edge.switchValue.value)
    then Some(Value(edge.switchValue.value))
    else None
  }

  /** A switch edge has a canonical value; no other edge has one. */
  ghost predicate ValueFits(edge: Successor) {
    if edge.kind == SwitchValue then edge.switchValue.Some? && IsNumeral(edge.switchValue.value) else edge.switchValue.None?
  }

  /** The text of a switch edge is read as its number, and nothing else is accepted. */
  method ReadValue(edge: Successor) returns (fits: bool, number: Option<nat>)
    ensures fits <==> ValueFits(edge)
    ensures fits ==> number == SwitchNumber(edge) && (number.Some? <==> edge.kind == SwitchValue)
  {
    match (edge.kind, edge.switchValue) {
      case (SwitchValue, Some(text)) =>
        CanonicalIsNumeral(text);
        var value := ParseU128(text);
        if value.None? || Decimal(value.value) != text { return false, None; }
        return true, value;
      case (SwitchValue, None) => return false, None;
      case (_, Some(text)) => return false, None;
      case (_, None) => return true, None;
    }
  }

  ghost function SwitchNumbers(successors: seq<Successor>): set<Option<nat>> {
    set e | e in successors && e.kind == SwitchValue :: SwitchNumber(e)
  }

  /** Every edge's value fits and the switch values are distinct. */
  ghost predicate SwitchValuesValid(successors: seq<Successor>) {
    && (forall i :: 0 <= i < |successors| ==> ValueFits(successors[i]))
    && (forall i, j :: 0 <= i < j < |successors| && successors[i].kind == SwitchValue && successors[j].kind == SwitchValue ==>
          SwitchNumber(successors[i]) != SwitchNumber(successors[j]))
  }

  lemma SwitchStep(successors: seq<Successor>, i: nat)
    requires i < |successors|
    ensures SwitchValuesValid(successors[..i + 1])
       <==> SwitchValuesValid(successors[..i]) && ValueFits(successors[i])
            && (successors[i].kind == SwitchValue ==> SwitchNumber(successors[i]) !in SwitchNumbers(successors[..i]))
    ensures SwitchNumbers(successors[..i + 1])
         == SwitchNumbers(successors[..i]) + (if successors[i].kind == SwitchValue then {SwitchNumber(successors[i])} else {})
    ensures Count(successors[..i + 1], SwitchValue)
         == Count(successors[..i], SwitchValue) + (if successors[i].kind == SwitchValue then 1 else 0)
    ensures SwitchValuesValid(successors) ==> SwitchValuesValid(successors[..i + 1])
  {
    var a, b, edge := successors[..i], successors[..i + 1], successors[i];
    assert b == a + [edge] && b[..i] == a;
    assert forall k :: 0 <= k < i ==> b[k] == a[k];
    assert forall e :: e in b <==> e in a || e == edge;
  }

  /** Collects the switch values; None when one is missing, not canonical, repeated, or misplaced. */
  method SwitchValues(successors: seq<Successor>) returns (values: Option<set<Option<nat>>>)
    ensures values.Some? <==> SwitchValuesValid(successors)
    ensures values.Some? ==> |values.value| == Count(successors, SwitchValue)
  {
    var seen: set<Option<nat>> := {};
    for i := 0 to |successors|
      invariant SwitchValuesValid(successors[..i])
      invariant seen == SwitchNumbers(successors[..i])
      invariant |seen| == Count(successors[..i], SwitchValue)
    {
      SwitchStep(successors, i);
      var fits, number := ReadValue(successors[i]);
      if !fits { return None; }
      if number.Some? {
        if number in seen { return None; }
        seen := seen + {number};
      }
    }
    assert successors[..|successors|] == successors;
    return Some(seen);
  }

  /** The successor counts and unwind action each terminator kind allows. */
  ghost predicate ShapeValid(term: Terminator) {
    var normal, unwind, drops, total :=
      Count(term.successors, Normal), Count(term.successors, Unwind),
      Count(term.successors, CoroutineDrop), |term.successors|;
    match term.kind
    case Goto => normal == 1 && total == 1 && term.unwind.None?
    case SwitchInt =>
      Count(term.successors, Otherwise) == 1 && total == Count(term.successors, SwitchValue) + 1 && term.unwind.None?
    case Return | UnwindResume | Unreachable | DropCoroutine | TailCall => total == 0 && term.unwind.None?
    case UnwindTerminate => total == 0 && term.unwind.Some? && term.unwind.value.Terminate?
    case DropPlace => normal == 1 && drops <= 1 && total == normal + drops + unwind && term.unwind.Some?
    case CallFunction => normal <= 1 && total == normal + unwind && term.unwind.Some?
    case Assert | FalseUnwind => normal == 1 && total == normal + unwind && term.unwind.Some?
    case Yield => Count(term.successors, Resume) == 1 && drops <= 1 && total == 1 + drops && term.unwind.None?
    case FalseEdge => normal == 1 && Count(term.successors, Imaginary) == 1 && total == 2 && term.unwind.None?
    case InlineAsm => total == normal + unwind && term.unwind.Some?
    case Unsupported => false
  }

  ghost predicate HasCleanupEdge(term: Terminator, target: nat) {
    exists i :: 0 <= i < |term.successors| && term.successors[i].kind == Unwind && term.successors[i].target == target
  }

  ghost predicate UnwindValid(term: Terminator) {
    match term.unwind
    case Some(Cleanup(target)) => Count(term.successors, Unwind) == 1 && HasCleanupEdge(term, target)
    case _ => Count(term.successors, Unwind) == 0
  }

  ghost function RequiredEffect(kind: TerminatorKind): Option<UnknownEffect> {
    match kind
    case CallFunction | TailCall => Some(Call)
    case DropPlace => Some(Drop)
    case InlineAsm => Some(InlineAssembly)
    case _ => None
  }

  /** Tests the unwind action against the unwind edges. */
  method ValidateUnwind(term: Terminator) returns (valid: bool)
    ensures valid <==> UnwindValid(term)
  {
    var unwind := Count(term.successors, Unwind);
    if term.unwind.None? || !term.unwind.value.Cleanup? { return unwind == 0; }
    var target := term.unwind.value.target;
    if unwind != 1 { return false; }
    for i := 0 to |term.successors|
      invariant forall k :: 0 <= k < i ==> !(term.successors[k].kind == Unwind && term.successors[k].target == target)
    {
      if term.successors[i].kind == Unwind && term.successors[i].target == target { return true; }
    }
    return false;
  }

  /** Tests the successor counts; switches is the number of switch values. */
  method ValidateShape(term: Terminator, switches: nat) returns (valid: bool)
    requires switches == Count(term.successors, SwitchValue)
    ensures valid <==> ShapeValid(term)
  {
    var s, total := term.successors, |term.successors|;
    var normal, unwind, drops := Count(s, Normal), Count(s, Unwind), Count(s, CoroutineDrop);
    match term.kind {
      case Goto => return normal == 1 && total == 1 && term.unwind.None?;
      case SwitchInt => return Count(s, Otherwise) == 1 && total == switches + 1 && term.unwind.None?;
      case Return | UnwindResume | Unreachable | DropCoroutine | TailCall => return total == 0 && term.unwind.None?;
      case UnwindTerminate => return total == 0 && term.unwind.Some? && term.unwind.value.Terminate?;
      case DropPlace => return normal == 1 && drops <= 1 && total == normal + drops + unwind && term.unwind.Some?;
      case CallFunction => return normal <= 1 && total == normal + unwind && term.unwind.Some?;
      case Assert | FalseUnwind => return normal == 1 && total == normal + unwind && term.unwind.Some?;
      case Yield => return Count(s, Resume) == 1 && drops <= 1 && total == 1 + drops && term.unwind.None?;
      case FalseEdge => return normal == 1 && Count(s, Imaginary) == 1 && total == 2 && term.unwind.None?;
      case InlineAsm => return total == normal + unwind && term.unwind.Some?;
      case Unsupported => return false;
    }
  }

  /** Everything import demands of one terminator, spans aside. */
  ghost predicate TerminatorValid(term: Terminator) {
    && SwitchValuesValid(term.successors)
    && (term.assertExpected.Some? <==> term.kind == Assert)
    && (term.callTarget.Some? <==> term.kind == CallFunction || term.kind == TailCall)
    && (term.normalReturnDefs == [] || (term.kind == CallFunction && Count(term.successors, Normal) == 1))
    && UnwindValid(term)
    && (term.unwind.Some? && term.unwind.value.Terminate? ==>
          term.unwind.value.reason == "abi" || term.unwind.value.reason == "panic_during_cleanup")
    && ShapeValid(term)
    && (term.kind == SwitchInt ==>
          term.successors != [] && term.successors[|term.successors| - 1].kind == Otherwise)
    && (RequiredEffect(term.kind).Some? ==> RequiredEffect(term.kind).value in term.locals.unknown)
    && (term.callTarget == Some(Indirect) ==> IndirectCall in term.locals.unknown)
  }

  method ValidateTerminator(term: Terminator) returns (valid: bool)
    ensures valid <==> TerminatorValid(term)
  {
    var switches := SwitchValues(term.successors);
    if switches.None? { return false; }
    if term.assertExpected.Some? != (term.kind == Assert) { return false; }
    if term.callTarget.Some? != (term.kind == CallFunction || term.kind == TailCall) { return false; }
    if term.normalReturnDefs != [] && !(term.kind == CallFunction && Count(term.successors, Normal) == 1) { return false; }
    valid := ValidateUnwind(term);
    if !valid { return false; }
    if term.unwind.Some? && term.unwind.value.Terminate? {
      if term.unwind.value.reason != "abi" && term.unwind.value.reason != "panic_during_cleanup" { return false; }
    }
    valid := ValidateShape(term, |switches.value|);
    if !valid { return false; }
    if term.kind == SwitchInt {
      if term.successors == [] || term.successors[|term.successors| - 1].kind != Otherwise { return false; }
    }
    var required :=
      match term.kind
      case CallFunction | TailCall => Some(Call)
      case DropPlace => Some(Drop)
      case InlineAsm => Some(InlineAssembly)
      case _ => None;
    if required.Some? && required.value !in term.locals.unknown { return false; }
    return term.callTarget == Some(Indirect) ==> IndirectCall in term.locals.unknown;
  }

  // ---- what an accepted terminator looks like ----

  /** The kinds of edges a terminator may have. */
  ghost predicate AllowedEdge(kind: TerminatorKind, edge: EdgeKind) {
    match kind
    case Goto => edge == Normal
    case SwitchInt => edge == SwitchValue || edge == Otherwise
    case DropPlace => edge == Normal || edge == CoroutineDrop || edge == Unwind
    case CallFunction | Assert | FalseUnwind | InlineAsm => edge == Normal || edge == Unwind
    case Yield => edge == Resume || edge == CoroutineDrop
    case FalseEdge => edge == Normal || edge == Imaginary
    case _ => false
  }

  lemma {:induction false} CountsCover(s: seq<Successor>)
    ensures Count(s, Normal) + Count(s, SwitchValue) + Count(s, Otherwise) + Count(s, Unwind)
          + Count(s, Resume) + Count(s, CoroutineDrop) + Count(s, Imaginary) == |s|
  {
    if s != [] {
      CountsCover(s[..|s| - 1]);
    }
  }

  lemma {:induction false} CountPresent(s: seq<Successor>, i: nat)
    requires i < |s|
    ensures Count(s, s[i].kind) >= 1
  {
    if i < |s| - 1 {
      CountPresent(s[..|s| - 1], i);
    }
  }

  lemma {:induction false} CountPair(s: seq<Successor>, i: nat, j: nat)
    requires i < j < |s| && s[i].kind == s[j].kind
    ensures Count(s, s[i].kind) >= 2
  {
    if j < |s| - 1 {
      CountPair(s[..|s| - 1], i, j);
    } else {
      CountPresent(s[..|s| - 1], i);
    }
  }

  /** The counts leave room for no edge of a foreign kind, and an unwind edge leads where the unwind
      action says. */
  lemma GuardedEdge(term: Terminator, i: nat)
    requires UnwindValid(term) && ShapeValid(term) && i < |term.successors|
    ensures AllowedEdge(term.kind, term.successors[i].kind)
    ensures term.successors[i].kind == Unwind ==> term.unwind == Some(Cleanup(term.successors[i].target))
  {
    var s := term.successors;
    CountsCover(s);
    CountPresent(s, i);
    if s[i].kind == Unwind {
      var target := term.unwind.value.target;
      var k :| 0 <= k < |s| && s[k].kind == Unwind && s[k].target == target;
      if k < i {
        CountPair(s, k, i);
      } else if i < k {
        CountPair(s, i, k);
      }
    }
  }

  /** Every edge of an accepted terminator is of a kind it allows; a switch lists its values first and
      its one fallback last. */
  lemma AcceptedEdge(term: Terminator, i: nat)
    requires TerminatorValid(term) && i < |term.successors|
    ensures AllowedEdge(term.kind, term.successors[i].kind)
    ensures term.successors[i].kind == Unwind ==> term.unwind == Some(Cleanup(term.successors[i].target))
    ensures term.kind == SwitchInt ==> (term.successors[i].kind == Otherwise <==> i == |term.successors| - 1)
  {
    GuardedEdge(term, i);
    if term.kind == SwitchInt && i < |term.successors| - 1 && term.successors[i].kind == Otherwise {
      CountPair(term.successors, i, |term.successors| - 1);
    }
  }

  // ---- local references ----

  /** In range, sorted and without repetition. */
  ghost predicate ReferencesValid(references: seq<nat>, locals: nat) {
    && (forall i :: 0 <= i < |references| ==> references[i] < locals)
    && (forall i :: 0 <= i < |references| - 1 ==> references[i] < references[i + 1])
  }

  method ValidateReferences(references: seq<nat>, locals: nat) returns (valid: bool)
    ensures valid <==> ReferencesValid(references, locals)
  {
    for i := 0 to |references|
      invariant ReferencesValid(references[..i], locals)
    {
      assert references[..i + 1] == references[..i] + [references[i]];
      if references[i] >= locals { return false; }
      if i > 0 && references[i - 1] >= references[i] { return false; }
    }
    assert references[..|references|] == references;
    return true;
  }

  ghost predicate EffectsValid(effects: LocalEffects, locals: nat) {
    ReferencesValid(effects.defs, locals) && ReferencesValid(effects.uses, locals)
    && ReferencesValid(effects.moves, locals) && ReferencesValid(effects.storageLive, locals)
    && ReferencesValid(effects.storageDead, locals)
  }

  method ValidateEffects(effects: LocalEffects, locals: nat) returns (valid: bool)
    ensures valid <==> EffectsValid(effects, locals)
  {
    valid := ValidateReferences(effects.defs, locals);
    if valid { valid := ValidateReferences(effects.uses, locals); }
    if valid { valid := ValidateReferences(effects.moves, locals); }
    if valid { valid := ValidateReferences(effects.storageLive, locals); }
    if valid { valid := ValidateReferences(effects.storageDead, locals); }
  }

  // ---- the body ----

  ghost function ExpectedRole(index: nat, argumentCount: nat): LocalRole {
    if index == 0 then ReturnPlace else if index <= argumentCount then Argument else Temporary
  }

  ghost predicate HeaderValid(body: Body) {
    && 0 < |body.locals| <= 10_000 && body.argumentCount < |body.locals| && body.supportedKind
    && 0 < |body.blocks| <= 10_000 && 0 < |body.sourceScopes| <= 10_000
    && (forall i :: 0 <= i < |body.sourceScopes| ==>
          body.sourceScopes[i].index == i
          && (body.sourceScopes[i].parent.Some? ==> body.sourceScopes[i].parent.value < i))
    && (forall i :: 0 <= i < |body.locals| ==>
          body.locals[i].index == i && body.locals[i].sourceScope < |body.sourceScopes|
          && body.locals[i].role == ExpectedRole(i, body.argumentCount))
  }

  ghost predicate StatementValid(body: Body, statement: Statement, i: nat) {
    statement.index == i && statement.sourceScope < |body.sourceScopes| && statement.supportedKind
    && EffectsValid(statement.locals, |body.locals|)
  }

  ghost predicate BlockValid(body: Body, block: Block, index: nat) {
    var term := block.terminator;
    && block.index == index
    && (forall i :: 0 <= i < |block.statements| ==> StatementValid(body, block.statements[i], i))
    && term.sourceScope < |body.sourceScopes| && EffectsValid(term.locals, |body.locals|)
    && ReferencesValid(term.normalReturnDefs, |body.locals|)
    && (forall e :: e in term.successors ==> e.target < |body.blocks|)
    && (term.unwind.Some? && term.unwind.value.Cleanup? ==>
          term.unwind.value.target < |body.blocks| && body.blocks[term.unwind.value.target].isCleanup)
    && TerminatorValid(term)
  }

  ghost predicate BodyValid(body: Body) {
    HeaderValid(body) && BlocksValid(body, |body.blocks|)
  }

  ghost predicate BlocksValid(body: Body, count: nat)
    requires count <= |body.blocks|
  {
    count == 0 || (BlocksValid(body, count - 1) && BlockValid(body, body.blocks[count - 1], count - 1))
  }

  lemma {:induction false} BlocksValidAt(body: Body, count: nat, b: nat)
    requires b < count <= |body.blocks| && BlocksValid(body, count)
    ensures BlockValid(body, body.blocks[b], b)
  {
    if b < count - 1 {
      BlocksValidAt(body, count - 1, b);
    }
  }

  lemma BadBlock(body: Body, b: nat)
    requires b < |body.blocks| && !BlockValid(body, body.blocks[b], b)
    ensures !BodyValid(body)
  {
    if BlocksValid(body, |body.blocks|) {
      BlocksValidAt(body, |body.blocks|, b);
    }
  }

  /** Statements and terminators counted against the import budget. */
  ghost function StatementCount(blocks: seq<Block>): nat {
    if blocks == [] then 0
    else StatementCount(blocks[..|blocks| - 1]) + |blocks[|blocks| - 1].statements| + 1
  }

  method ValidateHeader(body: Body) returns (valid: bool)
    ensures valid <==> HeaderValid(body)
  {
    if !(0 < |body.locals| <= 10_000 && body.argumentCount < |body.locals| && body.supportedKind
         && 0 < |body.blocks| <= 10_000 && 0 < |body.sourceScopes| <= 10_000)
    {
      return false;
    }
    for i := 0 to |body.sourceScopes|
      invariant forall k :: 0 <= k < i ==>
        body.sourceScopes[k].index == k
        && (body.sourceScopes[k].parent.Some? ==> body.sourceScopes[k].parent.value < k)
    {
      var scope := body.sourceScopes[i];
      if scope.index != i || (scope.parent.Some? && scope.parent.value >= i) { return false; }
    }
    for i := 0 to |body.locals|
      invariant forall k :: 0 <= k < i ==>
        body.locals[k].index == k && body.locals[k].sourceScope < |body.sourceScopes|
        && body.locals[k].role == ExpectedRole(k, body.argumentCount)
    {
      var local := body.locals[i];
      var role := if i == 0 then ReturnPlace else if i <= body.argumentCount then Argument else Temporary;
      if local.index != i || local.sourceScope >= |body.sourceScopes| || local.role != role { return false; }
    }
    return true;
  }

  method ValidateBlock(body: Body, block: Block, index: nat) returns (valid: bool)
    ensures valid <==> BlockValid(body, block, index)
  {
    if block.index != index { return false; }
    for i := 0 to |block.statements|
      invariant forall k :: 0 <= k < i ==> StatementValid(body, block.statements[k], k)
    {
      var statement := block.statements[i];
      if statement.index != i || statement.sourceScope >= |body.sourceScopes| || !statement.supportedKind { return false; }
      var inside := ValidateEffects(statement.locals, |body.locals|);
      if !inside { return false; }
    }
    var term := block.terminator;
    if term.sourceScope >= |body.sourceScopes| { return false; }
    valid := ValidateEffects(term.locals, |body.locals|);
    if !valid { return false; }
    valid := ValidateReferences(term.normalReturnDefs, |body.locals|);
    if !valid { return false; }
    for i := 0 to |term.successors|
      invariant forall e :: e in term.successors[..i] ==> e.target < |body.blocks|
    {
      if term.successors[i].target >= |body.blocks| {
        assert term.successors[i] in term.successors;
        return false;
      }
    }
    if term.unwind.Some? && term.unwind.value.Cleanup? {
      var target := term.unwind.value.target;
      if target >= |body.blocks| || !body.blocks[target].isCleanup { return false; }
      if !exists i :: 0 <= i < |term.successors| && term.successors[i].target == target && term.successors[i].kind == Unwind {
        return false;
      }
    }
    valid := ValidateTerminator(term);
  }

  /** Import validation of one body on top of the statements already counted. */
  method ValidateBody(body: Body, counted: nat) returns (result: Result<nat, ()>)
    ensures result.Ok? <==> BodyValid(body) && counted + StatementCount(body.blocks) <= 200_000
    ensures result.Ok? ==> result.value == counted + StatementCount(body.blocks)
  {
    var valid := ValidateHeader(body);
    if !valid { return Err(()); }
    var statements := counted;
    for b := 0 to |body.blocks|
      invariant statements == counted + StatementCount(body.blocks[..b])
      invariant b > 0 ==> statements <= 200_000
      invariant BlocksValid(body, b)
    {
      StatementCountStep(body.blocks, b);
      statements := statements + |body.blocks[b].statements| + 1;
      if statements > 200_000 { return Err(()); }
      valid := ValidateBlock(body, body.blocks[b], b);
      if !valid {
        BadBlock(body, b);
        return Err(());
      }
    }
    assert body.blocks[..|body.blocks|] == body.blocks;
    return Ok(statements);
  }

  lemma StatementCountStep(blocks: seq<Block>, b: nat)
    requires b < |blocks|
    ensures StatementCount(blocks[..b + 1]) == StatementCount(blocks[..b]) + |blocks[b].statements| + 1
    ensures StatementCount(blocks[..b + 1]) <= StatementCount(blocks)
  {
    StatementCountGrows(blocks, b + 1);
    assert blocks[..b + 1][..b] == blocks[..b];
  }

  lemma {:induction false} StatementCountGrows(blocks: seq<Block>, b: nat)
    requires b <= |blocks|
    ensures StatementCount(blocks[..b]) <= StatementCount(blocks)
    decreases |blocks| - b
  {
    if b == |blocks| {
      assert blocks[..b] == blocks;
    } else {
      StatementCountGrows(blocks, b + 1);
      assert blocks[..b + 1][..b] == blocks[..b];
    }
  }
}
