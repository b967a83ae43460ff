/** Three-valued evaluation of conditional-compilation attributes, and what it promises. */
module Configuration {
  import opened Wrappers
  import opened Facts

  /** A condition as parsed. Malformed stands for a condition without an identifier or with an unknown
      keyword; the value of a pair is None when it is not a readable string. */
  datatype Predicate =
    | True
    | False
    | Malformed(code: nat)
    | Atom(key: string)
    | Pair(key: string, value: Option<string>)
    | All(children: seq<Predicate>)
    | Any(children: seq<Predicate>)
    | Not(children: seq<Predicate>)

  datatype Meta =
    | CfgMeta(condition: Option<Predicate>)
    | CfgAttr(condition: Option<Predicate>, metas: seq<Meta>)
    | UnsafeMeta(meta: Option<Meta>)
    | Other(name: Option<string>)

  datatype Settings = Settings(cfg: map<string, Option<string>>, features: set<string>, unknownFeatures: bool)

  const BUILTIN: set<string> := {
    "derive", "doc", "allow", "warn", "deny", "forbid", "expect", "inline", "repr", "test", "must_use", "no_mangle",
    "export_name", "link", "link_name", "link_section", "path", "cold", "deprecated", "no_std", "no_main",
    "non_exhaustive", "track_caller", "automatically_derived", "used", "global_allocator", "panic_handler"
  }

  // ---- evaluation ----

  function FromBool(b: bool): CfgStatus {
    if b then Active else Inactive
  }

  /** All, or any, of some statuses: the deciding value wins, then an unknown one. */
  function Combine(values: seq<CfgStatus>, any: bool): CfgStatus {
    if FromBool(any) in values then FromBool(any)
    else if UnknownCfg in values then UnknownCfg
    else FromBool(!any)
  }

  /** The scan stops at a deciding value and remembers an unknown one. */
  method CombineScan(values: seq<CfgStatus>, any: bool) returns (status: CfgStatus)
    ensures status == Combine(values, any)
  {
    var unknown := false;
    for i := 0 to |values|
      invariant unknown <==> UnknownCfg in values[..i]
      invariant FromBool(any) !in values[..i]
    {
      assert values[..i + 1] == values[..i] + [values[i]];
      match values[i]
      case Active => if any { return Active; }
      case Inactive => if !any { return Inactive; }
      case UnknownCfg => unknown := true;
    }
    assert values[..|values|] == values;
    return if unknown then UnknownCfg else FromBool(!any);
  }

  function EvaluatePair(s: Settings, key: string, value: string): CfgStatus {
    if key == "feature" then if s.unknownFeatures then UnknownCfg else FromBool(value in s.features)
    else if key in s.cfg then FromBool(s.cfg[key] == Some(value))
    else UnknownCfg
  }

  function EvaluateAtom(s: Settings, key: string): CfgStatus {
    if key in s.cfg then FromBool(s.cfg[key] == None)
    else if key == "test" then Inactive
    else UnknownCfg
  }

  function Evaluate(s: Settings, p: Predicate): CfgStatus {
    match p
    case True => Active
    case False => Inactive
    case Malformed(_) => UnknownCfg
    case Atom(key) => EvaluateAtom(s, key)
    case Pair(key, value) => if value.None? then UnknownCfg else EvaluatePair(s, key, value.value)
    case All(children) => Combine(seq(|children|, i requires 0 <= i < |children| => Evaluate(s, children[i])), false)
    case Any(children) => Combine(seq(|children|, i requires 0 <= i < |children| => Evaluate(s, children[i])), true)
    case Not(children) =>
      if |children| != 1 then UnknownCfg
      else match Evaluate(s, children[0]) case Active => Inactive case Inactive => Active case UnknownCfg => UnknownCfg
  }

  function Condition(s: Settings, condition: Option<Predicate>): CfgStatus {
    if condition.None? then UnknownCfg else Evaluate(s, condition.value)
  }

  /** Whether an attribute keeps the item it stands on. */
  function MetaStatus(s: Settings, m: Meta): CfgStatus {
    match m
    case CfgMeta(condition) => Condition(s, condition)
    case CfgAttr(condition, metas) =>
      (match Condition(s, condition)
       case Inactive => Active
       case UnknownCfg => UnknownCfg
       case Active => Combine(seq(|metas|, i requires 0 <= i < |metas| => MetaStatus(s, metas[i])), false))
    case _ => Active
  }

  /** Whether an attribute may be a macro that rewrites the item. */
  predicate AttributeUnavailable(s: Settings, m: Meta) {
    match m
    case CfgMeta(_) => false
    case CfgAttr(condition, metas) =>
      (match Condition(s, condition)
       case Inactive => false
       case UnknownCfg => true
       case Active => exists i :: 0 <= i < |metas| && AttributeUnavailable(s, metas[i]))
    case UnsafeMeta(meta) => meta.None? || AttributeUnavailable(s, meta.value)
    case Other(name) => !(name.Some? && name.value in BUILTIN)
  }

  // ---- the conditions themselves ----

  /** One build: a truth value for everything the settings may leave open. */
  datatype Build = Build(atom: string -> bool, pair: (string, string) -> bool, odd: Predicate -> bool, missing: Meta -> bool)

  /** A build the settings describe. Unset keys are free, except that "test" is off. */
  ghost predicate Agrees(b: Build, s: Settings) {
    && (forall key :: key in s.cfg ==> b.atom(key) == s.cfg[key].None?)
    && ("test" !in s.cfg ==> !b.atom("test"))
    && (forall key, value :: key in s.cfg && key != "feature" ==> b.pair(key, value) == (s.cfg[key] == Some(value)))
    && (!s.unknownFeatures ==> forall value :: b.pair("feature", value) == (value in s.features))
  }

  ghost predicate Truth(b: Build, p: Predicate) {
    match p
    case True => true
    case False => false
    case Malformed(_) => b.odd(p)
    case Atom(key) => b.atom(key)
    case Pair(key, value) => if value.None? then b.odd(p) else b.pair(key, value.value)
    case All(children) => forall i :: 0 <= i < |children| ==> Truth(b, children[i])
    case Any(children) => exists i :: 0 <= i < |children| && Truth(b, children[i])
    case Not(children) => if |children| != 1 then b.odd(p) else !Truth(b, children[0])
  }

  /** Whether the attribute keeps its item in this build. */
  ghost predicate Keeps(b: Build, m: Meta) {
    match m
    case CfgMeta(condition) => if condition.None? then b.missing(m) else Truth(b, condition.value)
    case CfgAttr(condition, metas) =>
      (if condition.None? then b.missing(m) else Truth(b, condition.value)) ==>
        forall i :: 0 <= i < |metas| ==> Keeps(b, metas[i])
    case _ => true
  }

  /** A definite status agrees with the truth. */
  ghost predicate Faithful(status: CfgStatus, truth: bool) {
    (status == Active ==> truth) && (status == Inactive ==> !truth)
  }

  lemma CombineAll(values: seq<CfgStatus>)
    ensures Combine(values, false) == Active <==> forall i :: 0 <= i < |values| ==> values[i] == Active
    ensures Combine(values, false) == Inactive <==> exists i :: 0 <= i < |values| && values[i] == Inactive
  {
    if forall i :: 0 <= i < |values| ==> values[i] == Active {
      assert Inactive !in values && UnknownCfg !in values;
    }
    forall i | 0 <= i < |values| && Combine(values, false) == Active
      ensures values[i] == Active
    {
      assert values[i] in values;
    }
  }

  lemma CombineAny(values: seq<CfgStatus>)
    ensures Combine(values, true) == Active <==> exists i :: 0 <= i < |values| && values[i] == Active
    ensures Combine(values, true) == Inactive <==> forall i :: 0 <= i < |values| ==> values[i] == Inactive
  {
    forall i | 0 <= i < |values| && Combine(values, true) == Inactive
      ensures values[i] == Inactive
    {
      assert values[i] in values;
    }
    if forall i :: 0 <= i < |values| ==> values[i] == Inactive {
      assert Active !in values && UnknownCfg !in values;
    }
  }

  /** A definite verdict on a condition holds in every build the settings describe. */
  lemma {:induction false} EvaluateIsSound(s: Settings, b: Build, p: Predicate)
    requires Agrees(b, s)
    ensures Faithful(Evaluate(s, p), Truth(b, p))
  {
    match p
    case All(children) =>
      var values := seq(|children|, i requires 0 <= i < |children| => Evaluate(s, children[i]));
      CombineAll(values);
      forall i | 0 <= i < |children|
        ensures Faithful(values[i], Truth(b, children[i]))
      {
        EvaluateIsSound(s, b, children[i]);
      }
    case Any(children) =>
      var values := seq(|children|, i requires 0 <= i < |children| => Evaluate(s, children[i]));
      CombineAny(values);
      forall i | 0 <= i < |children|
        ensures Faithful(values[i], Truth(b, children[i]))
      {
        EvaluateIsSound(s, b, children[i]);
      }
    case Not(children) =>
      if |children| == 1 { EvaluateIsSound(s, b, children[0]); }
    case _ =>
  }

  /** So does a definite verdict on an attribute, through nested cfg_attr. */
  lemma {:induction false} MetaStatusIsSound(s: Settings, b: Build, m: Meta)
    requires Agrees(b, s)
    ensures Faithful(MetaStatus(s, m), Keeps(b, m))
  {
    match m
    case CfgMeta(condition) => if condition.Some? { EvaluateIsSound(s, b, condition.value); }
    case CfgAttr(condition, metas) =>
      if condition.Some? { EvaluateIsSound(s, b, condition.value); }
      var values := seq(|metas|, i requires 0 <= i < |metas| => MetaStatus(s, metas[i]));
      CombineAll(values);
      forall i | 0 <= i < |metas|
        ensures Faithful(values[i], Keeps(b, metas[i]))
      {
        MetaStatusIsSound(s, b, metas[i]);
      }
    case _ =>
  }

  // ---- exactly when a verdict is definite ----

  /** The truth values a condition can take when every occurrence of something the settings leave open
      may turn out either way, independently of the others. */
  ghost predicate MayBe(s: Settings, p: Predicate, v: bool) {
    match p
    case True => v
    case False => !v
    case Malformed(_) => true
    case Atom(key) => if key in s.cfg then v == s.cfg[key].None? else key == "test" ==> !v
    case Pair(key, value) =>
      value.Some? ==>
        if key == "feature" then !s.unknownFeatures ==> v == (value.value in s.features)
        else key in s.cfg ==> v == (s.cfg[key] == value)
    case All(children) =>
      if v then forall i :: 0 <= i < |children| ==> MayBe(s, children[i], true)
      else exists i :: 0 <= i < |children| && MayBe(s, children[i], false)
    case Any(children) =>
      if v then exists i :: 0 <= i < |children| && MayBe(s, children[i], true)
      else forall i :: 0 <= i < |children| ==> MayBe(s, children[i], false)
    case Not(children) => |children| == 1 ==> MayBe(s, children[0], !v)
  }

  /** The status says exactly which of the two values are possible. */
  ghost predicate Exactly(status: CfgStatus, mayHold: bool, mayFail: bool) {
    && (status == Active <==> mayHold && !mayFail) && (status == Inactive <==> mayFail && !mayHold)
    && (status == UnknownCfg <==> mayHold && mayFail)
  }

  lemma CombineExactly(values: seq<CfgStatus>)
    ensures Combine(values, false) == UnknownCfg
      <==> (forall i :: 0 <= i < |values| ==> values[i] != Inactive) && exists i :: 0 <= i < |values| && values[i] == UnknownCfg
    ensures Combine(values, true) == UnknownCfg
      <==> (forall i :: 0 <= i < |values| ==> values[i] != Active) && exists i :: 0 <= i < |values| && values[i] == UnknownCfg
  {
    CombineAll(values);
    CombineAny(values);
  }

  /** Main result on conditions: definite exactly when only one value is possible, and then that value,
      through nested all, any and not. */
  lemma {:induction false} EvaluateIsExact(s: Settings, p: Predicate)
    ensures Exactly(Evaluate(s, p), MayBe(s, p, true), MayBe(s, p, false))
  {
    match p
    case All(children) =>
      var values := seq(|children|, i requires 0 <= i < |children| => Evaluate(s, children[i]));
      CombineAll(values);
      CombineExactly(values);
      forall i | 0 <= i < |children|
        ensures Exactly(values[i], MayBe(s, children[i], true), MayBe(s, children[i], false))
      {
        EvaluateIsExact(s, children[i]);
      }
    case Any(children) =>
      var values := seq(|children|, i requires 0 <= i < |children| => Evaluate(s, children[i]));
      CombineAny(values);
      CombineExactly(values);
      forall i | 0 <= i < |children|
        ensures Exactly(values[i], MayBe(s, children[i], true), MayBe(s, children[i], false))
      {
        EvaluateIsExact(s, children[i]);
      }
    case Not(children) =>
      if |children| == 1 { EvaluateIsExact(s, children[0]); }
    case _ =>
  }

  /** The value in a build the settings describe is one of the possible ones. */
  lemma {:induction false} TruthIsPossible(s: Settings, b: Build, p: Predicate)
    requires Agrees(b, s)
    ensures MayBe(s, p, Truth(b, p))
  {
    match p
    case All(children) => forall i | 0 <= i < |children| { TruthIsPossible(s, b, children[i]); }
    case Any(children) => forall i | 0 <= i < |children| { TruthIsPossible(s, b, children[i]); }
    case Not(children) => if |children| == 1 { TruthIsPossible(s, b, children[0]); }
    case _ =>
  }

  /** A well-formed condition all of whose keys the settings decide. */
  ghost predicate Settled(s: Settings, p: Predicate) {
    match p
    case Malformed(_) => false
    case Atom(key) => key in s.cfg || key == "test"
    case Pair(key, value) => value.Some? && if key == "feature" then !s.unknownFeatures else key in s.cfg
    case All(children) => forall i :: 0 <= i < |children| ==> Settled(s, children[i])
    case Any(children) => forall i :: 0 <= i < |children| ==> Settled(s, children[i])
    case Not(children) => |children| == 1 && Settled(s, children[0])
    case _ => true
  }

  /** A settled condition gets the verdict that every build the settings describe agrees on. */
  lemma {:induction false} SettledIsDecided(s: Settings, b: Build, p: Predicate)
    requires Agrees(b, s) && Settled(s, p)
    ensures Evaluate(s, p) == if Truth(b, p) then Active else Inactive
  {
    match p
    case All(children) =>
      var values := seq(|children|, i requires 0 <= i < |children| => Evaluate(s, children[i]));
      CombineAll(values);
      forall i | 0 <= i < |children|
        ensures values[i] == if Truth(b, children[i]) then Active else Inactive
      {
        SettledIsDecided(s, b, children[i]);
      }
    case Any(children) =>
      var values := seq(|children|, i requires 0 <= i < |children| => Evaluate(s, children[i]));
      CombineAny(values);
      forall i | 0 <= i < |children|
        ensures values[i] == if Truth(b, children[i]) then Active else Inactive
      {
        SettledIsDecided(s, b, children[i]);
      }
    case Not(children) => SettledIsDecided(s, b, children[0]);
    case _ =>
  }

  ghost predicate ConditionMayBe(s: Settings, condition: Option<Predicate>, v: bool) {
    condition.Some? ==> MayBe(s, condition.value, v)
  }

  lemma ConditionIsExact(s: Settings, condition: Option<Predicate>)
    ensures Exactly(Condition(s, condition), ConditionMayBe(s, condition, true), ConditionMayBe(s, condition, false))
  {
    if condition.Some? { EvaluateIsExact(s, condition.value); }
  }

  /** Whether an attribute may keep, or may drop, its item. An attribute under an open cfg_attr condition
      counts as open, whatever it is. */
  ghost predicate MayKeep(s: Settings, m: Meta, v: bool) {
    match m
    case CfgMeta(condition) => ConditionMayBe(s, condition, v)
    case CfgAttr(condition, metas) =>
      if !ConditionMayBe(s, condition, true) then v
      else if ConditionMayBe(s, condition, false) then true
      else if v then forall i :: 0 <= i < |metas| ==> MayKeep(s, metas[i], true)
      else exists i :: 0 <= i < |metas| && MayKeep(s, metas[i], false)
    case _ => v
  }

  /** The same for attributes, through nested cfg_attr. */
  lemma {:induction false} MetaStatusIsExact(s: Settings, m: Meta)
    ensures Exactly(MetaStatus(s, m), MayKeep(s, m, true), MayKeep(s, m, false))
  {
    match m
    case CfgMeta(condition) => ConditionIsExact(s, condition);
    case CfgAttr(condition, metas) =>
      ConditionIsExact(s, condition);
      var values := seq(|metas|, i requires 0 <= i < |metas| => MetaStatus(s, metas[i]));
      CombineAll(values);
      CombineExactly(values);
      forall i | 0 <= i < |metas|
        ensures Exactly(values[i], MayKeep(s, metas[i], true), MayKeep(s, metas[i], false))
      {
        MetaStatusIsExact(s, metas[i]);
      }
    case _ =>
  }

  /** Under an open condition the verdict is Unknown even for attributes that never drop anything. */
  lemma OpenConditionIsCautious(s: Settings, b: Build, key: string, name: string)
    requires key !in s.cfg && key != "test"
    ensures MetaStatus(s, CfgAttr(Some(Atom(key)), [Other(Some(name))])) == UnknownCfg
    ensures Keeps(b, CfgAttr(Some(Atom(key)), [Other(Some(name))]))
  {
  }

  // ---- macros ----

  /** In this build, the attribute or one it expands to is not known to the compiler. */
  ghost predicate Rewrites(b: Build, m: Meta) {
    match m
    case CfgMeta(_) => false
    case CfgAttr(condition, metas) =>
      && (if condition.None? then b.missing(m) else Truth(b, condition.value))
      && exists i :: 0 <= i < |metas| && Rewrites(b, metas[i])
    case UnsafeMeta(meta) => meta.Some? ==> Rewrites(b, meta.value)
    case Other(name) => name.Some? ==> name.value !in BUILTIN
  }

  /** What may be a macro: an attribute unknown to the compiler, or anything under an open condition. */
  ghost predicate MayRewrite(s: Settings, m: Meta) {
    match m
    case CfgMeta(_) => false
    case CfgAttr(condition, metas) =>
      && ConditionMayBe(s, condition, true)
      && (ConditionMayBe(s, condition, false) || exists i :: 0 <= i < |metas| && MayRewrite(s, metas[i]))
    case UnsafeMeta(meta) => meta.Some? ==> MayRewrite(s, meta.value)
    case Other(name) => name.Some? ==> name.value !in BUILTIN
  }

  lemma {:induction false} UnavailableIsExact(s: Settings, m: Meta)
    ensures AttributeUnavailable(s, m) <==> MayRewrite(s, m)
  {
    match m
    case CfgAttr(condition, metas) =>
      ConditionIsExact(s, condition);
      forall i | 0 <= i < |metas|
        ensures AttributeUnavailable(s, metas[i]) <==> MayRewrite(s, metas[i])
      {
        UnavailableIsExact(s, metas[i]);
      }
    case UnsafeMeta(meta) => if meta.Some? { UnavailableIsExact(s, meta.value); }
    case _ =>
  }

  /** An attribute that is not flagged rewrites nothing in any build the settings describe. */
  lemma {:induction false} AvailableIsSound(s: Settings, b: Build, m: Meta)
    requires Agrees(b, s) && Rewrites(b, m)
    ensures AttributeUnavailable(s, m)
  {
    match m
    case CfgAttr(condition, metas) =>
      if condition.Some? { EvaluateIsSound(s, b, condition.value); }
      var i :| 0 <= i < |metas| && Rewrites(b, metas[i]);
      AvailableIsSound(s, b, metas[i]);
    case UnsafeMeta(meta) => if meta.Some? { AvailableIsSound(s, b, meta.value); }
    case _ =>
  }

  /** An unset key or feature is really open: some build agrees with the settings either way. */
  lemma UnknownAtomIsOpen(s: Settings, key: string)
    requires EvaluateAtom(s, key) == UnknownCfg
    ensures exists b, c :: Agrees(b, s) && Agrees(c, s) && Truth(b, Atom(key)) && !Truth(c, Atom(key))
  {
    var base := Build(k => k in s.cfg && s.cfg[k].None?, (k, v) => SettledPair(s, k, v), p => false, m => false);
    var flipped := base.(atom := k => k == key || base.atom(k));
    assert Agrees(base, s) && Agrees(flipped, s);
    assert Truth(flipped, Atom(key)) && !Truth(base, Atom(key));
  }

  ghost predicate SettledPair(s: Settings, key: string, value: string) {
    if key == "feature" then value in s.features else key in s.cfg && s.cfg[key] == Some(value)
  }

  lemma UnknownPairIsOpen(s: Settings, key: string, value: string)
    requires EvaluatePair(s, key, value) == UnknownCfg
    ensures exists b, c ::
      Agrees(b, s) && Agrees(c, s) && Truth(b, Pair(key, Some(value))) && !Truth(c, Pair(key, Some(value)))
  {
    var base := Build(k => k in s.cfg && s.cfg[k].None?, (k, v) => SettledPair(s, k, v) && !(k == key && v == value), p => false, m => false);
    var flipped := base.(pair := (k, v) => SettledPair(s, k, v) || (k == key && v == value));
    assert Agrees(base, s) && Agrees(flipped, s);
    assert Truth(flipped, Pair(key, Some(value))) && !Truth(base, Pair(key, Some(value)));
  }
}
