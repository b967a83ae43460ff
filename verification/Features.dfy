/** The local closure of enabled crate features. */
module Features {
  import opened Wrappers
  import opened Configuration

  /** An entry of a feature's array. */
  datatype Entry = Name(name: string) | NotAString

  /** The features table of a manifest: an array of entries, or some other value. */
  datatype Declaration = Entries(entries: seq<Entry>) | NotAnArray

  type Table = map<string, Declaration>

  /** A name that only Cargo's resolver can interpret. */
  predicate Forwarding(name: string) {
    '/' in name || "dep:" <= name
  }

  function EntriesOf(table: Table, feature: string): seq<Entry> {
    if feature in table && table[feature].Entries? then table[feature].entries else []
  }

  // ---- the closure ----

  /** Contains the plain seeds and the plain entries of its own members. */
  ghost predicate Closed(table: Table, seeds: seq<string>, features: set<string>) {
    && (forall f :: f in seeds && !Forwarding(f) ==> f in features)
    && forall f, g :: f in features && Name(g) in EntriesOf(table, f) && !Forwarding(g) ==> g in features
  }

  ghost predicate IsLeastClosed(table: Table, seeds: seq<string>, features: set<string>) {
    Closed(table, seeds, features) && forall other :: Closed(table, seeds, other) ==> features <= other
  }

  /** Something reachable is left to Cargo's resolver. */
  ghost predicate HasUnknown(table: Table, seeds: seq<string>, features: set<string>) {
    (exists f :: f in seeds && Forwarding(f)) || exists f :: f in features && UnknownEntry(table, f)
  }

  ghost predicate UnknownEntry(table: Table, feature: string) {
    exists e :: e in EntriesOf(table, feature) && (e.NotAString? || Forwarding(e.name))
  }

  /** Two least closed sets are the same, so nothing depends on the order of the work. */
  lemma LeastIsUnique(table: Table, seeds: seq<string>, a: set<string>, b: set<string>)
    requires IsLeastClosed(table, seeds, a) && IsLeastClosed(table, seeds, b)
    ensures a == b
  {
  }

  /** Everything the worklist can ever insert. */
  ghost function Mentioned(table: Table, seeds: seq<string>): set<string> {
    (set f | f in seeds) + set f, e | f in table && e in EntriesOf(table, f) && e.Name? :: e.name
  }

  // ---- the worklist ----

  datatype Work = Work(pending: seq<string>, features: set<string>, unknown: bool)

  /** What holds between two steps of the worklist. */
  ghost predicate Working(table: Table, seeds: seq<string>, w: Work) {
    && (forall f :: f in w.pending ==> f in Mentioned(table, seeds))
    && w.features <= Mentioned(table, seeds)
    && (forall f :: f in w.features ==> !Forwarding(f))
    && (forall other :: Closed(table, seeds, other) ==> w.features <= other && PlainIn(w.pending, other))
    && (forall f :: f in seeds ==> Settled(w, f))
    && (forall f, g :: f in w.features && Name(g) in EntriesOf(table, f) ==> Settled(w, g))
    && (forall f :: f in w.features && NotAString in EntriesOf(table, f) ==> w.unknown)
    && (w.unknown ==> HasUnknown(table, seeds, w.features))
    && (forall f :: f in w.pending && Forwarding(f) ==> HasUnknown(table, seeds, w.features))
  }

  ghost predicate PlainIn(pending: seq<string>, other: set<string>) {
    forall f :: f in pending && !Forwarding(f) ==> f in other
  }

  /** A name is waiting, or was dealt with. */
  ghost predicate Settled(w: Work, f: string) {
    f in w.pending || (if Forwarding(f) then w.unknown else f in w.features)
  }

  lemma StartWorking(table: Table, seeds: seq<string>)
    ensures Working(table, seeds, Work(seeds, {}, false))
  {
  }

  /** With nothing pending the features are the least closed set, and unknown is exact. */
  lemma DoneIsLeast(table: Table, seeds: seq<string>, w: Work)
    requires Working(table, seeds, w) && w.pending == []
    ensures IsLeastClosed(table, seeds, w.features)
    ensures w.unknown <==> HasUnknown(table, seeds, w.features)
  {
    forall f | f in seeds
      ensures if Forwarding(f) then w.unknown else f in w.features
    {
      assert Settled(w, f);
    }
    forall f, g | f in w.features && Name(g) in EntriesOf(table, f)
      ensures if Forwarding(g) then w.unknown else g in w.features
    {
      assert Settled(w, g);
    }
    forall f | f in w.features && UnknownEntry(table, f)
      ensures w.unknown
    {
      var e :| e in EntriesOf(table, f) && (e.NotAString? || Forwarding(e.name));
      if e.Name? {
        assert e == Name(e.name);
      } else {
        assert e == NotAString;
      }
    }
  }

  function Without(pending: seq<string>, i: nat): seq<string>
    requires i < |pending|
  {
    pending[..i] + pending[i + 1..]
  }

  lemma WithoutMembers(pending: seq<string>, i: nat)
    requires i < |pending|
    ensures forall f :: f in pending <==> f == pending[i] || f in Without(pending, i)
  {
    assert pending == pending[..i] + [pending[i]] + pending[i + 1..];
  }

  /** A forwarding name, or one inserted before, is dropped. */
  lemma DropKeepsWorking(table: Table, seeds: seq<string>, w: Work, i: nat)
    requires Working(table, seeds, w) && i < |w.pending| && (Forwarding(w.pending[i]) || w.pending[i] in w.features)
    ensures Working(table, seeds, w.(pending := Without(w.pending, i), unknown := w.unknown || Forwarding(w.pending[i])))
  {
    WithoutMembers(w.pending, i);
    var w' := w.(pending := Without(w.pending, i), unknown := w.unknown || Forwarding(w.pending[i]));
    forall f | Settled(w, f)
      ensures Settled(w', f)
    {
    }
  }

  /** The names among some entries, and whether all entries are names. */
  ghost function NamesOf(entries: seq<Entry>): seq<string> {
    if entries == [] then []
    else
      var last := entries[|entries| - 1];
      NamesOf(entries[..|entries| - 1]) + if last.Name? then [last.name] else []
  }

  lemma {:induction false} NamesAreEntries(entries: seq<Entry>)
    ensures forall f :: f in NamesOf(entries) <==> Name(f) in entries
    decreases |entries|
  {
    if entries != [] {
      var init, last := entries[..|entries| - 1], entries[|entries| - 1];
      assert entries == init + [last];
      NamesAreEntries(init);
    }
  }

  ghost function Enabled(table: Table, w: Work, i: nat): Work
    requires i < |w.pending|
  {
    var feature := w.pending[i];
    var entries := EntriesOf(table, feature);
    Work(Without(w.pending, i) + NamesOf(entries), w.features + {feature}, w.unknown || NotAString in entries)
  }

  lemma EnableKeepsWorking(table: Table, seeds: seq<string>, w: Work, i: nat)
    requires Working(table, seeds, w) && i < |w.pending| && !Forwarding(w.pending[i]) && w.pending[i] !in w.features
    ensures Working(table, seeds, Enabled(table, w, i))
  {
    var feature, w' := w.pending[i], Enabled(table, w, i);
    WithoutMembers(w.pending, i);
    NamesAreEntries(EntriesOf(table, feature));
    forall f | Settled(w, f)
      ensures Settled(w', f)
    {
    }
    EnabledUnknown(table, seeds, w, i);
    forall other | Closed(table, seeds, other)
      ensures w'.features <= other && PlainIn(w'.pending, other)
    {
      assert PlainIn(w.pending, other);
    }
    forall f | f in w'.pending
      ensures f in Mentioned(table, seeds)
    {
      if Name(f) in EntriesOf(table, feature) { assert Name(f).name == f; }
    }
  }

  /** Unknown entries of an enabled feature are noticed, and stay noticed. */
  lemma EnabledUnknown(table: Table, seeds: seq<string>, w: Work, i: nat)
    requires Working(table, seeds, w) && i < |w.pending|
    ensures var w' := Enabled(table, w, i);
      && (HasUnknown(table, seeds, w.features) ==> HasUnknown(table, seeds, w'.features))
      && (w'.unknown ==> HasUnknown(table, seeds, w'.features))
      && forall f :: f in w'.pending && Forwarding(f) ==> HasUnknown(table, seeds, w'.features)
  {
    var feature, w' := w.pending[i], Enabled(table, w, i);
    WithoutMembers(w.pending, i);
    NamesAreEntries(EntriesOf(table, feature));
    if NotAString in EntriesOf(table, feature) { assert UnknownEntry(table, feature); }
    forall f | f in w'.pending && Forwarding(f)
      ensures HasUnknown(table, seeds, w'.features)
    {
      if f !in w.pending {
        assert Name(f) in EntriesOf(table, feature);
        assert UnknownEntry(table, feature);
      }
    }
  }

  /** Pops pending names in any order, and ends with the least closed set. */
  method Close(table: Table, seeds: seq<string>) returns (features: set<string>, unknown: bool)
    ensures IsLeastClosed(table, seeds, features)
    ensures unknown <==> HasUnknown(table, seeds, features)
  {
    var w := Work(seeds, {}, false);
    StartWorking(table, seeds);
    while w.pending != []
      invariant Working(table, seeds, w)
      decreases Mentioned(table, seeds) - w.features, |w.pending|
    {
      var i: nat :| i < |w.pending|;
      var feature := w.pending[i];
      if Forwarding(feature) {
        DropKeepsWorking(table, seeds, w, i);
        w := w.(pending := Without(w.pending, i), unknown := true);
      } else if feature in w.features {
        DropKeepsWorking(table, seeds, w, i);
        w := w.(pending := Without(w.pending, i));
      } else {
        EnableKeepsWorking(table, seeds, w, i);
        var next := Enable(table, w, i);
        w := next;
      }
    }
    DoneIsLeast(table, seeds, w);
    return w.features, w.unknown;
  }

  method Enable(table: Table, w: Work, i: nat) returns (next: Work)
    requires i < |w.pending|
    ensures next == Enabled(table, w, i)
  {
    var feature := w.pending[i];
    var names, odd := ScanEntries(EntriesOf(table, feature));
    next := Work(Without(w.pending, i) + names, w.features + {feature}, w.unknown || odd);
  }

  method ScanEntries(entries: seq<Entry>) returns (names: seq<string>, odd: bool)
    ensures names == NamesOf(entries) && (odd <==> NotAString in entries)
  {
    names, odd := [], false;
    for k := 0 to |entries|
      invariant names == NamesOf(entries[..k]) && (odd <==> NotAString in entries[..k])
    {
      assert entries[..k + 1] == entries[..k] + [entries[k]];
      assert entries[..k + 1][..k] == entries[..k];
      match entries[k]
      case Name(name) => names := names + [name];
      case NotAString => odd := true;
    }
    assert entries[..|entries|] == entries;
  }

  // ---- settings of every crate ----

  /** One crate of the build: its root file, its manifest's feature table if there is one, and whether
      it is the primary package. */
  datatype Crate = Crate(rootFile: string, table: Option<Table>, primary: bool)

  datatype Context = Context(features: seq<string>, defaultFeatures: bool, cfg: map<string, Option<string>>)

  function SeedsOf(context: Context, crate: Crate): seq<string> {
    (if crate.primary then context.features else [])
    + if (context.defaultFeatures || !crate.primary) && crate.table.Some? && "default" in crate.table.value
      then ["default"] else []
  }

  function TableOf(crate: Crate): Table {
    if crate.table.Some? then crate.table.value else map[]
  }

  /** A feature given as a plain cfg value counts as enabled. */
  function FeatureCfg(context: Context): set<string> {
    if "feature" in context.cfg && context.cfg["feature"].Some? then {context.cfg["feature"].value} else {}
  }

  /** The least closed set of the crate, and the unknown mark it calls for. */
  ghost predicate CrateSettings(context: Context, crate: Crate, features: set<string>, unknown: bool) {
    exists closed ::
      IsLeastClosed(TableOf(crate), SeedsOf(context, crate), closed) && features == closed + FeatureCfg(context)
      && (unknown <==> HasUnknown(TableOf(crate), SeedsOf(context, crate), closed))
  }

  // ---- what the settings of a crate are, in terms of its manifest ----

  /** Holds a slash, or starts with dep:. */
  ghost predicate LeftToResolver(name: string) {
    (exists i :: 0 <= i < |name| && name[i] == '/')
    || (|name| >= 4 && name[0] == 'd' && name[1] == 'e' && name[2] == 'p' && name[3] == ':')
  }

  /** The primary package gets the requested features, and its default one unless that is switched off;
      any other crate gets its default feature. */
  ghost predicate Requested(context: Context, crate: Crate, f: string) {
    || (crate.primary && f in context.features)
    || (f == "default" && (if crate.primary then context.defaultFeatures else true)
        && crate.table.Some? && f in crate.table.value)
  }

  ghost predicate Enables(crate: Crate, f: string, entry: Entry) {
    crate.table.Some? && f in crate.table.value && crate.table.value[f].Entries? && entry in crate.table.value[f].entries
  }

  ghost predicate ClosedFor(context: Context, crate: Crate, features: set<string>) {
    && (forall f :: Requested(context, crate, f) && !LeftToResolver(f) ==> f in features)
    && forall f, g :: f in features && Enables(crate, f, Name(g)) && !LeftToResolver(g) ==> g in features
  }

  /** The least features closed under what was requested and enabled, and a feature given as a plain cfg
      value; unknown exactly when something reached is left to the resolver or is no string. */
  ghost predicate Configures(context: Context, crate: Crate, features: set<string>, unknown: bool) {
    exists closed :: Configured(context, crate, features, unknown, closed)
  }

  ghost predicate Configured(context: Context, crate: Crate, features: set<string>, unknown: bool, closed: set<string>) {
    && ClosedFor(context, crate, closed) && (forall other :: ClosedFor(context, crate, other) ==> closed <= other)
    && (forall f :: f in features <==> f in closed || ("feature" in context.cfg && context.cfg["feature"] == Some(f)))
    && (unknown <==> LeavesUnknown(context, crate, closed))
  }

  ghost predicate LeavesUnknown(context: Context, crate: Crate, closed: set<string>) {
    || (exists f :: Requested(context, crate, f) && LeftToResolver(f))
    || exists f, e :: f in closed && Enables(crate, f, e) && (e.NotAString? || LeftToResolver(e.name))
  }

  lemma ForwardingIsLeft(name: string)
    ensures Forwarding(name) <==> LeftToResolver(name)
  {
    if "dep:" <= name { assert name[..4] == "dep:"; }
    if |name| >= 4 && name[0] == 'd' && name[1] == 'e' && name[2] == 'p' && name[3] == ':' { assert name[..4] == "dep:"; }
  }

  lemma SeedsAreRequested(context: Context, crate: Crate, f: string)
    ensures f in SeedsOf(context, crate) <==> Requested(context, crate, f)
  {
  }

  lemma EntriesAreEnabled(crate: Crate, f: string, entry: Entry)
    ensures entry in EntriesOf(TableOf(crate), f) <==> Enables(crate, f, entry)
  {
  }

  lemma ClosedIsClosedFor(context: Context, crate: Crate, features: set<string>)
    ensures Closed(TableOf(crate), SeedsOf(context, crate), features) <==> ClosedFor(context, crate, features)
  {
    forall f
      ensures f in SeedsOf(context, crate) <==> Requested(context, crate, f)
      ensures Forwarding(f) <==> LeftToResolver(f)
    {
      SeedsAreRequested(context, crate, f);
      ForwardingIsLeft(f);
    }
    forall f, g
      ensures Name(g) in EntriesOf(TableOf(crate), f) <==> Enables(crate, f, Name(g))
    {
      EntriesAreEnabled(crate, f, Name(g));
    }
  }

  lemma UnknownIsLeft(context: Context, crate: Crate, closed: set<string>)
    ensures HasUnknown(TableOf(crate), SeedsOf(context, crate), closed) <==> LeavesUnknown(context, crate, closed)
  {
    forall f
      ensures f in SeedsOf(context, crate) <==> Requested(context, crate, f)
      ensures Forwarding(f) <==> LeftToResolver(f)
    {
      SeedsAreRequested(context, crate, f);
      ForwardingIsLeft(f);
    }
    forall f, e
      ensures e in EntriesOf(TableOf(crate), f) <==> Enables(crate, f, e)
    {
      EntriesAreEnabled(crate, f, e);
    }
    if LeavesUnknown(context, crate, closed) && !exists f :: Requested(context, crate, f) && LeftToResolver(f) {
      var f, e :| f in closed && Enables(crate, f, e) && (e.NotAString? || LeftToResolver(e.name));
      assert UnknownEntry(TableOf(crate), f);
    }
  }

  lemma SettingsConfigure(context: Context, crate: Crate, features: set<string>, unknown: bool)
    ensures CrateSettings(context, crate, features, unknown) <==> Configures(context, crate, features, unknown)
  {
    forall other
      ensures Closed(TableOf(crate), SeedsOf(context, crate), other) <==> ClosedFor(context, crate, other)
      ensures HasUnknown(TableOf(crate), SeedsOf(context, crate), other) <==> LeavesUnknown(context, crate, other)
    {
      ClosedIsClosedFor(context, crate, other);
      UnknownIsLeft(context, crate, other);
    }
    if Configures(context, crate, features, unknown) {
      var closed :| Configured(context, crate, features, unknown, closed);
      assert features == closed + FeatureCfg(context);
    }
    if CrateSettings(context, crate, features, unknown) {
      var closed :|
        IsLeastClosed(TableOf(crate), SeedsOf(context, crate), closed) && features == closed + FeatureCfg(context)
        && (unknown <==> HasUnknown(TableOf(crate), SeedsOf(context, crate), closed));
      assert Configured(context, crate, features, unknown, closed);
    }
  }

  /** The features of some crate cannot be resolved here. */
  ghost predicate SomeUnresolved(context: Context, crates: seq<Crate>) {
    exists i, features :: 0 <= i < |crates| && Configures(context, crates[i], features, true)
  }

  ghost predicate RootConfigured(context: Context, crate: Crate, roots: map<string, Settings>, unknown: bool) {
    crate.rootFile in roots &&
    var s := roots[crate.rootFile];
    s.cfg == context.cfg && (s.unknownFeatures <==> unknown) && exists own :: Configures(context, crate, s.features, own)
  }

  /** The last crate of every root file is configured by its manifest, and all features are unknown when
      those of some crate are, or when the selection was already unresolved. */
  ghost predicate AllConfigured(context: Context, crates: seq<Crate>, unresolved: bool, roots: map<string, Settings>) {
    && (forall root :: root in roots <==> exists c :: c in crates && c.rootFile == root)
    && forall i :: 0 <= i < |crates| && (forall j :: i < j < |crates| ==> crates[j].rootFile != crates[i].rootFile) ==>
         RootConfigured(context, crates[i], roots, unresolved || SomeUnresolved(context, crates))
  }

  lemma RightIsConfigured(context: Context, crates: seq<Crate>, unresolved: bool, roots: map<string, Settings>)
    requires AllRight(context, crates, roots, unresolved || AnyUnknown(context, crates))
    ensures AllConfigured(context, crates, unresolved, roots)
  {
    forall crate, features, unknown
      ensures CrateSettings(context, crate, features, unknown) <==> Configures(context, crate, features, unknown)
    {
      SettingsConfigure(context, crate, features, unknown);
    }
    forall i | 0 <= i < |crates| && (forall j :: i < j < |crates| ==> crates[j].rootFile != crates[i].rootFile)
      ensures RootConfigured(context, crates[i], roots, unresolved || SomeUnresolved(context, crates))
    {
      assert IsLast(crates, i);
      assert RootRight(context, crates[i], roots, unresolved || AnyUnknown(context, crates));
    }
  }

  ghost predicate AnyUnknown(context: Context, crates: seq<Crate>) {
    exists i, features :: 0 <= i < |crates| && CrateSettings(context, crates[i], features, true)
  }

  ghost function RootFiles(crates: seq<Crate>): set<string> {
    set c | c in crates :: c.rootFile
  }

  /** A later crate with the same root file takes its place. */
  ghost predicate IsLast(crates: seq<Crate>, i: nat)
    requires i < |crates|
  {
    forall j :: i < j < |crates| ==> crates[j].rootFile != crates[i].rootFile
  }

  /** The settings of one crate after all crates were read. */
  ghost predicate RootRight(context: Context, crate: Crate, roots: map<string, Settings>, unknown: bool) {
    crate.rootFile in roots &&
    var s := roots[crate.rootFile];
    && s.cfg == context.cfg && (s.unknownFeatures <==> unknown)
    && exists own :: CrateSettings(context, crate, s.features, own)
  }

  ghost predicate AllRight(context: Context, crates: seq<Crate>, roots: map<string, Settings>, unknown: bool) {
    roots.Keys == RootFiles(crates)
    && forall i :: 0 <= i < |crates| && IsLast(crates, i) ==> RootRight(context, crates[i], roots, unknown)
  }

  /** Settings per root file. One crate whose features need the resolver makes all of them unknown.
      unresolved stands for dependency overrides and a virtual workspace selection. */
  method BuildRoots(context: Context, crates: seq<Crate>, unresolved: bool) returns (roots: map<string, Settings>)
    ensures AllRight(context, crates, roots, unresolved || AnyUnknown(context, crates))
    ensures AllConfigured(context, crates, unresolved, roots)
  {
    roots := map[];
    var forwarding := unresolved;
    for i := 0 to |crates|
      invariant AllDescribed(context, crates[..i], roots)
      invariant forwarding <==> unresolved || AnyUnknown(context, crates[..i])
    {
      var settings := CrateRoot(context, crates[i]);
      assert crates[..i + 1] == crates[..i] + [crates[i]];
      CrateAdded(context, crates[..i], crates[i], settings);
      DescribedNext(context, crates[..i], crates[i], roots, settings);
      roots := roots[crates[i].rootFile := settings];
      forwarding := forwarding || settings.unknownFeatures;
    }
    assert crates[..|crates|] == crates;
    DescribedIsRight(context, crates, roots, forwarding);
    if forwarding { roots := MarkUnknown(roots); }
    RightIsConfigured(context, crates, unresolved, roots);
  }

  /** The settings of one crate. */
  method CrateRoot(context: Context, crate: Crate) returns (settings: Settings)
    ensures settings.cfg == context.cfg && CrateSettings(context, crate, settings.features, settings.unknownFeatures)
  {
    var features, unknown := Close(TableOf(crate), SeedsOf(context, crate));
    return Settings(context.cfg, features + FeatureCfg(context), unknown);
  }

  ghost predicate AllDescribed(context: Context, crates: seq<Crate>, roots: map<string, Settings>) {
    roots.Keys == RootFiles(crates)
    && forall i :: 0 <= i < |crates| && IsLast(crates, i) ==> Described(context, crates[i], roots)
  }

  lemma DescribedNext(context: Context, crates: seq<Crate>, crate: Crate, roots: map<string, Settings>, settings: Settings)
    requires AllDescribed(context, crates, roots) && settings.cfg == context.cfg
    requires CrateSettings(context, crate, settings.features, settings.unknownFeatures)
    ensures AllDescribed(context, crates + [crate], roots[crate.rootFile := settings])
  {
    var longer, roots' := crates + [crate], roots[crate.rootFile := settings];
    assert RootFiles(longer) == RootFiles(crates) + {crate.rootFile};
    forall i | 0 <= i < |longer| && IsLast(longer, i)
      ensures Described(context, longer[i], roots')
    {
      if i < |crates| {
        assert longer[|crates|].rootFile != longer[i].rootFile;
        assert forall j :: i < j < |crates| ==> longer[j] == crates[j];
        assert IsLast(crates, i);
        assert Described(context, crates[i], roots);
      }
    }
  }

  function MarkUnknown(roots: map<string, Settings>): map<string, Settings> {
    map k | k in roots :: roots[k].(unknownFeatures := true)
  }

  lemma DescribedIsRight(context: Context, crates: seq<Crate>, roots: map<string, Settings>, forwarding: bool)
    requires AllDescribed(context, crates, roots) && (AnyUnknown(context, crates) ==> forwarding)
    ensures AllRight(context, crates, if forwarding then MarkUnknown(roots) else roots, forwarding)
  {
    forall i | 0 <= i < |crates| && IsLast(crates, i)
      ensures RootRight(context, crates[i], if forwarding then MarkUnknown(roots) else roots, forwarding)
    {
      assert Described(context, crates[i], roots);
      var s := roots[crates[i].rootFile];
      assert s.unknownFeatures ==> CrateSettings(context, crates[i], s.features, true);
    }
  }

  ghost predicate Described(context: Context, crate: Crate, roots: map<string, Settings>) {
    crate.rootFile in roots && roots[crate.rootFile].cfg == context.cfg
    && CrateSettings(context, crate, roots[crate.rootFile].features, roots[crate.rootFile].unknownFeatures)
  }

  lemma CrateAdded(context: Context, crates: seq<Crate>, crate: Crate, settings: Settings)
    requires CrateSettings(context, crate, settings.features, settings.unknownFeatures)
    ensures AnyUnknown(context, crates + [crate]) <==> AnyUnknown(context, crates) || settings.unknownFeatures
  {
    var unknown := settings.unknownFeatures;
    var closed :| IsLeastClosed(TableOf(crate), SeedsOf(context, crate), closed)
      && (unknown <==> HasUnknown(TableOf(crate), SeedsOf(context, crate), closed));
    var longer := crates + [crate];
    if AnyUnknown(context, crates) {
      var i, features :| 0 <= i < |crates| && CrateSettings(context, crates[i], features, true);
      assert longer[i] == crates[i];
    }
    if unknown {
      assert longer[|crates|] == crate && CrateSettings(context, crate, settings.features, true);
    }
    if AnyUnknown(context, longer) {
      var i, features :| 0 <= i < |longer| && CrateSettings(context, longer[i], features, true);
      if i == |crates| {
        var other :| IsLeastClosed(TableOf(crate), SeedsOf(context, crate), other) && features == other + FeatureCfg(context)
          && HasUnknown(TableOf(crate), SeedsOf(context, crate), other);
        LeastIsUnique(TableOf(crate), SeedsOf(context, crate), closed, other);
      } else {
        assert longer[i] == crates[i];
      }
    }
  }
}
