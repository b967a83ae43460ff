/** The checks a batch passes before anything is stored. */
module BatchValidation {
  import opened Wrappers
  import opened Facts
  import opened Sorting
  import SourceDigest

  const MAX_SOURCE: nat := 64 * 1024 * 1024

  datatype Error = UnsupportedVersion | InvalidBatch

  // ---- what a valid batch is, regardless of order ----

  /** The text between two slashes, or between a slash and an end of the path. */
  ghost predicate IsPart(path: string, start: int, end: int) {
    && 0 <= start <= end <= |path| && (start == 0 || path[start - 1] == '/') && (end == |path| || path[end] == '/')
    && forall k :: start <= k < end ==> path[k] != '/'
  }

  /** Neither absolute nor with a leading "." or any ".."; empty parts and inner "." are ignored. */
  ghost predicate RelativePath(path: string) {
    && path != "" && path[0] != '/'
    && (forall end :: IsPart(path, 0, end) ==> path[..end] != ".")
    && forall start, end :: IsPart(path, start, end) ==> path[start..end] != ".."
  }

  /** No part before the place is "..", and the first is not ".". */
  ghost predicate PlainBefore(path: string, place: int) {
    && (forall end :: IsPart(path, 0, end) && end < place ==> path[..end] != ".")
    && forall start, end :: IsPart(path, start, end) && end < place ==> path[start..end] != ".."
  }

  /** From a given start there is at most one part. */
  lemma PartIsUnique(path: string, start: int, end: int, other: int)
    requires IsPart(path, start, end) && IsPart(path, start, other)
    ensures end == other
  {
  }

  /** A part ending here starts after the last slash. */
  lemma PartStarts(path: string, start: int, end: int, other: int)
    requires IsPart(path, start, end) && IsPart(path, other, end)
    ensures start == other
  {
  }

  lemma PlainNext(path: string, start: int, end: int)
    requires PlainBefore(path, end) && IsPart(path, start, end)
    requires path[start..end] != ".." && (start == 0 ==> path[..end] != ".")
    ensures PlainBefore(path, end + 1)
  {
    forall a | IsPart(path, a, end)
      ensures path[a..end] != ".." && (a == 0 ==> path[..end] != ".")
    {
      PartStarts(path, start, end, a);
    }
  }

  lemma BadPart(path: string, start: int, end: int)
    requires IsPart(path, start, end) && (path[start..end] == ".." || (start == 0 && path[..end] == "."))
    ensures !RelativePath(path)
  {
  }

  /** Splits the path at its slashes. */
  method CheckPath(path: string) returns (ok: bool)
    ensures ok <==> RelativePath(path)
  {
    if path == "" || path[0] == '/' { return false; }
    var start := 0;
    for i := 0 to |path|
      invariant 0 <= start <= i && (start == 0 || path[start - 1] == '/') && forall k :: start <= k < i ==> path[k] != '/'
      invariant PlainBefore(path, i)
    {
      if path[i] == '/' {
        assert IsPart(path, start, i);
        if path[start..i] == ".." || (start == 0 && path[..i] == ".") {
          BadPart(path, start, i);
          return false;
        }
        PlainNext(path, start, i);
        start := i + 1;
      }
    }
    assert IsPart(path, start, |path|);
    if path[start..] == ".." || (start == 0 && path == ".") {
      BadPart(path, start, |path|);
      return false;
    }
    PlainNext(path, start, |path|);
    return true;
  }

  ghost predicate FileValid(f: SourceFile) {
    f.id != 0 && RelativePath(f.path) && |f.text| <= MAX_SOURCE && f.hash == ContentOf(f.text)
  }

  ghost predicate SpanIn(text: Text, span: Span) {
    span.start <= span.end <= |text| && SourceDigest.Boundary(text, span.start) && SourceDigest.Boundary(text, span.end)
  }

  ghost predicate SpanValid(files: set<SourceFile>, span: Span) {
    exists f :: f in files && f.id == span.file && SpanIn(f.text, span)
  }

  ghost predicate BodyInside(d: Definition) {
    d.body.Some? ==> d.body.value.file == d.file && d.span.start <= d.body.value.start && d.body.value.end <= d.span.end
  }

  ghost predicate DefinitionValid(files: set<SourceFile>, context: nat, d: Definition) {
    && d.id != 0 && d.context == context && d.file == d.span.file && SpanValid(files, d.span)
    && (d.body.Some? ==> SpanValid(files, d.body.value)) && BodyInside(d)
  }

  /** Following owners from d ends after at most n steps at a definition without one. */
  ghost predicate RootedIn(definitions: set<Definition>, d: Definition, n: nat)
    decreases n
  {
    d.parent.None? ||
    (n > 0 && exists o :: o in definitions && o.id == d.parent.value && RootedIn(definitions, o, n - 1))
  }

  ghost predicate IsRooted(definitions: set<Definition>, d: Definition) {
    exists n: nat :: RootedIn(definitions, d, n)
  }

  /** Every owner exists and ownership has no cycle. */
  ghost predicate Owned(definitions: set<Definition>) {
    forall d :: d in definitions ==> IsRooted(definitions, d)
  }

  ghost predicate Known(definitions: set<Definition>, id: nat) {
    exists d :: d in definitions && d.id == id
  }

  ghost predicate EvidenceValid(e: Evidence) {
    e.id != 0 && e.producer != 0 && e.basis != 0
  }

  ghost predicate RelationValid(files: set<SourceFile>, definitions: set<Definition>, evidence: set<Evidence>, r: Relation) {
    && r.id != 0 && Known(definitions, r.source)
    && (r.target.Resolved? ==> Known(definitions, r.target.id))
    && (exists e :: e in evidence && e.id == r.evidence)
    && SpanValid(files, r.span)
  }

  ghost predicate FlowValid(files: set<SourceFile>, definitions: set<Definition>, f: Flow) {
    Known(definitions, f.definition) && forall i :: 0 <= i < |f.points| ==> SpanValid(files, f.points[i])
  }

  function FileId(f: SourceFile): Key { (f.id, 0) }
  ghost function FilePath(f: SourceFile): string { f.path }
  function DefinitionId(d: Definition): Key { (d.id, 0) }
  function RelationId(r: Relation): Key { (r.id, 0) }
  function EvidenceId(e: Evidence): Key { (e.id, 0) }
  function FlowId(f: Flow): Key { (f.definition, f.phase) }

  ghost function Elements<T>(s: seq<T>): set<T> {
    set x | x in s
  }

  ghost predicate FilesValid(files: seq<SourceFile>) {
    DistinctKeys(files, FileId) && DistinctKeys(files, FilePath) && forall f :: f in files ==> FileValid(f)
  }

  ghost predicate DefinitionsValid(files: set<SourceFile>, context: nat, definitions: seq<Definition>) {
    DistinctKeys(definitions, DefinitionId) && forall d :: d in definitions ==> DefinitionValid(files, context, d)
  }

  ghost predicate EvidencesValid(evidence: seq<Evidence>) {
    DistinctKeys(evidence, EvidenceId) && forall e :: e in evidence ==> EvidenceValid(e)
  }

  ghost predicate RelationsValid(files: set<SourceFile>, definitions: set<Definition>, evidence: set<Evidence>,
                                 relations: seq<Relation>) {
    DistinctKeys(relations, RelationId) && forall r :: r in relations ==> RelationValid(files, definitions, evidence, r)
  }

  ghost predicate FlowsValid(files: set<SourceFile>, definitions: set<Definition>, flows: seq<Flow>) {
    DistinctKeys(flows, FlowId) && forall f :: f in flows ==> FlowValid(files, definitions, f)
  }

  ghost predicate HeaderValid(b: Batch) {
    b.producer != 0 && b.context != 0 && b.source != 0 && b.repository != 0
  }

  ghost predicate BatchValid(b: Batch) {
    var files, definitions, evidence := Elements(b.files), Elements(b.definitions), Elements(b.evidence);
    && b.version == SCHEMA_VERSION && HeaderValid(b)
    && FilesValid(b.files) && DefinitionsValid(files, b.context, b.definitions) && Owned(definitions)
    && EvidencesValid(b.evidence) && RelationsValid(files, definitions, evidence, b.relations)
    && FlowsValid(files, definitions, b.flows)
  }

  /** Distinct keys are distinct identities; a flow is identified by its definition and phase. */
  lemma KeysAreIdentities(b: Batch)
    ensures DistinctKeys(b.files, FileId) <==> forall i, j :: 0 <= i < j < |b.files| ==> b.files[i].id != b.files[j].id
    ensures DistinctKeys(b.files, FilePath) <==> forall i, j :: 0 <= i < j < |b.files| ==> b.files[i].path != b.files[j].path
    ensures DistinctKeys(b.definitions, DefinitionId)
      <==> forall i, j :: 0 <= i < j < |b.definitions| ==> b.definitions[i].id != b.definitions[j].id
    ensures DistinctKeys(b.relations, RelationId)
      <==> forall i, j :: 0 <= i < j < |b.relations| ==> b.relations[i].id != b.relations[j].id
    ensures DistinctKeys(b.evidence, EvidenceId)
      <==> forall i, j :: 0 <= i < j < |b.evidence| ==> b.evidence[i].id != b.evidence[j].id
    ensures DistinctKeys(b.flows, FlowId)
      <==> forall i, j :: 0 <= i < j < |b.flows| ==> b.flows[i].definition != b.flows[j].definition || b.flows[i].phase != b.flows[j].phase
  {
  }

  // ---- the checks ----

  /** An index of files by identity. */
  ghost predicate FileIndex(m: map<nat, SourceFile>, files: set<SourceFile>) {
    (forall id :: id in m ==> m[id] in files && m[id].id == id) && forall f :: f in files ==> f.id in m && m[f.id] == f
  }

  ghost predicate DefinitionIndex(m: map<nat, Definition>, definitions: set<Definition>) {
    && (forall id :: id in m ==> m[id] in definitions && m[id].id == id)
    && forall d :: d in definitions ==> d.id in m && m[d.id] == d
  }

  lemma PrefixStep<T>(s: seq<T>, i: nat)
    requires i < |s|
    ensures s[..i + 1] == s[..i] + [s[i]]
  {
  }

  lemma AppendDistinct<T, K>(s: seq<T>, x: T, key: T -> K)
    requires DistinctKeys(s, key) && forall y :: y in s ==> key(y) != key(x)
    ensures DistinctKeys(s + [x], key)
  {
  }

  lemma AppendElements<T>(s: seq<T>, x: T)
    ensures Elements(s + [x]) == Elements(s) + {x}
  {
  }

  lemma PrefixDistinct<T, K>(s: seq<T>, i: nat, j: nat, key: T -> K)
    requires i < j < |s| && key(s[i]) == key(s[j])
    ensures !DistinctKeys(s, key)
  {
  }

  ghost predicate PathIndex(paths: set<string>, files: seq<SourceFile>) {
    forall p :: p in paths <==> HasPath(files, p)
  }

  ghost predicate HasPath(files: seq<SourceFile>, p: string) {
    exists k :: 0 <= k < |files| && files[k].path == p
  }

  /** The files checked so far, with both indexes. */
  ghost predicate FilesSoFar(files: seq<SourceFile>, m: map<nat, SourceFile>, paths: set<string>) {
    FilesValid(files) && FileIndex(m, Elements(files)) && PathIndex(paths, files)
  }

  lemma FileAdded(files: seq<SourceFile>, m: map<nat, SourceFile>, paths: set<string>, f: SourceFile)
    requires FilesSoFar(files, m, paths) && f.id !in m && FileValid(f) && f.path !in paths
    ensures FilesSoFar(files + [f], m[f.id := f], paths + {f.path})
  {
    forall y | y in files
      ensures FileId(y) != FileId(f) && FilePath(y) != FilePath(f)
    {
      assert y in Elements(files);
      assert HasPath(files, y.path);
    }
    AppendDistinct(files, f, FileId);
    AppendDistinct(files, f, FilePath);
    AppendElements(files, f);
    PathAdded(files, paths, f);
    IndexAdded(m, Elements(files), f);
    ValidAdded(files, f);
  }

  lemma IndexAdded(m: map<nat, SourceFile>, files: set<SourceFile>, f: SourceFile)
    requires FileIndex(m, files) && f.id !in m
    ensures FileIndex(m[f.id := f], files + {f})
  {
  }

  lemma ValidAdded(files: seq<SourceFile>, f: SourceFile)
    requires FilesValid(files) && FileValid(f)
    requires DistinctKeys(files + [f], FileId) && DistinctKeys(files + [f], FilePath)
    ensures FilesValid(files + [f])
  {
  }

  lemma PathAdded(files: seq<SourceFile>, paths: set<string>, f: SourceFile)
    requires PathIndex(paths, files)
    ensures PathIndex(paths + {f.path}, files + [f])
  {
    forall p
      ensures p in paths + {f.path} <==> HasPath(files + [f], p)
    {
      if HasPath(files, p) {
        var k :| 0 <= k < |files| && files[k].path == p;
        assert (files + [f])[k].path == p;
      }
      assert (files + [f])[|files|] == f;
    }
  }

  method CheckFiles(files: seq<SourceFile>) returns (index: Option<map<nat, SourceFile>>)
    ensures index.Some? <==> FilesValid(files)
    ensures index.Some? ==> FileIndex(index.value, Elements(files))
  {
    var m: map<nat, SourceFile>, paths: set<string> := map[], {};
    for i := 0 to |files|
      invariant FilesSoFar(files[..i], m, paths)
    {
      var f := files[i];
      var relative := CheckPath(f.path);
      if f.id == 0 || f.id in m || !relative || f.path in paths || |f.text| > MAX_SOURCE || f.hash != ContentOf(f.text) {
        FilesFail(files, i, m, paths);
        return None;
      }
      PrefixStep(files, i);
      FileAdded(files[..i], m, paths, f);
      m, paths := m[f.id := f], paths + {f.path};
    }
    assert files[..|files|] == files;
    return Some(m);
  }

  lemma FilesFail(files: seq<SourceFile>, i: nat, m: map<nat, SourceFile>, paths: set<string>)
    requires i < |files| && FilesSoFar(files[..i], m, paths)
    requires files[i].id in m || !FileValid(files[i]) || files[i].path in paths
    ensures !FilesValid(files)
  {
    if files[i].id in m {
      var k :| 0 <= k < i && files[..i][k] == m[files[i].id];
      PrefixDistinct(files, k, i, FileId);
    } else if files[i].path in paths {
      var k :| 0 <= k < i && files[..i][k].path == files[i].path;
      PrefixDistinct(files, k, i, FilePath);
    }
  }

  method CheckSpan(m: map<nat, SourceFile>, span: Span, ghost files: set<SourceFile>) returns (ok: bool)
    requires FileIndex(m, files)
    ensures ok <==> SpanValid(files, span)
  {
    if span.file !in m { return false; }
    var text := m[span.file].text;
    if span.start > span.end || span.end > |text| { return false; }
    return SourceDigest.Boundary(text, span.start) && SourceDigest.Boundary(text, span.end);
  }

  method CheckDefinition(m: map<nat, SourceFile>, context: nat, d: Definition, ghost files: set<SourceFile>) returns (ok: bool)
    requires FileIndex(m, files)
    ensures ok <==> DefinitionValid(files, context, d)
  {
    if d.id == 0 || d.context != context || d.file != d.span.file { return false; }
    ok := CheckSpan(m, d.span, files);
    if ok && d.body.Some? {
      ok := CheckSpan(m, d.body.value, files);
      var body := d.body.value;
      ok := ok && body.file == d.file && body.start >= d.span.start && body.end <= d.span.end;
    }
  }

  ghost predicate DefinitionsSoFar(files: set<SourceFile>, context: nat, ds: seq<Definition>, index: map<nat, Definition>) {
    DefinitionsValid(files, context, ds) && DefinitionIndex(index, Elements(ds))
  }

  lemma DefinitionAdded(files: set<SourceFile>, context: nat, ds: seq<Definition>, index: map<nat, Definition>, d: Definition)
    requires DefinitionsSoFar(files, context, ds, index) && d.id !in index && DefinitionValid(files, context, d)
    ensures DefinitionsSoFar(files, context, ds + [d], index[d.id := d])
  {
    forall y | y in ds
      ensures DefinitionId(y) != DefinitionId(d)
    {
      assert y in Elements(ds);
    }
    AppendDistinct(ds, d, DefinitionId);
    AppendElements(ds, d);
  }

  method CheckDefinitions(m: map<nat, SourceFile>, context: nat, ds: seq<Definition>, ghost files: set<SourceFile>)
    returns (index: Option<map<nat, Definition>>)
    requires FileIndex(m, files)
    ensures index.Some? <==> DefinitionsValid(files, context, ds)
    ensures index.Some? ==> DefinitionIndex(index.value, Elements(ds))
  {
    var found: map<nat, Definition> := map[];
    for i := 0 to |ds|
      invariant DefinitionsSoFar(files, context, ds[..i], found)
    {
      var d := ds[i];
      if d.id in found {
        ghost var k :| 0 <= k < i && ds[..i][k] == found[d.id];
        PrefixDistinct(ds, k, i, DefinitionId);
        return None;
      }
      var ok := CheckDefinition(m, context, d, files);
      if !ok { return None; }
      PrefixStep(ds, i);
      DefinitionAdded(files, context, ds[..i], found, d);
      found := found[d.id := d];
    }
    assert ds[..|ds|] == ds;
    return Some(found);
  }

  // ---- ownership ----

  /** Steps from d to a definition without an owner. */
  ghost predicate Climbs(index: map<nat, Definition>, d: Definition, n: nat)
    decreases n
  {
    if d.parent.None? then n == 0
    else n > 0 && d.parent.value in index && Climbs(index, index[d.parent.value], n - 1)
  }

  lemma {:induction false} ClimbsOnce(index: map<nat, Definition>, d: Definition, a: nat, b: nat)
    requires Climbs(index, d, a) && Climbs(index, d, b)
    ensures a == b
    decreases a
  {
    if d.parent.Some? {
      ClimbsOnce(index, index[d.parent.value], a - 1, b - 1);
    }
  }

  lemma {:induction false} RootedClimbs(index: map<nat, Definition>, ds: set<Definition>, d: Definition, n: nat) returns (k: nat)
    requires DefinitionIndex(index, ds) && RootedIn(ds, d, n)
    ensures Climbs(index, d, k)
    decreases n
  {
    if d.parent.None? {
      k := 0;
    } else {
      var o :| o in ds && o.id == d.parent.value && RootedIn(ds, o, n - 1);
      var rest := RootedClimbs(index, ds, o, n - 1);
      k := rest + 1;
    }
  }

  lemma {:induction false} ClimbsRooted(index: map<nat, Definition>, ds: set<Definition>, d: Definition, k: nat)
    requires DefinitionIndex(index, ds) && Climbs(index, d, k)
    ensures RootedIn(ds, d, k)
    decreases k
  {
    if d.parent.Some? {
      ClimbsRooted(index, ds, index[d.parent.value], k - 1);
    }
  }

  /** The owners passed on the way up from d to cur; each climbs no further than d does. */
  ghost predicate OnTheWay(index: map<nat, Definition>, d: Definition, cur: Definition, ancestors: set<nat>, height: nat, left: nat) {
    && Climbs(index, d, height) && Climbs(index, cur, left) && left <= height
    && (cur == d || left < height)
    && forall id :: id in ancestors ==> id in index && exists k: nat :: left <= k && Climbs(index, index[id], k)
  }

  /** On a way that ends, no owner is met twice. */
  lemma NoReturn(index: map<nat, Definition>, d: Definition, cur: Definition, ancestors: set<nat>, height: nat, left: nat)
    requires OnTheWay(index, d, cur, ancestors, height, left) && d.id in index && index[d.id] == d && cur.parent.Some?
    ensures cur.parent.value != d.id && cur.parent.value !in ancestors && cur.parent.value in index
    ensures OnTheWay(index, d, index[cur.parent.value], ancestors + {cur.parent.value}, height, left - 1)
  {
    var id := cur.parent.value;
    var owner := index[id];
    if id == d.id { ClimbsOnce(index, d, height, left - 1); }
    if id in ancestors {
      var k: nat :| left <= k && Climbs(index, index[id], k);
      ClimbsOnce(index, owner, k, left - 1);
    }
  }

  /** Walks up the owners of one definition. */
  method ClimbOwners(index: map<nat, Definition>, d: Definition, ghost ds: set<Definition>) returns (ok: bool)
    requires DefinitionIndex(index, ds) && d in ds
    ensures ok <==> IsRooted(ds, d)
  {
    ghost var rooted := IsRooted(ds, d);
    ghost var height, left: nat := 0, 0;
    if rooted {
      var n: nat :| RootedIn(ds, d, n);
      height := RootedClimbs(index, ds, d, n);
      left := height;
    }
    var cur, ancestors: set<nat> := d, {};
    ghost var steps: nat := 0;
    while cur.parent.Some?
      invariant ancestors <= index.Keys && cur in ds
      invariant rooted ==> OnTheWay(index, d, cur, ancestors, height, left)
      invariant forall k: nat :: Climbs(index, cur, k) ==> Climbs(index, d, k + steps)
      decreases index.Keys - ancestors
    {
      var id := cur.parent.value;
      if rooted { NoReturn(index, d, cur, ancestors, height, left); }
      if id == d.id || id in ancestors || id !in index { return false; }
      ghost var below := cur;
      ancestors, cur := ancestors + {id}, index[id];
      forall k: nat | Climbs(index, cur, k)
        ensures Climbs(index, d, k + (steps + 1))
      {
        assert Climbs(index, below, k + 1);
      }
      steps := steps + 1;
      if rooted { left := left - 1; }
    }
    assert Climbs(index, cur, 0);
    assert Climbs(index, d, 0 + steps);
    ClimbsRooted(index, ds, d, steps);
    return true;
  }

  method CheckOwners(index: map<nat, Definition>, ds: seq<Definition>) returns (ok: bool)
    requires DefinitionIndex(index, Elements(ds))
    ensures ok <==> Owned(Elements(ds))
  {
    for i := 0 to |ds|
      invariant forall k :: 0 <= k < i ==> IsRooted(Elements(ds), ds[k])
    {
      assert ds[i] in Elements(ds);
      ok := ClimbOwners(index, ds[i], Elements(ds));
      if !ok { return false; }
    }
    return true;
  }

  // ---- evidence, relations and flows ----

  /** The keys of the items checked so far. */
  ghost predicate KeysSoFar<T>(s: seq<T>, key: T -> Key, seen: set<Key>) {
    DistinctKeys(s, key) && forall k :: k in seen <==> HasKey(s, key, k)
  }

  ghost predicate HasKey<T>(s: seq<T>, key: T -> Key, k: Key) {
    exists i :: 0 <= i < |s| && key(s[i]) == k
  }

  lemma KeyAdded<T>(s: seq<T>, key: T -> Key, seen: set<Key>, x: T)
    requires KeysSoFar(s, key, seen) && key(x) !in seen
    ensures KeysSoFar(s + [x], key, seen + {key(x)})
  {
    forall y | y in s
      ensures key(y) != key(x)
    {
      assert HasKey(s, key, key(y));
    }
    AppendDistinct(s, x, key);
    forall k
      ensures k in seen + {key(x)} <==> HasKey(s + [x], key, k)
    {
      if HasKey(s, key, k) {
        var i :| 0 <= i < |s| && key(s[i]) == k;
        assert (s + [x])[i] == s[i];
      }
      assert (s + [x])[|s|] == x;
    }
  }

  lemma KeyRepeated<T>(s: seq<T>, i: nat, key: T -> Key, seen: set<Key>)
    requires i < |s| && KeysSoFar(s[..i], key, seen) && key(s[i]) in seen
    ensures !DistinctKeys(s, key)
  {
    var k :| 0 <= k < i && key(s[..i][k]) == key(s[i]);
    PrefixDistinct(s, k, i, key);
  }

  method CheckEvidence(evidence: seq<Evidence>) returns (ids: Option<set<Key>>)
    ensures ids.Some? <==> EvidencesValid(evidence)
    ensures ids.Some? ==> forall k :: k in ids.value <==> HasKey(evidence, EvidenceId, k)
  {
    var seen: set<Key> := {};
    for i := 0 to |evidence|
      invariant KeysSoFar(evidence[..i], EvidenceId, seen)
      invariant forall k :: 0 <= k < i ==> EvidenceValid(evidence[k])
    {
      var e := evidence[i];
      assert e in evidence;
      if e.id == 0 || e.producer == 0 || e.basis == 0 { return None; }
      if EvidenceId(e) in seen {
        KeyRepeated(evidence, i, EvidenceId, seen);
        return None;
      }
      PrefixStep(evidence, i);
      KeyAdded(evidence[..i], EvidenceId, seen, e);
      seen := seen + {EvidenceId(e)};
    }
    assert evidence[..|evidence|] == evidence;
    return Some(seen);
  }

  /** The indexes that references are resolved against. */
  ghost predicate Indexed(b: Batch, m: map<nat, SourceFile>, index: map<nat, Definition>, ids: set<Key>) {
    && FileIndex(m, Elements(b.files)) && DefinitionIndex(index, Elements(b.definitions))
    && forall k :: k in ids <==> HasKey(b.evidence, EvidenceId, k)
  }

  method CheckRelation(b: Batch, m: map<nat, SourceFile>, index: map<nat, Definition>, ids: set<Key>, r: Relation)
    returns (ok: bool)
    requires Indexed(b, m, index, ids)
    ensures ok <==> RelationValid(Elements(b.files), Elements(b.definitions), Elements(b.evidence), r)
  {
    if r.id == 0 || r.source !in index { return false; }
    if r.target.Resolved? && r.target.id !in index { return false; }
    EvidenceKnown(b.evidence, r.evidence);
    if (r.evidence, 0) !in ids { return false; }
    ok := CheckSpan(m, r.span, Elements(b.files));
  }

  lemma EvidenceKnown(evidence: seq<Evidence>, id: nat)
    ensures HasKey(evidence, EvidenceId, (id, 0)) <==> exists e :: e in Elements(evidence) && e.id == id
  {
    if HasKey(evidence, EvidenceId, (id, 0)) {
      var i :| 0 <= i < |evidence| && EvidenceId(evidence[i]) == (id, 0);
      assert evidence[i] in Elements(evidence);
    }
    if e :| e in Elements(evidence) && e.id == id {
      var i :| 0 <= i < |evidence| && evidence[i] == e;
      assert EvidenceId(evidence[i]) == (id, 0);
    }
  }

  method CheckRelations(b: Batch, m: map<nat, SourceFile>, index: map<nat, Definition>, ids: set<Key>) returns (ok: bool)
    requires Indexed(b, m, index, ids)
    ensures ok <==> RelationsValid(Elements(b.files), Elements(b.definitions), Elements(b.evidence), b.relations)
  {
    var seen: set<Key> := {};
    for i := 0 to |b.relations|
      invariant KeysSoFar(b.relations[..i], RelationId, seen)
      invariant forall k :: 0 <= k < i ==>
        RelationValid(Elements(b.files), Elements(b.definitions), Elements(b.evidence), b.relations[k])
    {
      var r := b.relations[i];
      if RelationId(r) in seen {
        KeyRepeated(b.relations, i, RelationId, seen);
        return false;
      }
      ok := CheckRelation(b, m, index, ids, r);
      if !ok { return false; }
      PrefixStep(b.relations, i);
      KeyAdded(b.relations[..i], RelationId, seen, r);
      seen := seen + {RelationId(r)};
    }
    assert b.relations[..|b.relations|] == b.relations;
    return true;
  }

  method CheckFlow(b: Batch, m: map<nat, SourceFile>, index: map<nat, Definition>, f: Flow) returns (ok: bool)
    requires FileIndex(m, Elements(b.files)) && DefinitionIndex(index, Elements(b.definitions))
    ensures ok <==> FlowValid(Elements(b.files), Elements(b.definitions), f)
  {
    if f.definition !in index { return false; }
    for i := 0 to |f.points|
      invariant forall k :: 0 <= k < i ==> SpanValid(Elements(b.files), f.points[k])
    {
      ok := CheckSpan(m, f.points[i], Elements(b.files));
      if !ok { return false; }
    }
    return true;
  }

  method CheckFlows(b: Batch, m: map<nat, SourceFile>, index: map<nat, Definition>) returns (ok: bool)
    requires FileIndex(m, Elements(b.files)) && DefinitionIndex(index, Elements(b.definitions))
    ensures ok <==> FlowsValid(Elements(b.files), Elements(b.definitions), b.flows)
  {
    var seen: set<Key> := {};
    for i := 0 to |b.flows|
      invariant KeysSoFar(b.flows[..i], FlowId, seen)
      invariant forall k :: 0 <= k < i ==> FlowValid(Elements(b.files), Elements(b.definitions), b.flows[k])
    {
      var f := b.flows[i];
      if FlowId(f) in seen {
        KeyRepeated(b.flows, i, FlowId, seen);
        return false;
      }
      ok := CheckFlow(b, m, index, f);
      if !ok { return false; }
      PrefixStep(b.flows, i);
      KeyAdded(b.flows[..i], FlowId, seen, f);
      seen := seen + {FlowId(f)};
    }
    assert b.flows[..|b.flows|] == b.flows;
    return true;
  }

  /** Accepts exactly the batches of this version whose identities are distinct, whose references all
      resolve, whose spans fit their files and whose ownership is a forest. */
  method Validate(b: Batch) returns (error: Option<Error>)
    ensures error == Some(UnsupportedVersion) <==> b.version != SCHEMA_VERSION
    ensures error == None <==> BatchValid(b)
  {
    if b.version != SCHEMA_VERSION { return Some(UnsupportedVersion); }
    if b.producer == 0 || b.context == 0 || b.source == 0 || b.repository == 0 { return Some(InvalidBatch); }
    var files := CheckFiles(b.files);
    if files.None? { return Some(InvalidBatch); }
    var definitions := CheckDefinitions(files.value, b.context, b.definitions, Elements(b.files));
    if definitions.None? { return Some(InvalidBatch); }
    var owned := CheckOwners(definitions.value, b.definitions);
    if !owned { return Some(InvalidBatch); }
    var evidence := CheckEvidence(b.evidence);
    if evidence.None? { return Some(InvalidBatch); }
    var relations := CheckRelations(b, files.value, definitions.value, evidence.value);
    if !relations { return Some(InvalidBatch); }
    var flows := CheckFlows(b, files.value, definitions.value);
    return if flows then None else Some(InvalidBatch);
  }

  // ---- order does not matter ----

  /** The same batch up to the order of its lists. */
  ghost predicate Reordered(a: Batch, b: Batch) {
    && multiset(a.files) == multiset(b.files) && multiset(a.warnings) == multiset(b.warnings)
    && multiset(a.definitions) == multiset(b.definitions) && multiset(a.relations) == multiset(b.relations)
    && multiset(a.evidence) == multiset(b.evidence) && multiset(a.flows) == multiset(b.flows)
    && b == a.(files := b.files, warnings := b.warnings, definitions := b.definitions, relations := b.relations,
               evidence := b.evidence, flows := b.flows)
  }

  lemma SameElements<T>(a: seq<T>, b: seq<T>)
    requires multiset(a) == multiset(b)
    ensures Elements(a) == Elements(b)
  {
    MembersOfMultiset(a, b);
  }

  lemma ReorderedValid(a: Batch, b: Batch)
    requires BatchValid(a) && Reordered(a, b)
    ensures BatchValid(b)
  {
    SameElements(a.files, b.files);
    SameElements(a.definitions, b.definitions);
    SameElements(a.evidence, b.evidence);
    MembersOfMultiset(a.relations, b.relations);
    MembersOfMultiset(a.flows, b.flows);
    ReorderedDistinct(a, b);
    assert forall f :: f in b.files <==> f in Elements(b.files);
    assert forall d :: d in b.definitions <==> d in Elements(b.definitions);
    assert forall e :: e in b.evidence <==> e in Elements(b.evidence);
  }

  lemma ReorderedDistinct(a: Batch, b: Batch)
    requires Reordered(a, b)
    ensures DistinctKeys(a.files, FileId) <==> DistinctKeys(b.files, FileId)
    ensures DistinctKeys(a.files, FilePath) <==> DistinctKeys(b.files, FilePath)
    ensures DistinctKeys(a.definitions, DefinitionId) <==> DistinctKeys(b.definitions, DefinitionId)
    ensures DistinctKeys(a.relations, RelationId) <==> DistinctKeys(b.relations, RelationId)
    ensures DistinctKeys(a.evidence, EvidenceId) <==> DistinctKeys(b.evidence, EvidenceId)
    ensures DistinctKeys(a.flows, FlowId) <==> DistinctKeys(b.flows, FlowId)
  {
    DistinctRearranged(a.files, b.files, FileId);
    DistinctRearranged(a.files, b.files, FilePath);
    DistinctRearranged(a.definitions, b.definitions, DefinitionId);
    DistinctRearranged(a.relations, b.relations, RelationId);
    DistinctRearranged(a.evidence, b.evidence, EvidenceId);
    DistinctRearranged(a.flows, b.flows, FlowId);
  }
}
