/** The canonical form of a batch, and its round trip through a stored shard. */
module BatchExport {
  import opened Wrappers
  import opened Facts
  import opened Sorting
  import opened BatchValidation

  const MAX_EXPORT_ROWS: nat := 1_000_000
  const MAX_EXPORT_FILES: nat := 100_000

  // ---- the canonical form ----

  function WarningKey(w: nat): Key { (w, 0) }

  function Normalize(b: Batch): Batch {
    b.(files := SortBy(b.files, FileId), warnings := SortBy(b.warnings, WarningKey),
       definitions := SortBy(b.definitions, DefinitionId), relations := SortBy(b.relations, RelationId),
       evidence := SortBy(b.evidence, EvidenceId), flows := SortBy(b.flows, FlowId))
  }

  lemma NormalizeReorders(b: Batch)
    ensures Reordered(b, Normalize(b)) && Reordered(Normalize(b), b)
  {
    SortKeeps(b.files, FileId);
    SortKeeps(b.warnings, WarningKey);
    SortKeeps(b.definitions, DefinitionId);
    SortKeeps(b.relations, RelationId);
    SortKeeps(b.evidence, EvidenceId);
    SortKeeps(b.flows, FlowId);
  }

  /** The canonical order is by identity; flows by definition, then phase. */
  lemma NormalizeSorts(b: Batch)
    ensures var n := Normalize(b);
      && (forall i, j :: 0 <= i <= j < |n.files| ==> n.files[i].id <= n.files[j].id)
      && (forall i, j :: 0 <= i <= j < |n.warnings| ==> n.warnings[i] <= n.warnings[j])
      && (forall i, j :: 0 <= i <= j < |n.definitions| ==> n.definitions[i].id <= n.definitions[j].id)
      && (forall i, j :: 0 <= i <= j < |n.relations| ==> n.relations[i].id <= n.relations[j].id)
      && (forall i, j :: 0 <= i <= j < |n.evidence| ==> n.evidence[i].id <= n.evidence[j].id)
      && (forall i, j :: 0 <= i <= j < |n.flows| ==>
            n.flows[i].definition < n.flows[j].definition
            || (n.flows[i].definition == n.flows[j].definition && n.flows[i].phase <= n.flows[j].phase))
  {
    SortKeeps(b.files, FileId);
    SortKeeps(b.warnings, WarningKey);
    SortKeeps(b.definitions, DefinitionId);
    SortKeeps(b.relations, RelationId);
    SortKeeps(b.evidence, EvidenceId);
    SortKeeps(b.flows, FlowId);
  }

  lemma NormalizeKeepsValid(b: Batch)
    ensures BatchValid(Normalize(b)) <==> BatchValid(b)
  {
    NormalizeReorders(b);
    if BatchValid(b) { ReorderedValid(b, Normalize(b)); }
    if BatchValid(Normalize(b)) { ReorderedValid(Normalize(b), b); }
  }

  lemma ValidKeysDetermine(b: Batch)
    requires BatchValid(b)
    ensures KeyDetermines(multiset(b.files), FileId) && KeyDetermines(multiset(b.definitions), DefinitionId)
    ensures KeyDetermines(multiset(b.relations), RelationId) && KeyDetermines(multiset(b.evidence), EvidenceId)
    ensures KeyDetermines(multiset(b.flows), FlowId)
  {
    DistinctIsOnce(b.files, FileId);
    DistinctIsOnce(b.definitions, DefinitionId);
    DistinctIsOnce(b.relations, RelationId);
    DistinctIsOnce(b.evidence, EvidenceId);
    DistinctIsOnce(b.flows, FlowId);
  }

  /** Two valid batches have the same canonical form exactly when they differ only in order. */
  lemma NormalizeIsCanonical(a: Batch, b: Batch)
    requires BatchValid(a) && BatchValid(b)
    ensures Normalize(a) == Normalize(b) <==> Reordered(a, b)
  {
    ValidKeysDetermine(a);
    SortIsCanonical(a.files, b.files, FileId);
    SortIsCanonical(a.warnings, b.warnings, WarningKey);
    SortIsCanonical(a.definitions, b.definitions, DefinitionId);
    SortIsCanonical(a.relations, b.relations, RelationId);
    SortIsCanonical(a.evidence, b.evidence, EvidenceId);
    SortIsCanonical(a.flows, b.flows, FlowId);
  }

  // ---- the stored form ----

  datatype FileRow = FileRow(id: nat, path: string, hash: ContentHash)

  /** The row counts of the snapshot's catalog entry. */
  datatype Counts = Counts(files: nat, definitions: nat, relations: nat)

  /** Tables of a shard. The fact digest is injective, so it is the normalized batch itself. */
  datatype Shard = Shard(envelope: Option<Batch>, files: seq<FileRow>, definitions: seq<Definition>,
                         evidence: seq<Evidence>, relations: seq<Relation>, flows: seq<Flow>,
                         counts: Counts, factDigest: Batch)

  /** Lengths of the stored encodings. */
  datatype Sizes = Sizes(envelope: Batch -> nat, definition: Definition -> nat, relation: Relation -> nat,
                         evidence: Evidence -> nat, flow: Flow -> nat)

  /** Stored texts by content hash. */
  type Sources = map<ContentHash, Text>

  ghost function Stripped(b: Batch): Batch {
    b.(files := [], definitions := [], relations := [], evidence := [], flows := [])
  }

  ghost function RowOf(f: SourceFile): FileRow {
    FileRow(f.id, f.path, f.hash)
  }

  ghost function RowsOf(files: seq<SourceFile>): (rows: seq<FileRow>)
    ensures |rows| == |files| && forall i :: 0 <= i < |rows| ==> rows[i] == RowOf(files[i])
  {
    seq(|files|, i requires 0 <= i < |files| => RowOf(files[i]))
  }

  ghost function BuildShard(b: Batch): Shard {
    Shard(Some(Stripped(b)), RowsOf(b.files), b.definitions, b.evidence, b.relations, b.flows,
          Counts(|b.files|, |b.definitions|, |b.relations|), b)
  }

  // ---- export ----

  datatype ExportError = BudgetExhausted | Unavailable | Rejected(error: Error)

  function SumBy<T>(s: seq<T>, size: T -> nat): nat {
    if s == [] then 0 else SumBy(s[..|s| - 1], size) + size(s[|s| - 1])
  }

  /** An unordered scan of a table. */
  method Scan<T>(table: seq<T>) returns (rows: seq<T>)
    ensures multiset(rows) == multiset(table)
  {
    rows := [];
    var rest := table;
    while rest != []
      invariant multiset(rows) + multiset(rest) == multiset(table)
      decreases |rest|
    {
      var i: nat :| i < |rest|;
      assert rest == rest[..i] + [rest[i]] + rest[i + 1..];
      rows := rows + [rest[i]];
      rest := rest[..i] + rest[i + 1..];
    }
  }

  /** Reads a whole table if it fits what remains of the budget. */
  method ExportRows<T>(table: seq<T>, size: T -> nat, remaining: nat) returns (rows: Option<seq<T>>, left: nat)
    ensures rows.Some? <==> |table| <= 1_000_000 && SumBy(table, size) <= remaining
    ensures rows.Some? ==> multiset(rows.value) == multiset(table) && left == remaining - SumBy(table, size)
  {
    var bytes := SumBy(table, size);
    if |table| > MAX_EXPORT_ROWS || bytes > remaining { return None, remaining; }
    var scanned := Scan(table);
    return Some(scanned), remaining - bytes;
  }

  ghost function TextSize(f: SourceFile): nat {
    |f.text|
  }

  /** The file of a row, with the stored text that its hash names. */
  ghost predicate Stored(row: FileRow, sources: Sources, f: SourceFile) {
    && row == RowOf(f) && f.hash in sources && f.text == sources[f.hash]
    && f.hash == ContentOf(f.text) && |f.text| <= 64 * 1024 * 1024
  }

  ghost predicate AllStored(rows: seq<FileRow>, sources: Sources, files: seq<SourceFile>) {
    |files| == |rows| && forall i :: 0 <= i < |rows| ==> Stored(rows[i], sources, files[i])
  }

  /** A text is stored under the hash, and it is the right one. */
  ghost predicate Intact(row: FileRow, sources: Sources) {
    row.hash in sources && row.hash == ContentOf(sources[row.hash])
  }

  ghost predicate TooLong(row: FileRow, sources: Sources) {
    row.hash in sources && |sources[row.hash]| > 64 * 1024 * 1024
  }

  /** The first files exceed the remaining budget, or the next one exceeds the limit of a source. */
  ghost predicate Overruns(rows: seq<FileRow>, sources: Sources, remaining: int, files: seq<SourceFile>) {
    && |files| <= |rows| && AllStored(rows[..|files|], sources, files)
    && (SumBy(files, TextSize) > remaining || (|files| < |rows| && TooLong(rows[|files|], sources)))
  }

  /** Rows and stored texts determine the files. */
  lemma StoredIsUnique(rows: seq<FileRow>, sources: Sources, some: seq<SourceFile>, all: seq<SourceFile>)
    requires |some| <= |rows| && AllStored(rows[..|some|], sources, some) && AllStored(rows, sources, all)
    ensures some == all[..|some|]
  {
    forall i | 0 <= i < |some|
      ensures some[i] == all[i]
    {
      assert rows[..|some|][i] == rows[i];
      assert Stored(rows[i], sources, some[i]) && Stored(rows[i], sources, all[i]);
    }
  }

  /** Reads one archived text and checks its digest. */
  method ReadSource(row: FileRow, sources: Sources) returns (read: Result<SourceFile, ExportError>)
    ensures read.Ok? <==> Intact(row, sources) && !TooLong(row, sources)
    ensures read.Ok? ==> Stored(row, sources, read.value)
    ensures read.Err? ==> read.error == if TooLong(row, sources) then BudgetExhausted else Unavailable
  {
    if row.hash !in sources { return Err(Unavailable); }
    var text := sources[row.hash];
    if |text| > MAX_SOURCE { return Err(BudgetExhausted); }
    if ContentOf(text) != row.hash { return Err(Unavailable); }
    return Ok(SourceFile(row.id, row.path, row.hash, text));
  }

  /** Reads the archived text of every file row, as far as the budget goes; files are those read. */
  method ReadFiles(rows: seq<FileRow>, sources: Sources, remaining: nat)
    returns (read: Result<seq<SourceFile>, ExportError>, ghost files: seq<SourceFile>)
    ensures read.Ok? ==> read.value == files && AllStored(rows, sources, files) && SumBy(files, TextSize) <= remaining
    ensures read == Err(BudgetExhausted) ==> Overruns(rows, sources, remaining, files)
    ensures read == Err(Unavailable) ==> exists i :: 0 <= i < |rows| && !Intact(rows[i], sources)
    ensures read.Err? ==> !read.error.Rejected?
  {
    var out: seq<SourceFile>, left: nat := [], remaining;
    for i := 0 to |rows|
      invariant AllStored(rows[..i], sources, out) && left + SumBy(out, TextSize) == remaining
    {
      var source := ReadSource(rows[i], sources);
      if source.Err? { return Err(source.error), out; }
      var f := source.value;
      AnotherStored(rows, sources, i, out, f);
      if |f.text| > left { return Err(BudgetExhausted), out + [f]; }
      out, left := out + [f], left - |f.text|;
    }
    assert rows[..|rows|] == rows;
    return Ok(out), out;
  }

  lemma AnotherStored(rows: seq<FileRow>, sources: Sources, i: nat, files: seq<SourceFile>, f: SourceFile)
    requires i < |rows| && AllStored(rows[..i], sources, files) && Stored(rows[i], sources, f)
    ensures AllStored(rows[..i + 1], sources, files + [f])
    ensures SumBy(files + [f], TextSize) == SumBy(files, TextSize) + |f.text|
  {
    assert rows[..i + 1] == rows[..i] + [rows[i]];
    assert (files + [f])[..|files|] == files;
  }

  lemma {:induction false} SumGrows<T>(s: seq<T>, size: T -> nat, n: nat)
    requires n <= |s|
    ensures SumBy(s[..n], size) <= SumBy(s, size)
    decreases |s|
  {
    if n == |s| {
      assert s[..n] == s;
    } else {
      var init := s[..|s| - 1];
      assert init[..n] == s[..n];
      SumGrows(init, size, n);
    }
  }

  /** Everything an export has to fit. */
  ghost function ExportSize(b: Batch, sizes: Sizes): nat {
    sizes.envelope(Stripped(b)) + SumBy(b.definitions, sizes.definition) + SumBy(b.relations, sizes.relation)
    + SumBy(b.evidence, sizes.evidence) + SumBy(b.flows, sizes.flow) + SumBy(b.files, TextSize)
  }

  ghost predicate ExportFits(b: Batch, sizes: Sizes, maxBytes: nat) {
    && ExportSize(b, sizes) <= maxBytes && |b.files| <= 100_000
    && |b.definitions| <= 1_000_000 && |b.relations| <= 1_000_000
    && |b.evidence| <= 1_000_000 && |b.flows| <= 1_000_000
  }

  /** The rows of the four fact tables, in whatever order the scans gave them. */
  datatype FactRows = FactRows(definitions: seq<Definition>, relations: seq<Relation>, evidence: seq<Evidence>, flows: seq<Flow>)

  ghost function RowsSize(shard: Shard, sizes: Sizes): nat {
    SumBy(shard.definitions, sizes.definition) + SumBy(shard.relations, sizes.relation)
    + SumBy(shard.evidence, sizes.evidence) + SumBy(shard.flows, sizes.flow)
  }

  ghost predicate FewRows(shard: Shard) {
    && |shard.definitions| <= 1_000_000 && |shard.relations| <= 1_000_000
    && |shard.evidence| <= 1_000_000 && |shard.flows| <= 1_000_000
  }

  method ExportTables(shard: Shard, sizes: Sizes, remaining: nat) returns (rows: Option<FactRows>, left: nat)
    ensures rows.Some? <==> FewRows(shard) && RowsSize(shard, sizes) <= remaining
    ensures rows.Some? ==>
      && multiset(rows.value.definitions) == multiset(shard.definitions)
      && multiset(rows.value.relations) == multiset(shard.relations)
      && multiset(rows.value.evidence) == multiset(shard.evidence)
      && multiset(rows.value.flows) == multiset(shard.flows)
      && left == remaining - RowsSize(shard, sizes)
  {
    left := remaining;
    var definitions, relations, evidence, flows;
    definitions, left := ExportRows(shard.definitions, sizes.definition, left);
    if definitions.None? { return None, left; }
    relations, left := ExportRows(shard.relations, sizes.relation, left);
    if relations.None? { return None, left; }
    evidence, left := ExportRows(shard.evidence, sizes.evidence, left);
    if evidence.None? { return None, left; }
    flows, left := ExportRows(shard.flows, sizes.flow, left);
    if flows.None? { return None, left; }
    return Some(FactRows(definitions.value, relations.value, evidence.value, flows.value)), left;
  }

  // ---- what an export promises of any shard and any stored texts ----

  ghost predicate CountsMatch(shard: Shard) {
    shard.counts == Counts(|shard.files|, |shard.definitions|, |shard.relations|)
  }

  /** The batch that the tables hold, with these files. */
  ghost function Assembled(envelope: Batch, shard: Shard, files: seq<SourceFile>): Batch {
    envelope.(definitions := shard.definitions, relations := shard.relations, evidence := shard.evidence,
              flows := shard.flows, files := files)
  }

  /** The envelope is there, the counts are right, and the files are the stored ones. */
  ghost predicate Readable(shard: Shard, sources: Sources, files: seq<SourceFile>) {
    shard.envelope.Some? && CountsMatch(shard) && AllStored(shard.files, sources, files)
  }

  /** The shard holds a valid batch whose digest is the catalog's, and it fits. */
  ghost predicate Exportable(shard: Shard, sources: Sources, sizes: Sizes, maxBytes: nat, files: seq<SourceFile>) {
    && Readable(shard, sources, files) && FewRows(shard) && |files| <= 100_000
    && sizes.envelope(shard.envelope.value) + RowsSize(shard, sizes) + SumBy(files, TextSize) <= maxBytes
    && BatchValid(Assembled(shard.envelope.value, shard, files))
    && Normalize(Assembled(shard.envelope.value, shard, files)) == shard.factDigest
  }

  /** A part is missing, a stored text is not the one named, or the whole is not what was published. */
  ghost predicate Damaged(shard: Shard, sources: Sources, files: seq<SourceFile>) {
    || !CountsMatch(shard) || shard.envelope.None? || (exists i :: 0 <= i < |shard.files| && !Intact(shard.files[i], sources))
    || (Readable(shard, sources, files) && Normalize(Assembled(shard.envelope.value, shard, files)) != shard.factDigest)
  }

  ghost predicate Oversized(shard: Shard, sources: Sources, sizes: Sizes, maxBytes: nat, files: seq<SourceFile>) {
    && CountsMatch(shard) && shard.envelope.Some?
    && var remaining := maxBytes - sizes.envelope(shard.envelope.value) - RowsSize(shard, sizes);
      (remaining < 0 || !FewRows(shard) || |shard.files| > 100_000 || Overruns(shard.files, sources, remaining, files))
  }

  /** Every outcome of an export has its cause; files are those read. */
  ghost predicate Outcome(shard: Shard, sources: Sources, sizes: Sizes, maxBytes: nat, result: Result<Batch, ExportError>,
                          files: seq<SourceFile>) {
    match result
    case Ok(batch) => batch == shard.factDigest && Exportable(shard, sources, sizes, maxBytes, files)
    case Err(BudgetExhausted) => Oversized(shard, sources, sizes, maxBytes, files)
    case Err(Unavailable) => Damaged(shard, sources, files)
    case Err(Rejected(error)) =>
      && Readable(shard, sources, files) && !BatchValid(Assembled(shard.envelope.value, shard, files))
      && (error == UnsupportedVersion <==> shard.envelope.value.version != SCHEMA_VERSION)
  }

  /** Rebuilds the batch of a shard, whatever order the scans return. */
  method CompleteBatch(shard: Shard, sources: Sources, sizes: Sizes, maxBytes: nat)
    returns (result: Result<Batch, ExportError>)
    ensures exists files :: Outcome(shard, sources, sizes, maxBytes, result, files)
    ensures result.Ok? <==> exists files :: Exportable(shard, sources, sizes, maxBytes, files)
  {
    ghost var files;
    result, files := RebuildBatch(shard, sources, sizes, maxBytes);
    OutcomeIsExact(shard, sources, sizes, maxBytes, result, files);
  }

  /** The work of an export; files are those read. */
  method RebuildBatch(shard: Shard, sources: Sources, sizes: Sizes, maxBytes: nat)
    returns (result: Result<Batch, ExportError>, ghost files: seq<SourceFile>)
    ensures Outcome(shard, sources, sizes, maxBytes, result, files)
  {
    files := [];
    if shard.counts != Counts(|shard.files|, |shard.definitions|, |shard.relations|) { return Err(Unavailable), files; }
    if shard.envelope.None? { return Err(Unavailable), files; }
    var envelope := shard.envelope.value;
    if sizes.envelope(envelope) > maxBytes { return Err(BudgetExhausted), files; }
    var rows, left := ExportTables(shard, sizes, maxBytes - sizes.envelope(envelope));
    if rows.None? || shard.counts.files > MAX_EXPORT_FILES { return Err(BudgetExhausted), files; }
    var read;
    read, files := ReadFiles(shard.files, sources, left);
    if read.Err? { return Err(read.error), files; }
    var r := rows.value;
    var rebuilt := envelope.(definitions := r.definitions, relations := r.relations, evidence := r.evidence,
                             flows := r.flows, files := read.value);
    RebuiltIsReordered(Assembled(envelope, shard, files), rebuilt);
    ReorderedAlike(Assembled(envelope, shard, files), rebuilt);
    var invalid := Validate(rebuilt);
    if invalid.Some? { return Err(Rejected(invalid.value)), files; }
    var batch := Normalize(rebuilt);
    if batch != shard.factDigest { return Err(Unavailable), files; }
    return Ok(batch), files;
  }

  /** An export succeeds exactly when the shard holds a whole and unharmed batch that fits. */
  lemma OutcomeIsExact(shard: Shard, sources: Sources, sizes: Sizes, maxBytes: nat, result: Result<Batch, ExportError>,
                       files: seq<SourceFile>)
    requires Outcome(shard, sources, sizes, maxBytes, result, files)
    ensures result.Ok? <==> exists all :: Exportable(shard, sources, sizes, maxBytes, all)
  {
    forall all | Exportable(shard, sources, sizes, maxBytes, all)
      ensures result.Ok?
    {
      FitsIsNotOversized(shard, sources, sizes, maxBytes, files, all);
      ReadableIsUnharmed(shard, sources, files, all);
    }
  }

  /** Of a readable shard only the digest can be wrong. */
  lemma ReadableIsUnharmed(shard: Shard, sources: Sources, files: seq<SourceFile>, all: seq<SourceFile>)
    requires Readable(shard, sources, all)
    ensures Readable(shard, sources, files) ==> files == all
    ensures Damaged(shard, sources, files) ==> Normalize(Assembled(shard.envelope.value, shard, all)) != shard.factDigest
  {
    if Readable(shard, sources, files) {
      assert shard.files[..|files|] == shard.files;
      StoredIsUnique(shard.files, sources, files, all);
      assert all[..|files|] == all;
    }
    forall i | 0 <= i < |shard.files|
      ensures Intact(shard.files[i], sources)
    {
      assert Stored(shard.files[i], sources, all[i]);
    }
  }

  lemma FitsIsNotOversized(shard: Shard, sources: Sources, sizes: Sizes, maxBytes: nat, files: seq<SourceFile>, all: seq<SourceFile>)
    requires Exportable(shard, sources, sizes, maxBytes, all)
    ensures !Oversized(shard, sources, sizes, maxBytes, files)
  {
    var remaining := maxBytes - sizes.envelope(shard.envelope.value) - RowsSize(shard, sizes);
    StoredDoesNotOverrun(shard.files, sources, remaining, files, all);
  }

  lemma StoredDoesNotOverrun(rows: seq<FileRow>, sources: Sources, remaining: int, files: seq<SourceFile>, all: seq<SourceFile>)
    requires AllStored(rows, sources, all) && SumBy(all, TextSize) <= remaining
    ensures !Overruns(rows, sources, remaining, files)
  {
    if |files| <= |rows| && AllStored(rows[..|files|], sources, files) {
      StoredIsUnique(rows, sources, files, all);
      SumGrows(all, TextSize, |files|);
      assert |files| < |rows| ==> Stored(rows[|files|], sources, all[|files|]);
    }
  }

  /** The shard was built from the batch, and its sources are still there unharmed. */
  ghost predicate Archived(shard: Shard, sources: Sources, b: Batch) {
    && BatchValid(b) && shard == BuildShard(Normalize(b))
    && forall f :: f in b.files ==> f.hash in sources && sources[f.hash] == f.text
  }

  /** From the shard of a valid batch and its archived sources, an export within the budget is exactly
      the normalized batch; otherwise it is refused for its size. */
  lemma ArchivedIsExported(shard: Shard, sources: Sources, sizes: Sizes, maxBytes: nat, result: Result<Batch, ExportError>,
                           files: seq<SourceFile>, b: Batch)
    requires Outcome(shard, sources, sizes, maxBytes, result, files) && Archived(shard, sources, b)
    ensures result == if ExportFits(Normalize(b), sizes, maxBytes) then Ok(Normalize(b)) else Err(BudgetExhausted)
  {
    var n := Normalize(b);
    ArchivedIsReadable(shard, sources, b);
    ReadableIsUnharmed(shard, sources, files, n.files);
    OutcomeIsExact(shard, sources, sizes, maxBytes, result, files);
    ArchivedIsExportable(shard, sources, sizes, maxBytes, b);
  }

  lemma ArchivedIsExportable(shard: Shard, sources: Sources, sizes: Sizes, maxBytes: nat, b: Batch)
    requires Archived(shard, sources, b)
    ensures shard.factDigest == Normalize(b)
    ensures ExportFits(Normalize(b), sizes, maxBytes) <==> exists all :: Exportable(shard, sources, sizes, maxBytes, all)
  {
    var n := Normalize(b);
    ArchivedIsReadable(shard, sources, b);
    assert ExportFits(n, sizes, maxBytes) <==> Exportable(shard, sources, sizes, maxBytes, n.files);
    forall all | Exportable(shard, sources, sizes, maxBytes, all)
      ensures all == n.files
    {
      ReadableIsUnharmed(shard, sources, all, n.files);
    }
  }

  lemma ArchivedIsReadable(shard: Shard, sources: Sources, b: Batch)
    requires Archived(shard, sources, b)
    ensures var n := Normalize(b);
      && Readable(shard, sources, n.files) && Assembled(shard.envelope.value, shard, n.files) == n
      && BatchValid(n) && Normalize(n) == n
  {
    var n := Normalize(b);
    NormalizeReorders(b);
    NormalizeKeepsValid(b);
    RebuiltIsSame(b, n);
    MembersOfMultiset(b.files, n.files);
    forall i | 0 <= i < |n.files|
      ensures Stored(shard.files[i], sources, n.files[i])
    {
      assert n.files[i] in n.files;
      assert n.files[i] in b.files;
    }
  }

  lemma RebuiltIsReordered(n: Batch, rebuilt: Batch)
    requires multiset(rebuilt.definitions) == multiset(n.definitions) && multiset(rebuilt.relations) == multiset(n.relations)
    requires multiset(rebuilt.evidence) == multiset(n.evidence) && multiset(rebuilt.flows) == multiset(n.flows)
    requires rebuilt == n.(definitions := rebuilt.definitions, relations := rebuilt.relations,
                           evidence := rebuilt.evidence, flows := rebuilt.flows)
    ensures Reordered(n, rebuilt)
  {
  }

  lemma ReorderedAlike(a: Batch, b: Batch)
    requires Reordered(a, b)
    ensures BatchValid(a) <==> BatchValid(b)
    ensures BatchValid(a) ==> Normalize(a) == Normalize(b)
  {
    if BatchValid(a) { ReorderedValid(a, b); }
    if BatchValid(b) { ReorderedValid(b, a); }
    if BatchValid(a) { NormalizeIsCanonical(a, b); }
  }

  lemma RebuiltIsSame(b: Batch, rebuilt: Batch)
    requires BatchValid(b) && BatchValid(rebuilt) && Reordered(Normalize(b), rebuilt)
    ensures Normalize(rebuilt) == Normalize(b)
  {
    NormalizeReorders(b);
    NormalizeIsCanonical(b, rebuilt);
  }
}
