/** The fact batch: what one analysis of one source state found. */
module Facts {
  import opened Wrappers
  import opened Utf8

  /** A decoded string. */
  type Text = t: seq<byte> | Valid(t) witness []

  const SCHEMA_VERSION: nat := 1

  /** Digests are injective: the content digest of a text determines the text. */
  datatype ContentHash = ContentOf(text: Text) | OtherHash(code: nat)

  /** Identities, names and hashes are only compared; 0 is the empty string. */
  datatype SourceFile = SourceFile(id: nat, path: string, hash: ContentHash, text: Text)

  datatype Span = Span(file: nat, start: nat, end: nat)

  datatype CfgStatus = Active | Inactive | UnknownCfg

  /** rest stands for the name, the signature text and the metrics. */
  datatype Definition = Definition(
    id: nat, context: nat, file: nat, qualifiedName: nat, kind: nat, parent: Option<nat>,
    signatureHash: nat, bodyHash: nat, visibility: nat, cfg: seq<nat>, cfgStatus: CfgStatus,
    span: Span, body: Option<Span>, rest: nat)

  datatype Target = Resolved(id: nat) | Unresolved(reason: nat)

  datatype Relation = Relation(id: nat, source: nat, target: Target, kind: nat, span: Span, evidence: nat)

  datatype Evidence = Evidence(id: nat, basis: nat, producer: nat, rest: nat)

  datatype Flow = Flow(definition: nat, phase: nat, points: seq<Span>, rest: nat)

  /** rest stands for the revision, manifests, context details, coverage and diagnostics. */
  datatype Batch = Batch(
    version: nat, producer: nat, context: nat, source: nat, repository: nat,
    files: seq<SourceFile>, warnings: seq<nat>, definitions: seq<Definition>, relations: seq<Relation>,
    evidence: seq<Evidence>, flows: seq<Flow>, rest: nat)
}
