/** The durable store: catalog tables, content-addressed object files, and each catalog transaction.

    Digests are injective, so an object is named by its content and a snapshot by its facts. */
module Catalog {
  import opened Wrappers

  /** Normalized facts of a validated batch; files lists the content of each source file, metadataBytes
      is the length of the snapshot's metadata row. */
  datatype Facts = Facts(repository: nat, context: nat, files: seq<nat>, metadataBytes: nat, rest: nat)

  /** A snapshot is identified by the digest of its facts. */
  type SnapshotId = Facts

  /** A stored object named by its content; build tells apart byte-wise different shards of one batch. */
  datatype Object = Source(content: nat) | Shard(facts: Facts, build: nat)

  datatype FileIdentity = FileIdentity(device: nat, inode: nat, bytes: nat)

  datatype Generation = Generation(sequence: nat, publishedAt: int)

  datatype Owned = Owned(identity: FileIdentity, createdAt: int)

  datatype Policy = Policy(keepRecent: nat, gracePeriod: nat, additionalRoots: set<SnapshotId>)

  datatype Reason =
    | HeadRoot(name: string) | PinRoot(name: string) | AdditionalRoot | RecentGeneration | GracePeriod | Observations

  datatype GcObject = GcObject(item: Object, identity: FileIdentity, present: bool)

  /** A garbage collection plan; its fingerprint is a digest of it, so the plan is its own fingerprint. */
  datatype Plan = Plan(
    policy: Policy, retained: map<SnapshotId, set<Reason>>, removeSnapshots: set<SnapshotId>,
    objects: set<GcObject>, liveObjects: set<Object>)

  datatype Disk = Disk(
    snapshots: map<SnapshotId, Object>,
    heads: map<string, SnapshotId>,
    pins: map<string, SnapshotId>,
    generations: map<SnapshotId, Generation>,
    nextSequence: nat,
    owned: map<Object, Owned>,
    completedRuns: map<Plan, bool>,
    files: map<Object, FileIdentity>,
    observed: set<SnapshotId>)

  datatype Error = Invalid | UnknownSnapshot | Conflict | BudgetExhausted | Unavailable | InjectedFailure

  // ---- integrity ----

  /** The objects a snapshot row needs: its shard and every source it lists. */
  ghost predicate Uses(id: SnapshotId, shard: Object, item: Object) {
    item == shard || (item.Source? && item.content in id.files)
  }

  ghost predicate Stored(disk: Disk, id: SnapshotId)
    requires id in disk.snapshots
  {
    && disk.snapshots[id].Shard? && disk.snapshots[id].facts == id
    && forall o :: Uses(id, disk.snapshots[id], o) ==> o in disk.files
  }

  /** Each row has its shard and sources on disk. */
  ghost predicate AllStored(disk: Disk) {
    forall id :: id in disk.snapshots ==> Stored(disk, id)
  }

  /** Every name refers to an existing row. */
  ghost predicate NamesResolve(names: map<string, SnapshotId>, snapshots: set<SnapshotId>) {
    forall name :: name in names ==> names[name] in snapshots
  }

  /** One dated sequence number per row, never reused. */
  ghost predicate Dated(generations: map<SnapshotId, Generation>, nextSequence: nat) {
    && (forall id :: id in generations ==> generations[id].sequence < nextSequence)
    && (forall a, b :: a in generations && b in generations && a != b ==>
          generations[a].sequence != generations[b].sequence)
  }

  /** Referential integrity of the store. */
  ghost predicate Valid(disk: Disk) {
    && AllStored(disk)
    && NamesResolve(disk.heads, disk.snapshots.Keys)
    && NamesResolve(disk.pins, disk.snapshots.Keys)
    && disk.generations.Keys == disk.snapshots.Keys
    && Dated(disk.generations, disk.nextSequence)
  }

  // ---- publication ----

  /** Creates an object file unless a file of that content already exists. */
  ghost function PutFile(disk: Disk, item: Object, identity: FileIdentity): Disk {
    if item in disk.files then disk else disk.(files := disk.files[item := identity])
  }

  /** Inserts the ownership row unless present, then insists that it describes the current file. */
  function Register(disk: Disk, item: Object, now: int): Result<Disk, Error> {
    if item !in disk.files then Err(Unavailable)
    else
      var registered :=
        if item in disk.owned then disk
        else disk.(owned := disk.owned[item := Owned(disk.files[item], now)]);
      if registered.owned[item].identity == disk.files[item] then Ok(registered) else Err(Unavailable)
  }

  function Head(disk: Disk, head: string): Option<SnapshotId> {
    if head in disk.heads then Some(disk.heads[head]) else None
  }

  /** Only object files and their ownership rows were added; nothing else changed. */
  ghost predicate ObjectsAdded(before: Disk, after: Disk) {
    && after == before.(files := after.files, owned := after.owned)
    && (forall o :: o in before.files ==> o in after.files && after.files[o] == before.files[o])
    && (forall o :: o in before.owned ==> o in after.owned && after.owned[o] == before.owned[o])
  }

  /** Rows are inserted once, and dated once with a fresh sequence number. */
  function RowsWith(disk: Disk, facts: Facts, shard: Object): map<SnapshotId, Object> {
    if facts in disk.snapshots then disk.snapshots else disk.snapshots[facts := shard]
  }

  function DatesWith(disk: Disk, facts: Facts, now: int): map<SnapshotId, Generation> {
    if facts in disk.generations then disk.generations
    else disk.generations[facts := Generation(disk.nextSequence, now)]
  }

  /** The publication transaction: compare the head, insert the row once, move the head, date it. */
  function CommitPublication(disk: Disk, facts: Facts, shard: Object, head: string, expected: Option<SnapshotId>, now: int)
    : Result<Disk, Error>
  {
    if Head(disk, head) != expected && Head(disk, head) != Some(facts) then Err(Conflict)
    else
      Ok(disk.(snapshots := RowsWith(disk, facts, shard), heads := disk.heads[head := facts],
               generations := DatesWith(disk, facts, now),
               nextSequence := if facts in disk.generations then disk.nextSequence else disk.nextSequence + 1))
  }

  ghost predicate HeadAllows(disk: Disk, facts: Facts, head: string, expected: Option<SnapshotId>) {
    Head(disk, head) == expected || Head(disk, head) == Some(facts)
  }

  /** Rows are immutable, the head now names the facts, and pins and runs are untouched. New facts get
      their shard, the next sequence number and the present time; known ones keep what they have. */
  ghost predicate Published(before: Disk, after: Disk, facts: Facts, shard: Object, head: string, now: int) {
    && (facts !in before.snapshots ==> after.snapshots == before.snapshots[facts := shard])
    && (if facts in before.generations then after.generations == before.generations && after.nextSequence == before.nextSequence
        else
          && after.generations == before.generations[facts := Generation(before.nextSequence, now)]
          && after.nextSequence == before.nextSequence + 1)
    && facts in after.snapshots && after.heads == before.heads[head := facts]
    && (forall id :: id in before.snapshots ==> id in after.snapshots && after.snapshots[id] == before.snapshots[id])
    && after.snapshots.Keys == before.snapshots.Keys + {facts}
    && after.pins == before.pins && after.completedRuns == before.completedRuns && after.observed == before.observed
  }

  lemma CommitPublishes(before: Disk, written: Disk, facts: Facts, shard: Object, head: string, expected: Option<SnapshotId>, now: int)
    requires ObjectsAdded(before, written)
    ensures var committed := CommitPublication(written, facts, shard, head, expected, now);
      && (committed.Ok? <==> HeadAllows(before, facts, head, expected))
      && (committed.Ok? ==> Published(before, committed.value, facts, shard, head, now))
      && (committed.Err? ==> committed.error == Conflict)
  {
    assert written.heads == before.heads && written.snapshots == before.snapshots;
    assert RowsWith(written, facts, shard).Keys == before.snapshots.Keys + {facts};
  }

  /** Integrity only depends on files through the objects that rows use. */
  lemma StoredKept(before: Disk, after: Disk)
    requires AllStored(before)
    requires forall id :: id in after.snapshots ==> id in before.snapshots && after.snapshots[id] == before.snapshots[id]
    requires forall id, o :: id in after.snapshots && Uses(id, after.snapshots[id], o) && o in before.files ==> o in after.files
    ensures AllStored(after)
  {
    forall id | id in after.snapshots
      ensures Stored(after, id)
    {
      assert Stored(before, id);
    }
  }

  lemma PutFileIsValid(disk: Disk, item: Object, identity: FileIdentity)
    requires Valid(disk)
    ensures Valid(PutFile(disk, item, identity)) && item in PutFile(disk, item, identity).files
  {
    StoredKept(disk, PutFile(disk, item, identity));
  }

  lemma RegisterIsValid(disk: Disk, item: Object, now: int)
    requires Valid(disk) && Register(disk, item, now).Ok?
    ensures Valid(Register(disk, item, now).value)
  {
    StoredKept(disk, Register(disk, item, now).value);
  }

  lemma NamesKept(names: map<string, SnapshotId>, before: set<SnapshotId>, after: set<SnapshotId>, name: string, id: SnapshotId)
    requires NamesResolve(names, before) && before <= after && id in after
    ensures NamesResolve(names, after) && NamesResolve(names[name := id], after)
  {
  }

  lemma DatedInsert(generations: map<SnapshotId, Generation>, next: nat, id: SnapshotId, now: int)
    requires Dated(generations, next) && id !in generations
    ensures Dated(generations[id := Generation(next, now)], next + 1)
  {
  }

  /** A new row with all its objects on disk. */
  lemma InsertStores(disk: Disk, facts: Facts, shard: Object)
    requires AllStored(disk) && shard.Shard? && shard.facts == facts
    requires forall o :: Uses(facts, shard, o) ==> o in disk.files
    ensures AllStored(disk.(snapshots := RowsWith(disk, facts, shard)))
    ensures RowsWith(disk, facts, shard).Keys == disk.snapshots.Keys + {facts}
  {
    var after := disk.(snapshots := RowsWith(disk, facts, shard));
    forall id | id in after.snapshots
      ensures Stored(after, id)
    {
      if id in disk.snapshots { assert Stored(disk, id); }
    }
  }

  /** Integrity only depends on some of the tables. */
  lemma ValidFromParts(disk: Disk, rows: Disk)
    requires AllStored(rows) && disk.files == rows.files && disk.snapshots == rows.snapshots
    requires NamesResolve(disk.heads, rows.snapshots.Keys) && NamesResolve(disk.pins, rows.snapshots.Keys)
    requires disk.generations.Keys == rows.snapshots.Keys && Dated(disk.generations, disk.nextSequence)
    ensures Valid(disk)
  {
    forall id | id in disk.snapshots
      ensures Stored(disk, id)
    {
      assert Stored(rows, id);
    }
  }

  /** Publication keeps integrity when every object it needs has been written. */
  lemma CommitIsValid(disk: Disk, facts: Facts, shard: Object, head: string, expected: Option<SnapshotId>, now: int)
    requires Valid(disk) && shard.Shard? && shard.facts == facts
    requires forall o :: Uses(facts, shard, o) ==> o in disk.files
    requires CommitPublication(disk, facts, shard, head, expected, now).Ok?
    ensures Valid(CommitPublication(disk, facts, shard, head, expected, now).value)
  {
    var after := CommitPublication(disk, facts, shard, head, expected, now).value;
    var rows := RowsWith(disk, facts, shard);
    InsertStores(disk, facts, shard);
    NamesKept(disk.heads, disk.snapshots.Keys, rows.Keys, head, facts);
    NamesKept(disk.pins, disk.snapshots.Keys, rows.Keys, head, facts);
    if facts !in disk.generations { DatedInsert(disk.generations, disk.nextSequence, facts, now); }
    ValidFromParts(after, disk.(snapshots := rows));
  }

  // ---- pins ----

  function CommitPin(disk: Disk, name: string, id: SnapshotId): Result<Disk, Error> {
    if |disk.pins| >= 4096 && name !in disk.pins then Err(BudgetExhausted)
    else if id !in disk.snapshots then Err(Unavailable) // the foreign key refuses the row
    else Ok(disk.(pins := disk.pins[name := id]))
  }

  function DropPin(disk: Disk, name: string): Disk {
    disk.(pins := disk.pins - {name})
  }

  // ---- garbage collection transactions ----

  /** Deletes the planned snapshot rows; their generation rows cascade. A run row stays incomplete. */
  function RemoveSnapshots(disk: Disk, plan: Plan): Disk {
    disk.(snapshots := disk.snapshots - plan.removeSnapshots,
          generations := disk.generations - plan.removeSnapshots,
          completedRuns := disk.completedRuns[plan := false])
  }

  function Unlink(disk: Disk, item: Object): Disk {
    disk.(files := disk.files - {item})
  }

  function DropOwned(disk: Disk, item: Object): Disk {
    disk.(owned := disk.owned - {item})
  }

  function CompleteRun(disk: Disk, plan: Plan): Disk {
    disk.(completedRuns := disk.completedRuns[plan := true])
  }

  ghost function PlannedObjects(plan: Plan): set<Object> {
    set g | g in plan.objects :: g.item
  }

  // ---- what a plan says ----

  /** What happened after this time is too recent to be removed. */
  function Cutoff(policy: Policy, now: int): int {
    now - policy.gracePeriod
  }

  ghost predicate SameGroup(a: SnapshotId, b: SnapshotId) {
    a.repository == b.repository && a.context == b.context
  }

  /** The newer snapshots of the same repository and context. */
  ghost function Newer(disk: Disk, id: SnapshotId): set<SnapshotId>
    requires Valid(disk) && id in disk.snapshots
  {
    set t | t in disk.snapshots && SameGroup(t, id) && disk.generations[t].sequence > disk.generations[id].sequence
  }

  ghost predicate Recent(disk: Disk, keepRecent: nat, id: SnapshotId)
    requires Valid(disk)
  {
    id in disk.snapshots && |Newer(disk, id)| < keepRecent
  }

  /** Why a snapshot must be kept. */
  ghost predicate KeptFor(disk: Disk, policy: Policy, cutoff: int, id: SnapshotId, reason: Reason)
    requires Valid(disk)
  {
    match reason
    case HeadRoot(name) => name in disk.heads && disk.heads[name] == id
    case PinRoot(name) => name in disk.pins && disk.pins[name] == id
    case AdditionalRoot => id in policy.additionalRoots
    case RecentGeneration => Recent(disk, policy.keepRecent, id)
    case GracePeriod => id in disk.generations && disk.generations[id].publishedAt > cutoff
    case Observations => id in disk.snapshots && id in disk.observed
  }

  ghost predicate Rooted(disk: Disk, policy: Policy, cutoff: int, id: SnapshotId)
    requires Valid(disk)
  {
    exists reason :: KeptFor(disk, policy, cutoff, id, reason)
  }

  /** Objects of retained snapshots. */
  ghost predicate Live(disk: Disk, policy: Policy, cutoff: int, item: Object)
    requires Valid(disk)
  {
    exists id :: id in disk.snapshots && Rooted(disk, policy, cutoff, id) && Uses(id, disk.snapshots[id], item)
  }

  /** Old enough owned objects that no retained snapshot uses. */
  ghost predicate Garbage(disk: Disk, policy: Policy, cutoff: int, item: Object)
    requires Valid(disk)
  {
    item in disk.owned && disk.owned[item].createdAt <= cutoff && !Live(disk, policy, cutoff, item)
  }

  function Planned(disk: Disk, item: Object): GcObject
    requires item in disk.owned
  {
    if item in disk.files then GcObject(item, disk.owned[item].identity, true)
    else GcObject(item, disk.owned[item].identity.(bytes := 0), false)
  }

  /** The plan for this disk, policy and clock: exact roots, exact removals, exact garbage. */
  ghost predicate IsPlan(disk: Disk, policy: Policy, cutoff: int, plan: Plan)
    requires Valid(disk)
  {
    && plan.policy == policy
    && policy.additionalRoots <= disk.snapshots.Keys
    && (forall id :: id in plan.retained <==> Rooted(disk, policy, cutoff, id))
    && (forall id, reason :: id in plan.retained ==>
          (reason in plan.retained[id] <==> KeptFor(disk, policy, cutoff, id, reason)))
    && plan.removeSnapshots == disk.snapshots.Keys - plan.retained.Keys
    && (forall o :: o in plan.liveObjects <==> Live(disk, policy, cutoff, o))
    && (forall g :: g in plan.objects <==>
          Garbage(disk, policy, cutoff, g.item) && g == Planned(disk, g.item))
    && (forall g :: g in plan.objects && g.present ==> disk.files[g.item] == g.identity)
  }
}
