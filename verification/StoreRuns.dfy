/** Interleavings of publishers, pinners, readers and garbage collectors, each able to crash anywhere.

    A process holds a shared lease while it publishes, pins or reads, and an exclusive one while it
    plans or collects. The operating system drops the lease of a process that dies. */
module StoreRuns {
  import opened Wrappers
  import opened Catalog
  import opened Retention

  /** The objects of a collection that are still to be handled, and the one already unlinked. */
  datatype Collection = Checking | Removing(remaining: set<GcObject>, unlinked: Option<GcObject>)

  datatype Process =
    | Publishing(facts: Facts, head: string, expected: Option<SnapshotId>, build: nat, sources: nat, put: bool, shardReady: bool)
    | Pinning(name: string, id: SnapshotId, checked: bool)
    | Unpinning(name: string)
    | Opening(id: SnapshotId)
    | Reading(id: SnapshotId)
    | Planning(policy: Policy)
    | Collecting(plan: Plan, phase: Collection)

  ghost predicate Exclusive(p: Process) {
    p.Planning? || p.Collecting?
  }

  datatype State = State(disk: Disk, processes: map<nat, Process>)

  datatype Action =
    | Start(pid: nat, process: Process)
    | PutSource(pid: nat, identity: FileIdentity)
    | RegisterSource(pid: nat, now: int)
    | PutShard(pid: nat, identity: FileIdentity)
    | RegisterShard(pid: nat, now: int)
    | Commit(pid: nat, now: int)
    | CheckPin(pid: nat)
    | InsertPin(pid: nat)
    | DeletePin(pid: nat)
    | OpenShard(pid: nat)
    | CheckPlan(pid: nat, now: int)
    | UnlinkObject(pid: nat, g: GcObject)
    | DropRow(pid: nat)
    | Complete(pid: nat)
    | Leave(pid: nat)

  /** How a process looks when it has just obtained its lease. */
  ghost predicate Fresh(p: Process) {
    match p
    case Publishing(_, _, _, _, sources, put, shardReady) => sources == 0 && !put && !shardReady
    case Pinning(_, _, checked) => !checked
    case Reading(_) => false
    case Collecting(_, phase) => phase == Checking
    case _ => true
  }

  /** A shared lease is granted when nobody holds an exclusive one, an exclusive one when nobody holds any. */
  ghost predicate LeaseAvailable(processes: map<nat, Process>, p: Process) {
    if Exclusive(p) then processes == map[]
    else forall q :: q in processes ==> !Exclusive(processes[q])
  }

  /** Replaces the process and the disk. */
  ghost function Become(s: State, pid: nat, disk: Disk, p: Process): Option<State> {
    Some(State(disk, s.processes[pid := p]))
  }

  ghost function Exit(s: State, pid: nat, disk: Disk): Option<State> {
    Some(State(disk, s.processes - {pid}))
  }

  /** A refused catalog commit changes nothing. */
  ghost function DiskAfterCommit(disk: Disk, p: Process, now: int): Disk
    requires Valid(disk) && p.Publishing?
  {
    match CommitPublication(disk, p.facts, Shard(p.facts, p.build), p.head, p.expected, now)
    case Ok(after) => after
    case Err(_) => disk
  }

  /** Effect of one atomic action; None when it is not enabled. An error ends the process, and Leave is
      both a normal release and a crash: it may happen at any point and leaves the disk alone. */
  ghost function Step(s: State, a: Action): Option<State>
    requires Valid(s.disk)
  {
    if a.Start? then
      if a.pid !in s.processes && Fresh(a.process) && LeaseAvailable(s.processes, a.process)
      then Some(s.(processes := s.processes[a.pid := a.process])) else None
    else if a.pid !in s.processes then None
    else
      var p := s.processes[a.pid];
      match a
      case Leave(pid) => Exit(s, pid, s.disk)
      case PutSource(pid, identity) =>
        if p.Publishing? && p.sources < |p.facts.files| && !p.put
        then Become(s, pid, PutFile(s.disk, Source(p.facts.files[p.sources]), identity), p.(put := true)) else None
      case RegisterSource(pid, now) =>
        if p.Publishing? && p.sources < |p.facts.files| && p.put then
          match Register(s.disk, Source(p.facts.files[p.sources]), now)
          case Ok(disk) => Become(s, pid, disk, p.(sources := p.sources + 1, put := false))
          case Err(_) => Exit(s, pid, s.disk)
        else None
      case PutShard(pid, identity) =>
        if p.Publishing? && p.sources == |p.facts.files| && !p.put && !p.shardReady
        then Become(s, pid, PutFile(s.disk, Shard(p.facts, p.build), identity), p.(put := true)) else None
      case RegisterShard(pid, now) =>
        if p.Publishing? && p.sources == |p.facts.files| && p.put then
          match Register(s.disk, Shard(p.facts, p.build), now)
          case Ok(disk) => Become(s, pid, disk, p.(put := false, shardReady := true))
          case Err(_) => Exit(s, pid, s.disk)
        else None
      case Commit(pid, now) =>
        if p.Publishing? && p.shardReady then Exit(s, pid, DiskAfterCommit(s.disk, p, now)) else None
      case CheckPin(pid) =>
        if p.Pinning? && !p.checked then
          if p.id in s.disk.snapshots then Become(s, pid, s.disk, p.(checked := true)) else Exit(s, pid, s.disk)
        else None
      case InsertPin(pid) =>
        if p.Pinning? && p.checked then
          match CommitPin(s.disk, p.name, p.id)
          case Ok(disk) => Exit(s, pid, disk)
          case Err(_) => Exit(s, pid, s.disk)
        else None
      case DeletePin(pid) => if p.Unpinning? then Exit(s, pid, DropPin(s.disk, p.name)) else None
      case OpenShard(pid) =>
        if p.Opening? then
          if p.id in s.disk.snapshots then Become(s, pid, s.disk, Reading(p.id)) else Exit(s, pid, s.disk)
        else None
      case CheckPlan(pid, now) =>
        if p.Collecting? && p.phase.Checking? && !(p.plan in s.disk.completedRuns && s.disk.completedRuns[p.plan]) then
          if IsPlan(s.disk, p.plan.policy, Cutoff(p.plan.policy, now), p.plan)
          then Become(s, pid, RemoveSnapshots(s.disk, p.plan), p.(phase := Removing(p.plan.objects, None)))
          else Exit(s, pid, s.disk)
        else None
      case UnlinkObject(pid, g) =>
        if p.Collecting? && p.phase.Removing? && p.phase.unlinked.None? && g in p.phase.remaining
        then Become(s, pid, if g.present then Unlink(s.disk, g.item) else s.disk,
                    p.(phase := Removing(p.phase.remaining - {g}, Some(g)))) else None
      case DropRow(pid) =>
        if p.Collecting? && p.phase.Removing? && p.phase.unlinked.Some?
        then Become(s, pid, DropOwned(s.disk, p.phase.unlinked.value.item), p.(phase := p.phase.(unlinked := None))) else None
      case Complete(pid) =>
        if p.Collecting? && p.phase == Removing({}, None) then Exit(s, pid, CompleteRun(s.disk, p.plan)) else None
  }

  // ---- invariant ----

  ghost predicate Unused(disk: Disk, item: Object) {
    forall id :: id in disk.snapshots ==> !Uses(id, disk.snapshots[id], item)
  }

  /** What each process may rely on while it holds its lease. */
  ghost predicate ProcessSafe(disk: Disk, p: Process) {
    match p
    case Publishing(facts, _, _, build, sources, put, shardReady) =>
      && sources <= |facts.files|
      && (forall k :: 0 <= k < sources ==> Source(facts.files[k]) in disk.files)
      && (put && sources < |facts.files| ==> Source(facts.files[sources]) in disk.files)
      && (put && sources == |facts.files| ==> Shard(facts, build) in disk.files)
      && (shardReady ==> sources == |facts.files| && Shard(facts, build) in disk.files)
    case Pinning(_, id, checked) => checked ==> id in disk.snapshots
    case Reading(id) => id in disk.snapshots
    case Collecting(_, Removing(remaining, _)) => forall g :: g in remaining ==> Unused(disk, g.item)
    case _ => true
  }

  ghost predicate LeasesRespected(processes: map<nat, Process>) {
    forall p, q :: p in processes && q in processes && Exclusive(processes[p]) ==> q == p
  }

  ghost predicate Inv(s: State) {
    && Valid(s.disk) && LeasesRespected(s.processes)
    && forall p :: p in s.processes ==> ProcessSafe(s.disk, s.processes[p])
  }

  /** Rows and files only grow. */
  ghost predicate Grows(before: Disk, after: Disk) {
    && before.files.Keys <= after.files.Keys
    && forall id :: id in before.snapshots ==> id in after.snapshots && after.snapshots[id] == before.snapshots[id]
  }

  lemma GrowthKeepsProcess(before: Disk, after: Disk, p: Process)
    requires ProcessSafe(before, p) && Grows(before, after) && !Exclusive(p)
    ensures ProcessSafe(after, p)
  {
  }

  /** A non-exclusive process that only grows the disk keeps the invariant. */
  lemma SharedStep(s: State, pid: nat, disk: Disk, next: Option<Process>)
    requires Inv(s) && pid in s.processes && !Exclusive(s.processes[pid])
    requires Valid(disk) && Grows(s.disk, disk)
    requires next.Some? ==> !Exclusive(next.value) && ProcessSafe(disk, next.value)
    ensures Inv(State(disk, if next.Some? then s.processes[pid := next.value] else s.processes - {pid}))
  {
    forall q | q in s.processes
      ensures !Exclusive(s.processes[q]) && ProcessSafe(disk, s.processes[q])
    {
      assert Exclusive(s.processes[q]) ==> pid == q;
      GrowthKeepsProcess(s.disk, disk, s.processes[q]);
    }
  }

  /** An exclusive process is alone, so only its own condition matters. */
  lemma ExclusiveStep(s: State, pid: nat, disk: Disk, next: Option<Process>)
    requires Inv(s) && pid in s.processes && Exclusive(s.processes[pid])
    requires Valid(disk)
    requires next.Some? ==> ProcessSafe(disk, next.value)
    ensures Inv(State(disk, if next.Some? then s.processes[pid := next.value] else s.processes - {pid}))
  {
    forall q | q in s.processes
      ensures q == pid
    {
    }
  }

  lemma PublisherStep(s: State, a: Action, t: State)
    requires Inv(s) && Step(s, a) == Some(t)
    requires a.PutSource? || a.RegisterSource? || a.PutShard? || a.RegisterShard?
    ensures Inv(t)
  {
    var p := s.processes[a.pid];
    assert ProcessSafe(s.disk, p);
    match a
    case PutSource(pid, identity) =>
      PutFileIsValid(s.disk, Source(p.facts.files[p.sources]), identity);
      SharedStep(s, pid, t.disk, Some(t.processes[pid]));
    case PutShard(pid, identity) =>
      PutFileIsValid(s.disk, Shard(p.facts, p.build), identity);
      SharedStep(s, pid, t.disk, Some(t.processes[pid]));
    case RegisterSource(pid, now) =>
      var registered := Register(s.disk, Source(p.facts.files[p.sources]), now);
      if registered.Ok? {
        RegisterIsValid(s.disk, Source(p.facts.files[p.sources]), now);
        SharedStep(s, pid, t.disk, Some(t.processes[pid]));
      } else {
        SharedStep(s, pid, s.disk, None);
      }
    case RegisterShard(pid, now) =>
      var registered := Register(s.disk, Shard(p.facts, p.build), now);
      if registered.Ok? {
        RegisterIsValid(s.disk, Shard(p.facts, p.build), now);
        SharedStep(s, pid, t.disk, Some(t.processes[pid]));
      } else {
        SharedStep(s, pid, s.disk, None);
      }
  }

  lemma CommitGrows(s: State, p: Process, now: int)
    requires Inv(s) && p.Publishing? && p.shardReady && ProcessSafe(s.disk, p)
    ensures Valid(DiskAfterCommit(s.disk, p, now)) && Grows(s.disk, DiskAfterCommit(s.disk, p, now))
  {
    var committed := CommitPublication(s.disk, p.facts, Shard(p.facts, p.build), p.head, p.expected, now);
    if committed.Ok? {
      CommitIsValid(s.disk, p.facts, Shard(p.facts, p.build), p.head, p.expected, now);
    }
  }

  lemma CommitStep(s: State, pid: nat, now: int, t: State)
    requires Inv(s) && Step(s, Commit(pid, now)) == Some(t)
    ensures Inv(t)
  {
    var p := s.processes[pid];
    assert ProcessSafe(s.disk, p);
    CommitGrows(s, p, now);
    SharedStep(s, pid, DiskAfterCommit(s.disk, p, now), None);
  }

  lemma PinStep(s: State, a: Action, t: State)
    requires Inv(s) && Step(s, a) == Some(t)
    requires a.CheckPin? || a.InsertPin? || a.DeletePin? || a.OpenShard?
    ensures Inv(t)
  {
    var p := s.processes[a.pid];
    assert ProcessSafe(s.disk, p);
    if a.DeletePin? {
      StoredKept(s.disk, DropPin(s.disk, p.name));
      SharedStep(s, a.pid, t.disk, None);
    } else if a.InsertPin? {
      var pinned := CommitPin(s.disk, p.name, p.id);
      if pinned.Ok? { StoredKept(s.disk, pinned.value); }
      SharedStep(s, a.pid, t.disk, None);
    } else if a.pid in t.processes {
      SharedStep(s, a.pid, s.disk, Some(t.processes[a.pid]));
    } else {
      SharedStep(s, a.pid, s.disk, None);
    }
  }

  lemma PlannedUnused(disk: Disk, policy: Policy, cutoff: int, plan: Plan, id: SnapshotId, g: GcObject)
    requires Valid(disk) && IsPlan(disk, policy, cutoff, plan) && g in plan.objects
    requires id in disk.snapshots && id !in plan.removeSnapshots
    ensures !Uses(id, disk.snapshots[id], g.item)
  {
    assert Garbage(disk, policy, cutoff, g.item);
    assert Rooted(disk, policy, cutoff, id);
  }

  lemma CheckPlanStep(s: State, pid: nat, now: int, t: State)
    requires Inv(s) && Step(s, CheckPlan(pid, now)) == Some(t)
    ensures Inv(t)
  {
    var p := s.processes[pid];
    var cutoff := Cutoff(p.plan.policy, now);
    if IsPlan(s.disk, p.plan.policy, cutoff, p.plan) {
      ProgressIsValid(s.disk, p.plan.policy, cutoff, p.plan, {}, {});
      assert s.disk.files - {} == s.disk.files && s.disk.owned - {} == s.disk.owned;
      assert t.disk == Progress(s.disk, p.plan, {}, {});
      forall g, id | g in p.plan.objects && id in t.disk.snapshots
        ensures !Uses(id, t.disk.snapshots[id], g.item)
      {
        PlannedUnused(s.disk, p.plan.policy, cutoff, p.plan, id, g);
      }
      ExclusiveStep(s, pid, t.disk, Some(t.processes[pid]));
    } else {
      ExclusiveStep(s, pid, s.disk, None);
    }
  }

  lemma CollectorStep(s: State, a: Action, t: State)
    requires Inv(s) && Step(s, a) == Some(t)
    requires a.UnlinkObject? || a.DropRow? || a.Complete?
    ensures Inv(t)
  {
    var p := s.processes[a.pid];
    assert ProcessSafe(s.disk, p);
    if a.UnlinkObject? {
      assert Unused(s.disk, a.g.item);
    }
    StoredKept(s.disk, t.disk);
    if a.Complete? {
      ExclusiveStep(s, a.pid, t.disk, None);
    } else {
      ExclusiveStep(s, a.pid, t.disk, Some(t.processes[a.pid]));
    }
  }

  /** Every action of every process keeps the invariant. */
  lemma StepKeepsInv(s: State, a: Action, t: State)
    requires Inv(s) && Step(s, a) == Some(t)
    ensures Inv(t)
  {
    if a.Start? {
      StartStep(s, a, t);
    } else {
      match a
      case Leave(pid) => assert forall q :: q in t.processes ==> t.processes[q] == s.processes[q];
      case PutSource(_, _) => PublisherStep(s, a, t);
      case RegisterSource(_, _) => PublisherStep(s, a, t);
      case PutShard(_, _) => PublisherStep(s, a, t);
      case RegisterShard(_, _) => PublisherStep(s, a, t);
      case Commit(pid, now) => CommitStep(s, pid, now, t);
      case CheckPin(_) => PinStep(s, a, t);
      case InsertPin(_) => PinStep(s, a, t);
      case DeletePin(_) => PinStep(s, a, t);
      case OpenShard(_) => PinStep(s, a, t);
      case CheckPlan(pid, now) => CheckPlanStep(s, pid, now, t);
      case UnlinkObject(_, _) => CollectorStep(s, a, t);
      case DropRow(_) => CollectorStep(s, a, t);
      case Complete(_) => CollectorStep(s, a, t);
    }
  }

  lemma StartStep(s: State, a: Action, t: State)
    requires Inv(s) && a.Start? && Step(s, a) == Some(t)
    ensures Inv(t)
  {
    forall q | q in t.processes
      ensures ProcessSafe(t.disk, t.processes[q])
    {
      if q != a.pid { assert t.processes[q] == s.processes[q]; }
    }
  }

  // ---- runs ----

  ghost predicate Run(s: State, actions: seq<Action>, t: State)
    decreases |actions|
  {
    if actions == [] then s == t
    else Valid(s.disk) && Step(s, actions[0]).Some? && Run(Step(s, actions[0]).value, actions[1..], t)
  }

  lemma {:induction false} RunKeepsInv(s: State, actions: seq<Action>, t: State)
    requires Inv(s) && Run(s, actions, t)
    ensures Inv(t)
    decreases |actions|
  {
    if actions != [] {
      StepKeepsInv(s, actions[0], Step(s, actions[0]).value);
      RunKeepsInv(Step(s, actions[0]).value, actions[1..], t);
    }
  }

  /** Every row's shard and sources are on disk; heads and pins name rows; open readers keep their objects. */
  ghost predicate Intact(s: State) {
    && (forall id, o :: id in s.disk.snapshots && Uses(id, s.disk.snapshots[id], o) ==> o in s.disk.files)
    && (forall name :: name in s.disk.heads ==> s.disk.heads[name] in s.disk.snapshots)
    && (forall name :: name in s.disk.pins ==> s.disk.pins[name] in s.disk.snapshots)
    && (forall p :: p in s.processes && s.processes[p].Reading? ==> s.processes[p].id in s.disk.snapshots)
  }

  /** Main result: a valid store with no active process stays intact in every run of any processes. */
  lemma EveryRunIsIntact(disk: Disk, actions: seq<Action>, t: State)
    requires Valid(disk) && Run(State(disk, map[]), actions, t)
    ensures Intact(t)
  {
    RunKeepsInv(State(disk, map[]), actions, t);
    forall id, o | id in t.disk.snapshots && Uses(id, t.disk.snapshots[id], o)
      ensures o in t.disk.files
    {
      assert Stored(t.disk, id);
    }
  }

  /** No file disappears under an open reader, and none that a row uses disappears at all. */
  lemma UnlinkSparesReaders(s: State, pid: nat, g: GcObject)
    requires Inv(s) && Step(s, UnlinkObject(pid, g)).Some?
    ensures forall p :: p in s.processes ==> !s.processes[p].Reading? && !s.processes[p].Publishing?
    ensures Unused(s.disk, g.item)
  {
    assert ProcessSafe(s.disk, s.processes[pid]);
    forall p | p in s.processes
      ensures p == pid
    {
    }
  }

  /** Only a collection removes files. */
  lemma OnlyUnlinkRemoves(s: State, a: Action, t: State)
    requires Inv(s) && Step(s, a) == Some(t) && !a.UnlinkObject?
    ensures s.disk.files.Keys <= t.disk.files.Keys
  {
    if a.Commit? {
      assert ProcessSafe(s.disk, s.processes[a.pid]);
      CommitGrows(s, s.processes[a.pid], a.now);
    }
  }

  /** While a reader is open its row and objects survive every step. */
  lemma ReaderKeepsObjects(s: State, a: Action, t: State, reader: nat, o: Object)
    requires Inv(s) && Step(s, a) == Some(t)
    requires reader in s.processes && s.processes[reader].Reading?
    requires s.processes[reader].id in s.disk.snapshots && Uses(s.processes[reader].id, s.disk.snapshots[s.processes[reader].id], o)
    ensures o in t.disk.files
  {
    assert Stored(s.disk, s.processes[reader].id);
    if a.UnlinkObject? {
      UnlinkSparesReaders(s, a.pid, a.g);
    } else {
      OnlyUnlinkRemoves(s, a, t);
    }
  }
}
