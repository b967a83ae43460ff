/** The store operations, each run by one process under its lease, with injected failures. */
module SnapshotStore {
  import opened Wrappers
  import opened Catalog
  import opened Retention

  /** Every ownership row describes a present file. */
  ghost predicate Accounted(disk: Disk) {
    forall item :: item in disk.owned ==> item in disk.files && disk.owned[item].identity == disk.files[item]
  }

  /** What a publication answers, stage by stage, while every ownership row describes its file. */
  ghost function PublishOutcome(disk: Disk, facts: Facts, head: string, expected: Option<SnapshotId>, failAfter: Option<nat>): Result<SnapshotId, Error> {
    if head == "" || |head| > 256 then Err(Invalid)
    else if failAfter == Some(1) || failAfter == Some(2) then Err(InjectedFailure)
    else if !HeadAllows(disk, facts, head, expected) then Err(Conflict)
    else if failAfter.Some? && 3 <= failAfter.value <= 5 then Err(InjectedFailure)
    else Ok(facts)
  }

  /** Only objects of the facts were written, and what was registered is dated now. */
  ghost predicate WritesOnly(before: Disk, after: Disk, facts: Facts, build: nat, now: int) {
    && (forall o :: o in after.files && o !in before.files ==> Uses(facts, Shard(facts, build), o))
    && (forall o :: o in after.owned && o !in before.owned ==> Uses(facts, Shard(facts, build), o) && after.owned[o].createdAt == now)
  }

  /** Every object of the facts is on disk and registered. */
  ghost predicate Holds(disk: Disk, facts: Facts, build: nat) {
    forall o :: Uses(facts, Shard(facts, build), o) ==> o in disk.files && o in disk.owned
  }

  lemma ShardWritten(before: Disk, sources: Disk, after: Disk, facts: Facts, build: nat, now: int)
    requires WritesOnly(before, sources, facts, build, now) && ObjectsAdded(sources, after)
    requires forall o :: o in after.files && o !in sources.files ==> o == Shard(facts, build)
    requires forall o :: o in after.owned && o !in sources.owned ==> o == Shard(facts, build) && after.owned[o].createdAt == now
    ensures WritesOnly(before, after, facts, build, now)
  {
  }

  class Store {
    var disk: Disk

    /** A store without snapshots. */
    constructor ()
      ensures Valid() && disk.snapshots == map[] && disk.files == map[]
    {
      disk := Disk(map[], map[], map[], map[], 0, map[], map[], map[], {});
    }

    ghost predicate Valid()
      reads this
    {
      Catalog.Valid(disk)
    }

    /** Writes one object unless it exists and registers it. identity is what the file system assigns.
        Registration fails only on an ownership row that does not describe the file. */
    method WriteObject(item: Object, identity: FileIdentity, now: int) returns (result: Result<(), Error>)
      requires Valid()
      modifies this
      ensures Valid() && ObjectsAdded(old(disk), disk)
      ensures disk.files == PutFile(old(disk), item, identity).files
      ensures result.Ok? <==> item !in old(disk).owned || old(disk).owned[item].identity == disk.files[item]
      ensures disk.owned == if item in old(disk).owned then old(disk).owned
                            else old(disk).owned[item := Owned(disk.files[item], now)]
      ensures result.Err? ==> result.error == Unavailable
      ensures Accounted(old(disk)) ==> result.Ok? && Accounted(disk)
    {
      PutFileIsValid(disk, item, identity);
      if item !in disk.files {
        disk := disk.(files := disk.files[item := identity]);
      }
      var registered := Register(disk, item, now);
      if registered.Err? { return Err(registered.error); }
      RegisterIsValid(disk, item, now);
      disk := registered.value;
      return Ok(());
    }

    /** Writes every source of the facts. identities is what the file system assigns, file by file. */
    method WriteSources(facts: Facts, ghost build: nat, identities: seq<FileIdentity>, now: int) returns (result: Result<(), Error>)
      requires Valid() && |identities| == |facts.files|
      modifies this
      ensures Valid() && ObjectsAdded(old(disk), disk)
      ensures WritesOnly(old(disk), disk, facts, build, now)
      ensures result.Ok? ==> forall k :: 0 <= k < |facts.files| ==> Source(facts.files[k]) in disk.files && Source(facts.files[k]) in disk.owned
      ensures result.Err? ==> result.error == Unavailable
      ensures Accounted(old(disk)) ==> result.Ok? && Accounted(disk)
    {
      for i := 0 to |facts.files|
        invariant Valid() && ObjectsAdded(old(disk), disk)
        invariant Accounted(old(disk)) ==> Accounted(disk)
        invariant WritesOnly(old(disk), disk, facts, build, now)
        invariant forall k :: 0 <= k < i ==> Source(facts.files[k]) in disk.files && Source(facts.files[k]) in disk.owned
      {
        result := WriteObject(Source(facts.files[i]), identities[i], now);
        if result.Err? { return; }
      }
      return Ok(());
    }

    /** The catalog transaction; failure stages 3 and 4 roll it back, stage 5 comes after it. */
    method MoveHead(facts: Facts, shard: Object, head: string, expected: Option<SnapshotId>, failAfter: Option<nat>, now: int)
      returns (result: Result<SnapshotId, Error>)
      requires Valid() && shard.Shard? && shard.facts == facts
      requires forall o :: Uses(facts, shard, o) ==> o in disk.files
      modifies this
      ensures Valid()
      ensures result.Ok? || (result == Err(InjectedFailure) && failAfter == Some(5)) ==>
        CommitPublication(old(disk), facts, shard, head, expected, now) == Ok(disk)
      ensures result.Err? && failAfter != Some(5) ==> disk == old(disk)
      ensures result.Ok? ==> result.value == facts
      ensures result == Err(Conflict) <==> CommitPublication(old(disk), facts, shard, head, expected, now).Err?
      ensures result.Err? ==> result.error == Conflict || result.error == InjectedFailure
      ensures result == Err(Conflict) ==> disk == old(disk)
      ensures result == Err(InjectedFailure) <==>
        CommitPublication(old(disk), facts, shard, head, expected, now).Ok? && failAfter.Some? && 3 <= failAfter.value <= 5
    {
      var committed := CommitPublication(disk, facts, shard, head, expected, now);
      if committed.Err? { return Err(committed.error); }
      if failAfter == Some(3) || failAfter == Some(4) { return Err(InjectedFailure); }
      CommitIsValid(disk, facts, shard, head, expected, now);
      disk := committed.value;
      return if failAfter == Some(5) then Err(InjectedFailure) else Ok(facts);
    }

    /** Publishes validated facts under a head. Failure stages 1 to 5 are where the source injects them. */
    method Publish(facts: Facts, build: nat, head: string, expected: Option<SnapshotId>, failAfter: Option<nat>,
                   identities: seq<FileIdentity>, shardIdentity: FileIdentity, now: int)
      returns (result: Result<SnapshotId, Error>)
      requires Valid() && |identities| == |facts.files|
      modifies this
      ensures Valid()
      ensures result == PublishOutcome(old(disk), facts, head, expected, failAfter)
        || (result == Err(Unavailable) && !Accounted(old(disk)))
      ensures result.Ok? || (result == Err(InjectedFailure) && failAfter == Some(5)) ==>
        HeadAllows(old(disk), facts, head, expected) && Published(old(disk), disk, facts, Shard(facts, build), head, now)
      ensures result.Err? && !(result.error == InjectedFailure && failAfter == Some(5)) ==> ObjectsAdded(old(disk), disk)
      ensures WritesOnly(old(disk), disk, facts, build, now)
      ensures result.Ok? ==> Holds(disk, facts, build)
    {
      if head == "" || |head| > 256 { return Err(Invalid); }
      var written := WriteObjects(facts, build, failAfter, identities, shardIdentity, now);
      if written.Err? { return Err(written.error); }
      CommitPublishes(old(disk), disk, facts, Shard(facts, build), head, expected, now);
      result := MoveHead(facts, Shard(facts, build), head, expected, failAfter, now);
    }

    /** The sources, then the shard; failure stage 1 comes between them and stage 2 after both. */
    method WriteObjects(facts: Facts, build: nat, failAfter: Option<nat>, identities: seq<FileIdentity>, shardIdentity: FileIdentity, now: int)
      returns (result: Result<(), Error>)
      requires Valid() && |identities| == |facts.files|
      modifies this
      ensures Valid() && ObjectsAdded(old(disk), disk) && WritesOnly(old(disk), disk, facts, build, now)
      ensures result == (if failAfter == Some(1) || failAfter == Some(2) then Err(InjectedFailure) else Ok(()))
        || (result == Err(Unavailable) && !Accounted(old(disk)))
      ensures result.Ok? ==> Holds(disk, facts, build)
    {
      var written := WriteSources(facts, build, identities, now);
      if written.Err? { return written; }
      if failAfter == Some(1) { return Err(InjectedFailure); }
      ghost var sources := disk;
      written := WriteObject(Shard(facts, build), shardIdentity, now);
      ShardWritten(old(disk), sources, disk, facts, build, now);
      if written.Err? { return written; }
      if failAfter == Some(2) { return Err(InjectedFailure); }
      return Ok(());
    }

    method Pin(id: SnapshotId, name: string) returns (result: Result<(), Error>)
      requires Valid()
      modifies this
      ensures Valid()
      ensures result.Ok? ==> id in disk.snapshots && disk == old(disk).(pins := old(disk).pins[name := id])
      ensures result.Err? ==> disk == old(disk)
      ensures result == Err(Invalid) <==> !(1 <= |name| <= 256)
      ensures result == Err(UnknownSnapshot) <==> 1 <= |name| <= 256 && id !in old(disk).snapshots
      ensures result.Err? && 1 <= |name| <= 256 && id in old(disk).snapshots ==> result.error == BudgetExhausted
      ensures result.Ok? <==> 1 <= |name| <= 256 && id in old(disk).snapshots
                              && (|old(disk).pins| < 4096 || name in old(disk).pins)
    {
      if name == "" || |name| > 256 { return Err(Invalid); }
      if id !in disk.snapshots { return Err(UnknownSnapshot); }
      var pinned := CommitPin(disk, name, id);
      if pinned.Err? { return Err(pinned.error); }
      StoredKept(disk, pinned.value);
      disk := pinned.value;
      return Ok(());
    }

    method Unpin(name: string) returns (removed: bool)
      requires Valid()
      modifies this
      ensures Valid() && disk == old(disk).(pins := old(disk).pins - {name})
      ensures removed <==> name in old(disk).pins
    {
      removed := name in disk.pins;
      StoredKept(disk, DropPin(disk, name));
      disk := DropPin(disk, name);
    }

    /** Opening a reader succeeds exactly for catalog rows: their shard is there to be verified. */
    method OpenReader(id: SnapshotId) returns (shard: Result<Object, Error>)
      requires Valid()
      ensures shard.Ok? <==> id in disk.snapshots
      ensures shard.Ok? ==>
        shard.value.Shard? && shard.value.facts == id
        && forall o :: Uses(id, shard.value, o) ==> o in disk.files
    {
      if id !in disk.snapshots { return Err(UnknownSnapshot); }
      assert Stored(disk, id);
      return Ok(disk.snapshots[id]);
    }

    method GcPlan(policy: Policy, now: int) returns (plan: Result<Plan, Error>)
      requires Valid()
      ensures plan.Ok? <==> PlanPossible(disk, policy, Cutoff(policy, now))
      ensures plan.Ok? ==> IsPlan(disk, policy, Cutoff(policy, now), plan.value)
      ensures plan.Ok? ==> RespectsGrace(disk, policy, now, plan.value) && DescribesObjects(disk, plan.value)
    {
      plan := MakePlan(disk, policy, now);
    }

    /** Refuses a plan that planning would not produce now. */
    method CheckCurrent(plan: Plan, now: int) returns (result: Result<(), Error>)
      requires Valid()
      ensures result.Ok? <==> Current(disk, plan, now)
      ensures result.Err? ==> result.error != InjectedFailure
    {
      var current := MakePlan(disk, plan.policy, now);
      if current.Err? { return Err(current.error); }
      CurrentIffPlanned(disk, plan, now, current.value);
      return if current.value == plan then Ok(()) else Err(Unavailable);
    }

    /** Carries out a current plan: one transaction, then the objects. */
    method RunPlan(plan: Plan, ghost now: int, failAfter: GcFailure) returns (result: Result<(), Error>)
      requires Valid() && Current(disk, plan, now)
      modifies this
      ensures Valid()
      ensures result == if Fires(plan, failAfter) then Err(InjectedFailure) else Ok(())
      ensures result.Ok? ==> disk == Finished(old(disk), plan)
      ensures result.Err? ==> CrashedRun(old(disk), plan, disk)
      ensures failAfter == AfterCommit ==> disk == RemoveSnapshots(old(disk), plan)
    {
      ghost var start, cutoff := disk, Cutoff(plan.policy, now);
      RunStarts(start, plan.policy, cutoff, plan);
      disk := RemoveSnapshots(disk, plan);
      if failAfter == AfterCommit { return Err(InjectedFailure); }
      result := RemoveObjects(plan, start, cutoff, failAfter);
    }

    /** Runs a plan: a completed run is replayed, a stale plan refused, a current one carried out. */
    method GcExecute(plan: Plan, now: int, failAfter: GcFailure) returns (result: Result<(), Error>)
      requires Valid()
      modifies this
      ensures Valid() && GcRun(old(disk), plan, now, failAfter, result, disk)
    {
      if plan in disk.completedRuns && disk.completedRuns[plan] { return Ok(()); }
      result := CheckCurrent(plan, now);
      if result.Ok? {
        result := RunPlan(plan, now, failAfter);
      }
    }

    /** Unlinks each planned object that was present, then drops its row; the last step completes the run. */
    method RemoveObjects(plan: Plan, ghost start: Disk, ghost cutoff: int, failAfter: GcFailure) returns (result: Result<(), Error>)
      requires Valid() && Catalog.Valid(start) && IsPlan(start, plan.policy, cutoff, plan)
      requires disk == Progress(start, plan, {}, {})
      requires failAfter != AfterCommit
      modifies this
      ensures Valid()
      ensures result == if Fires(plan, failAfter) then Err(InjectedFailure) else Ok(())
      ensures result.Ok? ==> disk == Finished(start, plan)
      ensures result.Err? ==> CrashedRun(start, plan, disk)
    {
      ghost var removed: set<Object> := {};
      var pending := plan.objects;
      while pending != {}
        invariant failAfter == NoFailure || pending == plan.objects
        invariant pending <= plan.objects && removed <= PlannedObjects(plan)
        invariant disk == Progress(start, plan, removed, removed)
        invariant forall g :: g in plan.objects && g !in pending ==> g.item in removed
      {
        var g :| g in pending;
        UnlinkStep(start, plan.policy, cutoff, plan, removed, g);
        if g.present {
          disk := Unlink(disk, g.item);
        }
        ProgressIsValid(start, plan.policy, cutoff, plan, removed + {g.item}, removed);
        if failAfter == AfterUnlink {
          assert Interrupted(start, plan, disk, removed + {g.item}, removed);
          return Err(InjectedFailure);
        }
        disk := DropOwned(disk, g.item);
        removed := removed + {g.item};
        pending := pending - {g};
      }
      assert removed == PlannedObjects(plan);
      ProgressIsValid(start, plan.policy, cutoff, plan, removed, removed);
      StoredKept(disk, CompleteRun(disk, plan));
      disk := CompleteRun(disk, plan);
      return Ok(());
    }
  }

  lemma RunStarts(start: Disk, policy: Policy, cutoff: int, plan: Plan)
    requires Catalog.Valid(start) && IsPlan(start, policy, cutoff, plan)
    ensures RemoveSnapshots(start, plan) == Progress(start, plan, {}, {})
    ensures Catalog.Valid(RemoveSnapshots(start, plan)) && CrashedRun(start, plan, RemoveSnapshots(start, plan))
  {
    ProgressIsValid(start, policy, cutoff, plan, {}, {});
    assert start.files - {} == start.files && start.owned - {} == start.owned;
    assert Interrupted(start, plan, RemoveSnapshots(start, plan), {}, {});
  }

  /** One object of a run: unlinking it if present, then dropping its row. */
  lemma UnlinkStep(start: Disk, policy: Policy, cutoff: int, plan: Plan, removed: set<Object>, g: GcObject)
    requires Catalog.Valid(start) && IsPlan(start, policy, cutoff, plan) && g in plan.objects
    ensures var before := Progress(start, plan, removed, removed);
      var unlinked := if g.present then Unlink(before, g.item) else before;
      && unlinked == Progress(start, plan, removed + {g.item}, removed)
      && DropOwned(unlinked, g.item) == Progress(start, plan, removed + {g.item}, removed + {g.item})
    ensures g.item in PlannedObjects(plan)
  {
    assert g == Planned(start, g.item);
    assert (start.files - removed) - {g.item} == start.files - (removed + {g.item});
    if !g.present {
      assert start.files - removed == start.files - (removed + {g.item});
    }
    assert (start.owned - removed) - {g.item} == start.owned - (removed + {g.item});
  }
}
