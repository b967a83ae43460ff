/** What each process of the store achieves when nobody else runs: the steps do what the operations promise. */
module StoreProgress {
  import opened Wrappers
  import opened Catalog
  import opened Retention
  import opened StoreRuns
  import SnapshotStore

  ghost function Alone(disk: Disk, pid: nat, p: Process): State {
    State(disk, map[pid := p])
  }

  lemma RunSplits(s: State, actions: seq<Action>, t: State) returns (next: State)
    requires Run(s, actions, t) && actions != []
    ensures Valid(s.disk) && Step(s, actions[0]) == Some(next) && Run(next, actions[1..], t)
  {
    next := Step(s, actions[0]).value;
  }

  lemma RunFirst(s: State, a: Action, next: State, rest: seq<Action>, t: State)
    requires Valid(s.disk) && Step(s, a) == Some(next) && Run(next, rest, t)
    ensures Run(s, [a] + rest, t)
  {
    assert ([a] + rest)[0] == a && ([a] + rest)[1..] == rest;
  }

  lemma {:induction false} RunJoins(s: State, first: seq<Action>, middle: State, second: seq<Action>, t: State)
    requires Run(s, first, middle) && Run(middle, second, t)
    ensures Run(s, first + second, t)
    decreases |first|
  {
    if first == [] {
      assert first + second == second;
    } else {
      var next := RunSplits(s, first, middle);
      RunJoins(next, first[1..], middle, second, t);
      RunFirst(s, first[0], next, first[1..] + second, t);
      FirstApart(first, second);
    }
  }

  lemma FirstApart<T>(first: seq<T>, second: seq<T>)
    requires first != []
    ensures [first[0]] + (first[1..] + second) == first + second
  {
    assert [first[0]] + first[1..] == first;
  }

  lemma Replaced(pid: nat, p: Process, q: Process)
    ensures map[pid := p][pid := q] == map[pid := q] && map[pid := p] - {pid} == map[]
  {
  }

  lemma RunOne(s: State, a: Action)
    requires Valid(s.disk) && Step(s, a).Some?
    ensures Run(s, [a], Step(s, a).value)
  {
    assert [a][1..] == [];
  }

  lemma RunTwo(s: State, a: Action, b: Action)
    requires Valid(s.disk) && Step(s, a).Some? && Valid(Step(s, a).value.disk) && Step(Step(s, a).value, b).Some?
    ensures Run(s, [a, b], Step(Step(s, a).value, b).value)
  {
    RunOne(s, a);
    RunOne(Step(s, a).value, b);
    RunJoins(s, [a], Step(s, a).value, [b], Step(Step(s, a).value, b).value);
    assert [a] + [b] == [a, b];
  }

  // ---- publishing ----

  /** The disk once an object is written and registered. */
  ghost function With(disk: Disk, item: Object, identity: FileIdentity, now: int): Disk {
    var put := PutFile(disk, item, identity);
    if item in put.owned then put else put.(owned := put.owned[item := Owned(put.files[item], now)])
  }

  lemma PutIsAccounted(disk: Disk, item: Object, identity: FileIdentity)
    requires SnapshotStore.Accounted(disk)
    ensures SnapshotStore.Accounted(PutFile(disk, item, identity)) && ObjectsAdded(disk, PutFile(disk, item, identity))
  {
  }

  lemma RegisterIsRight(disk: Disk, item: Object, now: int)
    requires SnapshotStore.Accounted(disk) && item in disk.files
    ensures var registered := if item in disk.owned then disk else disk.(owned := disk.owned[item := Owned(disk.files[item], now)]);
      Register(disk, item, now) == Ok(registered) && SnapshotStore.Accounted(registered) && ObjectsAdded(disk, registered)
  {
  }

  lemma WithIsRight(disk: Disk, item: Object, identity: FileIdentity, now: int)
    requires Valid(disk) && SnapshotStore.Accounted(disk)
    ensures Register(PutFile(disk, item, identity), item, now) == Ok(With(disk, item, identity, now))
    ensures Valid(PutFile(disk, item, identity)) && Valid(With(disk, item, identity, now))
    ensures SnapshotStore.Accounted(With(disk, item, identity, now)) && item in With(disk, item, identity, now).files
  {
    PutFileIsValid(disk, item, identity);
    PutIsAccounted(disk, item, identity);
    RegisterIsRight(PutFile(disk, item, identity), item, now);
    RegisterIsValid(PutFile(disk, item, identity), item, now);
  }

  lemma WithAdds(disk: Disk, item: Object, identity: FileIdentity, now: int)
    ensures ObjectsAdded(disk, With(disk, item, identity, now))
  {
  }

  lemma Begins(disk: Disk, pid: nat, p: Process)
    requires Valid(disk) && Fresh(p)
    ensures Run(State(disk, map[]), [Start(pid, p)], Alone(disk, pid, p))
  {
    RunOne(State(disk, map[]), Start(pid, p));
  }

  /** Two steps, given where each of them leads. */
  lemma Twice(s: State, a: Action, middle: State, b: Action, t: State)
    requires Valid(s.disk) && Valid(middle.disk) && Step(s, a) == Some(middle) && Step(middle, b) == Some(t)
    ensures Run(s, [a, b], t)
  {
    RunTwo(s, a, b);
  }

  lemma PutsSource(disk: Disk, pid: nat, p: Process, identity: FileIdentity)
    requires Valid(disk) && p.Publishing? && !p.put && p.sources < |p.facts.files|
    ensures Step(Alone(disk, pid, p), PutSource(pid, identity))
         == Some(Alone(PutFile(disk, Source(p.facts.files[p.sources]), identity), pid, p.(put := true)))
  {
    Replaced(pid, p, p.(put := true));
  }

  lemma RegistersSource(disk: Disk, pid: nat, p: Process, now: int, after: Disk)
    requires Valid(disk) && p.Publishing? && p.put && p.sources < |p.facts.files|
    requires Register(disk, Source(p.facts.files[p.sources]), now) == Ok(after)
    ensures Step(Alone(disk, pid, p), RegisterSource(pid, now)) == Some(Alone(after, pid, p.(sources := p.sources + 1, put := false)))
  {
    Replaced(pid, p, p.(sources := p.sources + 1, put := false));
  }

  lemma WritesSource(disk: Disk, pid: nat, p: Process, identity: FileIdentity, now: int)
    requires Valid(disk) && SnapshotStore.Accounted(disk) && p.Publishing? && !p.put && p.sources < |p.facts.files|
    ensures var next := With(disk, Source(p.facts.files[p.sources]), identity, now);
      Run(Alone(disk, pid, p), [PutSource(pid, identity), RegisterSource(pid, now)], Alone(next, pid, p.(sources := p.sources + 1)))
  {
    var item := Source(p.facts.files[p.sources]);
    var middle, next := PutFile(disk, item, identity), With(disk, item, identity, now);
    WithIsRight(disk, item, identity, now);
    PutsSource(disk, pid, p, identity);
    RegistersSource(middle, pid, p.(put := true), now, next);
    Twice(Alone(disk, pid, p), PutSource(pid, identity), Alone(middle, pid, p.(put := true)), RegisterSource(pid, now),
          Alone(next, pid, p.(sources := p.sources + 1)));
  }

  lemma PutsShard(disk: Disk, pid: nat, p: Process, identity: FileIdentity)
    requires Valid(disk) && p.Publishing? && !p.put && !p.shardReady && p.sources == |p.facts.files|
    ensures Step(Alone(disk, pid, p), PutShard(pid, identity))
         == Some(Alone(PutFile(disk, Shard(p.facts, p.build), identity), pid, p.(put := true)))
  {
    Replaced(pid, p, p.(put := true));
  }

  lemma RegistersShard(disk: Disk, pid: nat, p: Process, now: int, after: Disk)
    requires Valid(disk) && p.Publishing? && p.put && p.sources == |p.facts.files|
    requires Register(disk, Shard(p.facts, p.build), now) == Ok(after)
    ensures Step(Alone(disk, pid, p), RegisterShard(pid, now)) == Some(Alone(after, pid, p.(put := false, shardReady := true)))
  {
    Replaced(pid, p, p.(put := false, shardReady := true));
  }

  lemma WritesShard(disk: Disk, pid: nat, p: Process, identity: FileIdentity, now: int)
    requires Valid(disk) && SnapshotStore.Accounted(disk) && p.Publishing? && !p.put && !p.shardReady && p.sources == |p.facts.files|
    ensures Run(Alone(disk, pid, p), [PutShard(pid, identity), RegisterShard(pid, now)],
                Alone(With(disk, Shard(p.facts, p.build), identity, now), pid, p.(shardReady := true)))
  {
    var item := Shard(p.facts, p.build);
    var middle, next := PutFile(disk, item, identity), With(disk, item, identity, now);
    WithIsRight(disk, item, identity, now);
    PutsShard(disk, pid, p, identity);
    RegistersShard(middle, pid, p.(put := true), now, next);
    Twice(Alone(disk, pid, p), PutShard(pid, identity), Alone(middle, pid, p.(put := true)), RegisterShard(pid, now),
          Alone(next, pid, p.(shardReady := true)));
  }

  lemma Commits(disk: Disk, pid: nat, p: Process, now: int)
    requires Valid(disk) && p.Publishing? && p.shardReady
    requires CommitPublication(disk, p.facts, Shard(p.facts, p.build), p.head, p.expected, now).Ok?
    ensures Run(Alone(disk, pid, p), [Commit(pid, now)],
                State(CommitPublication(disk, p.facts, Shard(p.facts, p.build), p.head, p.expected, now).value, map[]))
  {
    RunOne(Alone(disk, pid, p), Commit(pid, now));
    assert map[pid := p] - {pid} == map[];
  }

  lemma AddedTwice(a: Disk, b: Disk, c: Disk)
    requires ObjectsAdded(a, b) && ObjectsAdded(b, c)
    ensures ObjectsAdded(a, c)
  {
  }

  lemma SourceKept(before: Disk, after: Disk, facts: Facts, k: nat)
    requires ObjectsAdded(before, after) && k < |facts.files| && Source(facts.files[k]) in before.files
    requires forall j :: k < j < |facts.files| ==> Source(facts.files[j]) in after.files
    ensures forall j :: k <= j < |facts.files| ==> Source(facts.files[j]) in after.files
  {
  }

  lemma {:induction false} WritesSources(disk: Disk, pid: nat, p: Process, identity: FileIdentity, now: int)
    returns (actions: seq<Action>, t: Disk)
    requires Valid(disk) && SnapshotStore.Accounted(disk) && p.Publishing? && !p.put && !p.shardReady && p.sources <= |p.facts.files|
    ensures Run(Alone(disk, pid, p), actions, Alone(t, pid, p.(sources := |p.facts.files|)))
    ensures Valid(t) && SnapshotStore.Accounted(t) && ObjectsAdded(disk, t)
    ensures forall k :: p.sources <= k < |p.facts.files| ==> Source(p.facts.files[k]) in t.files
    decreases |p.facts.files| - p.sources
  {
    if p.sources == |p.facts.files| {
      actions, t := [], disk;
    } else {
      var item := Source(p.facts.files[p.sources]);
      var next, q := With(disk, item, identity, now), p.(sources := p.sources + 1);
      WithIsRight(disk, item, identity, now);
      WithAdds(disk, item, identity, now);
      WritesSource(disk, pid, p, identity, now);
      var rest;
      rest, t := WritesSources(next, pid, q, identity, now);
      AddedTwice(disk, next, t);
      SourceKept(next, t, p.facts, p.sources);
      actions := [PutSource(pid, identity), RegisterSource(pid, now)] + rest;
      RunJoins(Alone(disk, pid, p), [PutSource(pid, identity), RegisterSource(pid, now)], Alone(next, pid, q), rest,
               Alone(t, pid, q.(sources := |p.facts.files|)));
    }
  }

  /** A publication that nothing disturbs, under a head that allows it, publishes. */
  lemma PublisherPublishes(disk: Disk, pid: nat, facts: Facts, build: nat, head: string, expected: Option<SnapshotId>,
                           identity: FileIdentity, now: int)
    returns (actions: seq<Action>, t: Disk)
    requires Valid(disk) && SnapshotStore.Accounted(disk) && HeadAllows(disk, facts, head, expected)
    ensures Run(State(disk, map[]), actions, State(t, map[]))
    ensures Published(disk, t, facts, Shard(facts, build), head, now)
    ensures forall o :: Uses(facts, Shard(facts, build), o) ==> o in t.files
  {
    var begun := Publishing(facts, head, expected, build, 0, false, false);
    var start, written, shard := State(disk, map[]), begun.(sources := |facts.files|), Shard(facts, build);
    Begins(disk, pid, begun);
    var writes, sources := WritesSources(disk, pid, begun, identity, now);
    RunJoins(start, [Start(pid, begun)], Alone(disk, pid, begun), writes, Alone(sources, pid, written));
    var stored, ready := With(sources, shard, identity, now), written.(shardReady := true);
    WithIsRight(sources, shard, identity, now);
    WithAdds(sources, shard, identity, now);
    AddedTwice(disk, sources, stored);
    WritesShard(sources, pid, written, identity, now);
    var first, second := [Start(pid, begun)] + writes, [PutShard(pid, identity), RegisterShard(pid, now)];
    RunJoins(start, first, Alone(sources, pid, written), second, Alone(stored, pid, ready));
    CommitPublishes(disk, stored, facts, shard, head, expected, now);
    t := CommitPublication(stored, facts, shard, head, expected, now).value;
    Commits(stored, pid, ready, now);
    RunJoins(start, first + second, Alone(stored, pid, ready), [Commit(pid, now)], State(t, map[]));
    actions := first + second + [Commit(pid, now)];
  }

  // ---- collecting ----

  lemma Unlinks(disk: Disk, pid: nat, plan: Plan, remaining: set<GcObject>, g: GcObject)
    requires Valid(disk) && g in remaining
    ensures Step(Alone(disk, pid, Collecting(plan, Removing(remaining, None))), UnlinkObject(pid, g))
         == Some(Alone(if g.present then Unlink(disk, g.item) else disk, pid, Collecting(plan, Removing(remaining - {g}, Some(g)))))
  {
    Replaced(pid, Collecting(plan, Removing(remaining, None)), Collecting(plan, Removing(remaining - {g}, Some(g))));
  }

  lemma DropsRow(disk: Disk, pid: nat, plan: Plan, remaining: set<GcObject>, g: GcObject)
    requires Valid(disk)
    ensures Step(Alone(disk, pid, Collecting(plan, Removing(remaining, Some(g)))), DropRow(pid))
         == Some(Alone(DropOwned(disk, g.item), pid, Collecting(plan, Removing(remaining, None))))
  {
    Replaced(pid, Collecting(plan, Removing(remaining, Some(g))), Collecting(plan, Removing(remaining, None)));
  }

  lemma RemovesOne(start: Disk, pid: nat, policy: Policy, cutoff: int, plan: Plan, removed: set<Object>, remaining: set<GcObject>, g: GcObject)
    requires Valid(start) && IsPlan(start, policy, cutoff, plan) && remaining <= plan.objects && g in remaining
    requires removed <= PlannedObjects(plan)
    ensures Run(Alone(Progress(start, plan, removed, removed), pid, Collecting(plan, Removing(remaining, None))),
                [UnlinkObject(pid, g), DropRow(pid)],
                Alone(Progress(start, plan, removed + {g.item}, removed + {g.item}), pid, Collecting(plan, Removing(remaining - {g}, None))))
  {
    var before, after := Progress(start, plan, removed, removed), Progress(start, plan, removed + {g.item}, removed + {g.item});
    var unlinked := Progress(start, plan, removed + {g.item}, removed);
    SnapshotStore.UnlinkStep(start, policy, cutoff, plan, removed, g);
    ProgressIsValid(start, policy, cutoff, plan, removed, removed);
    ProgressIsValid(start, policy, cutoff, plan, removed + {g.item}, removed);
    Unlinks(before, pid, plan, remaining, g);
    DropsRow(unlinked, pid, plan, remaining - {g}, g);
    Twice(Alone(before, pid, Collecting(plan, Removing(remaining, None))), UnlinkObject(pid, g),
          Alone(unlinked, pid, Collecting(plan, Removing(remaining - {g}, Some(g)))), DropRow(pid),
          Alone(after, pid, Collecting(plan, Removing(remaining - {g}, None))));
  }

  ghost function Handled(plan: Plan, remaining: set<GcObject>): set<Object> {
    set g | g in plan.objects && g !in remaining :: g.item
  }

  lemma OneHandled(plan: Plan, remaining: set<GcObject>, g: GcObject)
    requires g in remaining && remaining <= plan.objects
    ensures Handled(plan, remaining - {g}) == Handled(plan, remaining) + {g.item}
    ensures Handled(plan, remaining) <= PlannedObjects(plan)
  {
  }

  /** The collector after some objects have been handled. */
  ghost function Collected(start: Disk, pid: nat, plan: Plan, remaining: set<GcObject>): State {
    Alone(Progress(start, plan, Handled(plan, remaining), Handled(plan, remaining)), pid, Collecting(plan, Removing(remaining, None)))
  }

  lemma {:induction false} RemovesObjects(start: Disk, pid: nat, policy: Policy, cutoff: int, plan: Plan, remaining: set<GcObject>)
    returns (actions: seq<Action>)
    requires Valid(start) && IsPlan(start, policy, cutoff, plan) && remaining <= plan.objects
    ensures Run(Collected(start, pid, plan, remaining), actions, Collected(start, pid, plan, {}))
    decreases |remaining|
  {
    if remaining == {} {
      actions := [];
    } else {
      var g :| g in remaining;
      OneHandled(plan, remaining, g);
      RemovesOne(start, pid, policy, cutoff, plan, Handled(plan, remaining), remaining, g);
      var rest := RemovesObjects(start, pid, policy, cutoff, plan, remaining - {g});
      actions := [UnlinkObject(pid, g), DropRow(pid)] + rest;
      RunJoins(Collected(start, pid, plan, remaining), [UnlinkObject(pid, g), DropRow(pid)],
               Collected(start, pid, plan, remaining - {g}), rest, Collected(start, pid, plan, {}));
    }
  }

  lemma ChecksPlan(disk: Disk, pid: nat, plan: Plan, now: int)
    requires Valid(disk) && IsPlan(disk, plan.policy, Cutoff(plan.policy, now), plan) && !Completed(disk, plan)
    ensures Run(Alone(disk, pid, Collecting(plan, Checking)), [CheckPlan(pid, now)], Collected(disk, pid, plan, plan.objects))
  {
    SnapshotStore.RunStarts(disk, plan.policy, Cutoff(plan.policy, now), plan);
    assert Handled(plan, plan.objects) == {};
    PassesCheck(disk, pid, plan, now);
    RunOne(Alone(disk, pid, Collecting(plan, Checking)), CheckPlan(pid, now));
  }

  lemma PassesCheck(disk: Disk, pid: nat, plan: Plan, now: int)
    requires Valid(disk) && IsPlan(disk, plan.policy, Cutoff(plan.policy, now), plan) && !Completed(disk, plan)
    ensures Step(Alone(disk, pid, Collecting(plan, Checking)), CheckPlan(pid, now))
         == Some(Alone(RemoveSnapshots(disk, plan), pid, Collecting(plan, Removing(plan.objects, None))))
  {
    Replaced(pid, Collecting(plan, Checking), Collecting(plan, Removing(plan.objects, None)));
  }

  lemma Completes(disk: Disk, pid: nat, plan: Plan, now: int)
    requires Valid(disk) && IsPlan(disk, plan.policy, Cutoff(plan.policy, now), plan)
    ensures Run(Collected(disk, pid, plan, {}), [Complete(pid)], State(Finished(disk, plan), map[]))
  {
    assert Handled(plan, {}) == PlannedObjects(plan);
    ProgressIsValid(disk, plan.policy, Cutoff(plan.policy, now), plan, PlannedObjects(plan), PlannedObjects(plan));
    RunOne(Collected(disk, pid, plan, {}), Complete(pid));
    assert Collected(disk, pid, plan, {}).processes - {pid} == map[];
  }

  /** A collection of a current plan that nothing disturbs ends with the finished disk. */
  lemma CollectorFinishes(disk: Disk, pid: nat, plan: Plan, now: int) returns (actions: seq<Action>)
    requires Valid(disk) && IsPlan(disk, plan.policy, Cutoff(plan.policy, now), plan) && !Completed(disk, plan)
    ensures Run(State(disk, map[]), actions, State(Finished(disk, plan), map[]))
  {
    var start, checking := State(disk, map[]), Alone(disk, pid, Collecting(plan, Checking));
    var collecting, done := Collected(disk, pid, plan, plan.objects), Collected(disk, pid, plan, {});
    Begins(disk, pid, Collecting(plan, Checking));
    ChecksPlan(disk, pid, plan, now);
    var first := [Start(pid, Collecting(plan, Checking))] + [CheckPlan(pid, now)];
    RunJoins(start, [Start(pid, Collecting(plan, Checking))], checking, [CheckPlan(pid, now)], collecting);
    var rest := RemovesObjects(disk, pid, plan.policy, Cutoff(plan.policy, now), plan, plan.objects);
    RunJoins(start, first, collecting, rest, done);
    Completes(disk, pid, plan, now);
    RunJoins(start, first + rest, done, [Complete(pid)], State(Finished(disk, plan), map[]));
    actions := first + rest + [Complete(pid)];
  }

  // ---- pins and readers ----

  lemma ChecksPin(disk: Disk, pid: nat, name: string, id: SnapshotId)
    requires Valid(disk) && id in disk.snapshots
    ensures Step(Alone(disk, pid, Pinning(name, id, false)), CheckPin(pid)) == Some(Alone(disk, pid, Pinning(name, id, true)))
  {
    Replaced(pid, Pinning(name, id, false), Pinning(name, id, true));
  }

  lemma InsertsPin(disk: Disk, pid: nat, name: string, id: SnapshotId)
    requires Valid(disk) && id in disk.snapshots && (|disk.pins| < 4096 || name in disk.pins)
    ensures Step(Alone(disk, pid, Pinning(name, id, true)), InsertPin(pid)) == Some(State(disk.(pins := disk.pins[name := id]), map[]))
  {
    Replaced(pid, Pinning(name, id, true), Pinning(name, id, true));
  }

  /** Alone, a pin of an existing snapshot is set. */
  lemma PinIsSet(disk: Disk, pid: nat, name: string, id: SnapshotId)
    requires Valid(disk) && id in disk.snapshots && (|disk.pins| < 4096 || name in disk.pins)
    ensures Run(Alone(disk, pid, Pinning(name, id, false)), [CheckPin(pid), InsertPin(pid)],
                State(disk.(pins := disk.pins[name := id]), map[]))
  {
    ChecksPin(disk, pid, name, id);
    InsertsPin(disk, pid, name, id);
    Twice(Alone(disk, pid, Pinning(name, id, false)), CheckPin(pid), Alone(disk, pid, Pinning(name, id, true)), InsertPin(pid),
          State(disk.(pins := disk.pins[name := id]), map[]));
  }

  /** An unpin removes the name, and a reader of a row opens. */
  lemma NamesAndReaders(disk: Disk, pid: nat, name: string, id: SnapshotId)
    requires Valid(disk)
    ensures Run(Alone(disk, pid, Unpinning(name)), [DeletePin(pid)], State(disk.(pins := disk.pins - {name}), map[]))
    ensures id in disk.snapshots ==> Run(Alone(disk, pid, Opening(id)), [OpenShard(pid)], Alone(disk, pid, Reading(id)))
  {
    RunOne(Alone(disk, pid, Unpinning(name)), DeletePin(pid));
    assert map[pid := Unpinning(name)] - {pid} == map[];
    if id in disk.snapshots { RunOne(Alone(disk, pid, Opening(id)), OpenShard(pid)); }
  }
}
