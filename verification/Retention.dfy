/** Garbage collection: what planning computes, what a run does, and why a crashed run can be redone. */
module Retention {
  import opened Wrappers
  import opened Catalog
  import opened Sums

  // ---- collecting roots ----

  type Roots = map<SnapshotId, set<Reason>>

  ghost predicate Has(roots: Roots, id: SnapshotId, reason: Reason) {
    id in roots && reason in roots[id]
  }

  ghost predicate NoEmptyRoot(roots: Roots) {
    forall id :: id in roots ==> roots[id] != {}
  }

  function AddReason(roots: Roots, id: SnapshotId, reason: Reason): (added: Roots)
    ensures forall i, r :: Has(added, i, r) <==> Has(roots, i, r) || (i == id && r == reason)
    ensures NoEmptyRoot(roots) ==> NoEmptyRoot(added)
  {
    roots[id := (if id in roots then roots[id] else {}) + {reason}]
  }

  /** The reasons collected once some heads, pins, additional roots and snapshots have been scanned. */
  ghost predicate Collected(disk: Disk, policy: Policy, cutoff: int,
                            heads: set<string>, pins: set<string>, extra: set<SnapshotId>, scanned: set<SnapshotId>,
                            id: SnapshotId, reason: Reason)
    requires Valid(disk)
  {
    match reason
    case HeadRoot(name) => name in heads && name in disk.heads && disk.heads[name] == id
    case PinRoot(name) => name in pins && name in disk.pins && disk.pins[name] == id
    case AdditionalRoot => id in extra
    case _ => id in scanned && KeptFor(disk, policy, cutoff, id, reason)
  }

  ghost predicate RootsAre(roots: Roots, disk: Disk, policy: Policy, cutoff: int,
                           heads: set<string>, pins: set<string>, extra: set<SnapshotId>, scanned: set<SnapshotId>)
    requires Valid(disk)
  {
    NoEmptyRoot(roots)
    && forall id, reason :: Has(roots, id, reason) <==>
         Collected(disk, policy, cutoff, heads, pins, extra, scanned, id, reason)
  }

  method CollectHeads(disk: Disk, ghost policy: Policy, ghost cutoff: int) returns (roots: Roots)
    requires Valid(disk)
    ensures RootsAre(roots, disk, policy, cutoff, disk.heads.Keys, {}, {}, {})
  {
    roots := map[];
    var pending := disk.heads.Keys;
    while pending != {}
      invariant pending <= disk.heads.Keys
      invariant RootsAre(roots, disk, policy, cutoff, disk.heads.Keys - pending, {}, {}, {})
    {
      var name :| name in pending;
      roots := AddReason(roots, disk.heads[name], HeadRoot(name));
      pending := pending - {name};
    }
    assert disk.heads.Keys - pending == disk.heads.Keys;
  }

  method CollectNames(disk: Disk, ghost policy: Policy, ghost cutoff: int) returns (roots: Roots)
    requires Valid(disk)
    ensures RootsAre(roots, disk, policy, cutoff, disk.heads.Keys, disk.pins.Keys, {}, {})
  {
    roots := CollectHeads(disk, policy, cutoff);
    var pending := disk.pins.Keys;
    while pending != {}
      invariant pending <= disk.pins.Keys
      invariant RootsAre(roots, disk, policy, cutoff, disk.heads.Keys, disk.pins.Keys - pending, {}, {})
    {
      var name :| name in pending;
      roots := AddReason(roots, disk.pins[name], PinRoot(name));
      pending := pending - {name};
    }
    assert disk.pins.Keys - pending == disk.pins.Keys;
  }

  method CollectAdditional(disk: Disk, policy: Policy, ghost cutoff: int, named: Roots) returns (result: Result<Roots, Error>)
    requires Valid(disk) && RootsAre(named, disk, policy, cutoff, disk.heads.Keys, disk.pins.Keys, {}, {})
    ensures result.Ok? <==> policy.additionalRoots <= disk.snapshots.Keys
    ensures result.Ok? ==>
      RootsAre(result.value, disk, policy, cutoff, disk.heads.Keys, disk.pins.Keys, policy.additionalRoots, {})
    ensures result.Err? ==> result.error == UnknownSnapshot
  {
    var roots, pending := named, policy.additionalRoots;
    while pending != {}
      invariant pending <= policy.additionalRoots
      invariant policy.additionalRoots - pending <= disk.snapshots.Keys
      invariant RootsAre(roots, disk, policy, cutoff, disk.heads.Keys, disk.pins.Keys, policy.additionalRoots - pending, {})
    {
      var id :| id in pending;
      if id !in disk.snapshots { return Err(UnknownSnapshot); }
      roots := AddReason(roots, id, AdditionalRoot);
      pending := pending - {id};
    }
    assert policy.additionalRoots - pending == policy.additionalRoots;
    return Ok(roots);
  }

  // ---- recency ----

  predicate Newest(disk: Disk, pending: set<SnapshotId>, id: SnapshotId) {
    id in pending && id in disk.generations
    && forall t :: t in pending && t in disk.generations ==> disk.generations[t].sequence <= disk.generations[id].sequence
  }

  lemma {:induction false} NewestExists(disk: Disk, pending: set<SnapshotId>)
    requires Valid(disk) && pending != {} && pending <= disk.snapshots.Keys
    ensures exists id :: Newest(disk, pending, id)
    decreases |pending|
  {
    var id :| id in pending;
    var rest := pending - {id};
    if rest == {} {
      assert forall t :: t in pending ==> t == id || t in rest;
      assert Newest(disk, pending, id);
    } else {
      NewestExists(disk, rest);
      var other :| Newest(disk, rest, other);
      assert forall t :: t in pending ==> t == id || t in rest;
      var best := if disk.generations[id].sequence >= disk.generations[other].sequence then id else other;
      assert Newest(disk, pending, best);
    }
  }

  /** Members of one repository and context among some snapshots. */
  ghost function Group(ids: set<SnapshotId>, repository: nat, context: nat): set<SnapshotId> {
    set t | t in ids && t.repository == repository && t.context == context
  }

  /** In newest-first order, the snapshots of the group already seen are exactly the newer ones. */
  lemma SeenAreNewer(disk: Disk, pending: set<SnapshotId>, id: SnapshotId)
    requires Valid(disk) && pending <= disk.snapshots.Keys && Newest(disk, pending, id)
    requires NewestFirst(disk, pending)
    ensures Group(disk.snapshots.Keys - pending, id.repository, id.context) == Newer(disk, id)
  {
  }

  ghost predicate CountsAre(counts: map<(nat, nat), nat>, seen: set<SnapshotId>) {
    forall r: nat, c: nat :: (if (r, c) in counts then counts[(r, c)] else 0) == |Group(seen, r, c)|
  }

  lemma CountNext(counts: map<(nat, nat), nat>, seen: set<SnapshotId>, id: SnapshotId)
    requires CountsAre(counts, seen) && id !in seen
    ensures var key := (id.repository, id.context);
      CountsAre(counts[key := (if key in counts then counts[key] else 0) + 1], seen + {id})
  {
    var key := (id.repository, id.context);
    var after := counts[key := (if key in counts then counts[key] else 0) + 1];
    forall r: nat, c: nat
      ensures (if (r, c) in after then after[(r, c)] else 0) == |Group(seen + {id}, r, c)|
    {
      GroupNext(seen, id, r, c);
      assert (if (r, c) in counts then counts[(r, c)] else 0) == |Group(seen, r, c)|;
    }
  }

  lemma GroupNext(seen: set<SnapshotId>, id: SnapshotId, r: nat, c: nat)
    requires id !in seen
    ensures |Group(seen + {id}, r, c)| == |Group(seen, r, c)| + (if id.repository == r && id.context == c then 1 else 0)
  {
    if id.repository == r && id.context == c {
      assert Group(seen + {id}, r, c) == Group(seen, r, c) + {id};
    } else {
      assert Group(seen + {id}, r, c) == Group(seen, r, c);
    }
  }

  /** One scan: the newest pending snapshot is judged, counted and removed from the pending ones. */
  lemma ScanStep(disk: Disk, policy: Policy, cutoff: int, counts: map<(nat, nat), nat>, roots: Roots,
                 pending: set<SnapshotId>, id: SnapshotId)
    requires Valid(disk) && pending <= disk.snapshots.Keys && Newest(disk, pending, id)
    requires NewestFirst(disk, pending) && CountsAre(counts, disk.snapshots.Keys - pending)
    requires RootsAre(roots, disk, policy, cutoff, disk.heads.Keys, disk.pins.Keys, policy.additionalRoots,
                      disk.snapshots.Keys - pending)
    ensures var key := (id.repository, id.context);
      var count := if key in counts then counts[key] else 0;
      && NewestFirst(disk, pending - {id})
      && CountsAre(counts[key := count + 1], disk.snapshots.Keys - (pending - {id}))
      && RootsAre(ScanSnapshot(disk, policy, cutoff, roots, id, count), disk, policy, cutoff, disk.heads.Keys, disk.pins.Keys,
                  policy.additionalRoots, disk.snapshots.Keys - (pending - {id}))
  {
    var key := (id.repository, id.context);
    var count := if key in counts then counts[key] else 0;
    SeenAreNewer(disk, pending, id);
    CountNext(counts, disk.snapshots.Keys - pending, id);
    assert disk.snapshots.Keys - (pending - {id}) == (disk.snapshots.Keys - pending) + {id};
    ScannedNext(disk, policy, cutoff, roots, ScanSnapshot(disk, policy, cutoff, roots, id, count),
                disk.snapshots.Keys - pending, id);
    ScanKeepsOrder(disk, pending, id);
  }

  /** Everything already scanned is newer than everything pending. */
  ghost predicate NewestFirst(disk: Disk, pending: set<SnapshotId>)
    requires Valid(disk)
  {
    forall a, b :: a in disk.snapshots && a !in pending && b in pending && b in disk.snapshots ==>
      disk.generations[a].sequence > disk.generations[b].sequence
  }

  lemma ScanKeepsOrder(disk: Disk, pending: set<SnapshotId>, id: SnapshotId)
    requires Valid(disk) && pending <= disk.snapshots.Keys && Newest(disk, pending, id) && NewestFirst(disk, pending)
    ensures NewestFirst(disk, pending - {id})
  {
  }

  /** Scans snapshots newest first, counting per repository and context. */
  method CollectRecent(disk: Disk, policy: Policy, cutoff: int, named: Roots) returns (roots: Roots)
    requires Valid(disk)
    requires RootsAre(named, disk, policy, cutoff, disk.heads.Keys, disk.pins.Keys, policy.additionalRoots, {})
    ensures RootsAre(roots, disk, policy, cutoff, disk.heads.Keys, disk.pins.Keys, policy.additionalRoots, disk.snapshots.Keys)
  {
    roots := named;
    var counts: map<(nat, nat), nat> := map[];
    var pending := disk.snapshots.Keys;
    assert disk.snapshots.Keys - pending == {};
    while pending != {}
      invariant pending <= disk.snapshots.Keys && NewestFirst(disk, pending)
      invariant CountsAre(counts, disk.snapshots.Keys - pending)
      invariant RootsAre(roots, disk, policy, cutoff, disk.heads.Keys, disk.pins.Keys, policy.additionalRoots,
                         disk.snapshots.Keys - pending)
    {
      NewestExists(disk, pending);
      var id :| Newest(disk, pending, id);
      ScanStep(disk, policy, cutoff, counts, roots, pending, id);
      var key := (id.repository, id.context);
      var count := if key in counts then counts[key] else 0;
      roots := ScanSnapshot(disk, policy, cutoff, roots, id, count);
      counts := counts[key := count + 1];
      pending := pending - {id};
    }
    assert disk.snapshots.Keys - pending == disk.snapshots.Keys;
  }

  function ScanSnapshot(disk: Disk, policy: Policy, cutoff: int, roots: Roots, id: SnapshotId, newer: nat): (scanned: Roots)
    requires id in disk.generations
    ensures NoEmptyRoot(roots) ==> NoEmptyRoot(scanned)
    ensures forall i, r :: Has(scanned, i, r) <==>
      Has(roots, i, r) || (i == id && (
        (r == RecentGeneration && newer < policy.keepRecent)
        || (r == GracePeriod && disk.generations[id].publishedAt > cutoff)
        || (r == Observations && id in disk.observed)))
  {
    var a := if newer < policy.keepRecent then AddReason(roots, id, RecentGeneration) else roots;
    var b := if disk.generations[id].publishedAt > cutoff then AddReason(a, id, GracePeriod) else a;
    if id in disk.observed then AddReason(b, id, Observations) else b
  }

  lemma ScannedNext(disk: Disk, policy: Policy, cutoff: int, before: Roots, after: Roots, seen: set<SnapshotId>, id: SnapshotId)
    requires Valid(disk) && id in disk.snapshots && id !in seen
    requires RootsAre(before, disk, policy, cutoff, disk.heads.Keys, disk.pins.Keys, policy.additionalRoots, seen)
    requires after == ScanSnapshot(disk, policy, cutoff, before, id, |Newer(disk, id)|)
    ensures RootsAre(after, disk, policy, cutoff, disk.heads.Keys, disk.pins.Keys, policy.additionalRoots, seen + {id})
  {
    forall i, r
      ensures Has(after, i, r) <==>
        Collected(disk, policy, cutoff, disk.heads.Keys, disk.pins.Keys, policy.additionalRoots, seen + {id}, i, r)
    {
      assert Has(before, i, r) <==>
        Collected(disk, policy, cutoff, disk.heads.Keys, disk.pins.Keys, policy.additionalRoots, seen, i, r);
    }
  }

  /** Once everything is scanned, the roots are exactly the rooted snapshots with their reasons. */
  lemma RootsComplete(roots: Roots, disk: Disk, policy: Policy, cutoff: int)
    requires Valid(disk)
    requires RootsAre(roots, disk, policy, cutoff, disk.heads.Keys, disk.pins.Keys, policy.additionalRoots, disk.snapshots.Keys)
    ensures forall id, reason :: Has(roots, id, reason) <==> KeptFor(disk, policy, cutoff, id, reason)
    ensures forall id :: id in roots <==> Rooted(disk, policy, cutoff, id)
  {
    forall id, reason
      ensures Has(roots, id, reason) <==> KeptFor(disk, policy, cutoff, id, reason)
    {
      assert Has(roots, id, reason) <==> Collected(disk, policy, cutoff, disk.heads.Keys, disk.pins.Keys,
                                                   policy.additionalRoots, disk.snapshots.Keys, id, reason);
    }
    forall id
      ensures id in roots <==> Rooted(disk, policy, cutoff, id)
    {
      if id in roots {
        var reason :| reason in roots[id];
        assert Has(roots, id, reason);
      }
      if Rooted(disk, policy, cutoff, id) {
        var reason :| KeptFor(disk, policy, cutoff, id, reason);
        assert Has(roots, id, reason);
      }
    }
  }

  // ---- live objects, removals, garbage ----

  function ObjectsOf(id: SnapshotId, shard: Object): (objects: set<Object>)
    ensures forall o :: o in objects <==> Uses(id, shard, o)
  {
    {shard} + set c | c in id.files :: Source(c)
  }

  /** Reads every snapshot's shard: kept ones contribute live objects, the others are removed. */
  method CollectLive(disk: Disk, kept: set<SnapshotId>) returns (live: set<Object>, remove: set<SnapshotId>)
    ensures remove == disk.snapshots.Keys - kept
    ensures forall o :: o in live <==> exists id :: id in disk.snapshots && id in kept && Uses(id, disk.snapshots[id], o)
  {
    live, remove := {}, {};
    var pending := disk.snapshots.Keys;
    while pending != {}
      invariant pending <= disk.snapshots.Keys
      invariant remove == disk.snapshots.Keys - pending - kept
      invariant forall o :: o in live <==>
        exists id :: id in disk.snapshots && id !in pending && id in kept && Uses(id, disk.snapshots[id], o)
    {
      var id :| id in pending;
      if id in kept {
        live := live + ObjectsOf(id, disk.snapshots[id]);
      } else {
        remove := remove + {id};
      }
      pending := pending - {id};
    }
  }

  function Expired(disk: Disk, live: set<Object>, cutoff: int, item: Object): bool
    requires item in disk.owned
  {
    disk.owned[item].createdAt <= cutoff && item !in live
  }

  /** Lists expired objects outside the live ones; a changed file identity aborts the plan. */
  method CollectGarbage(disk: Disk, live: set<Object>, cutoff: int) returns (result: Result<set<GcObject>, Error>)
    ensures result.Ok? ==> forall g :: g in result.value <==>
      g.item in disk.owned && Expired(disk, live, cutoff, g.item) && g == Planned(disk, g.item)
    ensures result.Ok? ==> forall g :: g in result.value && g.present ==> g.item in disk.files && disk.files[g.item] == g.identity
    ensures result.Err? ==> result.error == Unavailable && exists item ::
      item in disk.owned && Expired(disk, live, cutoff, item) && item in disk.files && disk.files[item] != disk.owned[item].identity
  {
    var objects: set<GcObject> := {};
    var pending := disk.owned.Keys;
    while pending != {}
      invariant pending <= disk.owned.Keys
      invariant forall g :: g in objects <==>
        g.item in disk.owned && g.item !in pending && Expired(disk, live, cutoff, g.item) && g == Planned(disk, g.item)
      invariant forall g :: g in objects && g.present ==> g.item in disk.files && disk.files[g.item] == g.identity
    {
      var item :| item in pending;
      if Expired(disk, live, cutoff, item) {
        if item in disk.files && disk.files[item] != disk.owned[item].identity { return Err(Unavailable); }
        objects := objects + {Planned(disk, item)};
      }
      pending := pending - {item};
    }
    return Ok(objects);
  }

  /** Planning can only fail on budgets, an unknown additional root, or a changed garbage file. */
  const METADATA_BYTES: nat := 128 * 1024 * 1024

  ghost function MetadataSizes(ids: set<SnapshotId>): map<SnapshotId, nat> {
    map id | id in ids :: id.metadataBytes
  }

  ghost function MetadataBytes(ids: set<SnapshotId>): nat {
    Total(MetadataSizes(ids))
  }

  method SumMetadata(ids: set<SnapshotId>) returns (bytes: nat)
    ensures bytes == MetadataBytes(ids)
  {
    bytes := 0;
    var rest := ids;
    ghost var sizes := MetadataSizes(ids);
    while rest != {}
      invariant rest <= ids && sizes == MetadataSizes(rest) && bytes + Total(sizes) == MetadataBytes(ids)
    {
      var id :| id in rest;
      TotalSplit(sizes, id);
      bytes := bytes + id.metadataBytes;
      rest, sizes := rest - {id}, sizes - {id};
    }
  }

  ghost predicate PlanPossible(disk: Disk, policy: Policy, cutoff: int)
    requires Valid(disk)
  {
    && policy.additionalRoots <= disk.snapshots.Keys
    && PlanFits(disk) && GarbageUnchanged(disk, policy, cutoff)
  }

  /** The catalog is small enough to plan over. */
  ghost predicate PlanFits(disk: Disk) {
    |disk.snapshots| <= 100_000 && |disk.owned| <= 1_000_000 && MetadataBytes(disk.snapshots.Keys) <= METADATA_BYTES
  }

  ghost predicate GarbageUnchanged(disk: Disk, policy: Policy, cutoff: int)
    requires Valid(disk)
  {
    forall item :: Garbage(disk, policy, cutoff, item) && item in disk.files ==> disk.files[item] == disk.owned[item].identity
  }

  /** The plan for the present disk. Valid rows can always be read, so no reader aborts it. */
  method MakePlan(disk: Disk, policy: Policy, now: int) returns (result: Result<Plan, Error>)
    requires Valid(disk)
    ensures result.Ok? ==> IsPlan(disk, policy, Cutoff(policy, now), result.value)
    ensures result.Ok? ==> RespectsGrace(disk, policy, now, result.value) && DescribesObjects(disk, result.value)
    ensures result.Ok? <==> PlanPossible(disk, policy, Cutoff(policy, now))
    ensures result.Err? ==> result.error != InjectedFailure
  {
    var metadata := SumMetadata(disk.snapshots.Keys);
    if |disk.snapshots| > 100_000 || metadata > METADATA_BYTES || |disk.owned| > 1_000_000 { return Err(BudgetExhausted); }
    var cutoff := Cutoff(policy, now);
    var named := CollectNames(disk, policy, cutoff);
    var extended := CollectAdditional(disk, policy, cutoff, named);
    if extended.Err? { return Err(extended.error); }
    var roots := CollectRecent(disk, policy, cutoff, extended.value);
    result := FinishPlan(disk, policy, cutoff, roots);
    if result.Ok? { PlanRespectsGrace(disk, policy, now, result.value); }
  }

  /** Objects and garbage of a plan, once every root is known. */
  method FinishPlan(disk: Disk, policy: Policy, cutoff: int, roots: Roots) returns (result: Result<Plan, Error>)
    requires Valid(disk) && policy.additionalRoots <= disk.snapshots.Keys
    requires PlanFits(disk)
    requires RootsAre(roots, disk, policy, cutoff, disk.heads.Keys, disk.pins.Keys, policy.additionalRoots, disk.snapshots.Keys)
    ensures result.Ok? ==> IsPlan(disk, policy, cutoff, result.value)
    ensures result.Ok? <==> PlanPossible(disk, policy, cutoff)
    ensures result.Err? ==> result.error != InjectedFailure
  {
    RootsComplete(roots, disk, policy, cutoff);
    var live, remove := CollectLive(disk, roots.Keys);
    forall o
      ensures o in live <==> Live(disk, policy, cutoff, o)
    {
    }
    var garbage := CollectGarbage(disk, live, cutoff);
    if garbage.Err? { return Err(garbage.error); }
    var plan := Plan(policy, roots, remove, garbage.value, live);
    PlanAssembled(disk, policy, cutoff, plan);
    return Ok(plan);
  }

  lemma PlanAssembled(disk: Disk, policy: Policy, cutoff: int, plan: Plan)
    requires Valid(disk) && plan.policy == policy && policy.additionalRoots <= disk.snapshots.Keys
    requires forall id, reason :: Has(plan.retained, id, reason) <==> KeptFor(disk, policy, cutoff, id, reason)
    requires forall id :: id in plan.retained <==> Rooted(disk, policy, cutoff, id)
    requires plan.removeSnapshots == disk.snapshots.Keys - plan.retained.Keys
    requires forall o :: o in plan.liveObjects <==> Live(disk, policy, cutoff, o)
    requires forall g :: g in plan.objects <==>
      g.item in disk.owned && Expired(disk, plan.liveObjects, cutoff, g.item) && g == Planned(disk, g.item)
    requires forall g :: g in plan.objects && g.present ==> g.item in disk.files && disk.files[g.item] == g.identity
    ensures IsPlan(disk, policy, cutoff, plan)
    ensures forall item :: Garbage(disk, policy, cutoff, item) && item in disk.files ==> disk.files[item] == disk.owned[item].identity
  {
    forall id, reason | id in plan.retained
      ensures reason in plan.retained[id] <==> KeptFor(disk, policy, cutoff, id, reason)
    {
      assert Has(plan.retained, id, reason) <==> KeptFor(disk, policy, cutoff, id, reason);
    }
    forall item | Garbage(disk, policy, cutoff, item) && item in disk.files
      ensures disk.files[item] == disk.owned[item].identity
    {
      assert Planned(disk, item) in plan.objects;
    }
  }

  // ---- consequences of a plan ----

  /** Being younger than the grace period is all that can keep a snapshot without another reason, and no
      object younger than it is collected. */
  ghost predicate RespectsGrace(disk: Disk, policy: Policy, now: int, plan: Plan)
    requires Valid(disk)
  {
    && (forall id :: id in disk.snapshots && now - disk.generations[id].publishedAt < policy.gracePeriod ==>
          id !in plan.removeSnapshots && id in plan.retained && GracePeriod in plan.retained[id])
    && (forall id :: id in disk.snapshots && now - disk.generations[id].publishedAt >= policy.gracePeriod ==>
          (id in plan.removeSnapshots <==> !OtherwiseRooted(disk, policy, id))
          && (id in plan.retained ==> GracePeriod !in plan.retained[id]))
    && (forall g :: g in plan.objects ==> g.item in disk.owned && now - disk.owned[g.item].createdAt >= policy.gracePeriod)
    && (forall item :: item in disk.owned && now - disk.owned[item].createdAt >= policy.gracePeriod && item !in plan.liveObjects ==>
          exists g :: g in plan.objects && g.item == item)
  }

  /** The listed objects are described as they are owned; a missing file has no bytes left to free. */
  ghost predicate DescribesObjects(disk: Disk, plan: Plan) {
    forall g :: g in plan.objects ==>
      && g.item in disk.owned && (g.present <==> g.item in disk.files)
      && g.identity.device == disk.owned[g.item].identity.device && g.identity.inode == disk.owned[g.item].identity.inode
      && g.identity.bytes == (if g.item in disk.files then disk.owned[g.item].identity.bytes else 0)
  }

  /** A head, a pin, a root of the policy, a recent generation, or observations keep the snapshot. */
  ghost predicate OtherwiseRooted(disk: Disk, policy: Policy, id: SnapshotId)
    requires Valid(disk) && id in disk.snapshots
  {
    || id in disk.heads.Values || id in disk.pins.Values || id in policy.additionalRoots || id in disk.observed
    || |set t | t in disk.snapshots && t.repository == id.repository && t.context == id.context
         && disk.generations[t].sequence > disk.generations[id].sequence| < policy.keepRecent
  }

  lemma RootedByAge(disk: Disk, policy: Policy, now: int, id: SnapshotId)
    requires Valid(disk) && id in disk.snapshots
    ensures Rooted(disk, policy, Cutoff(policy, now), id)
      <==> OtherwiseRooted(disk, policy, id) || now - disk.generations[id].publishedAt < policy.gracePeriod
  {
    var cutoff := Cutoff(policy, now);
    assert Newer(disk, id) == set t | t in disk.snapshots && t.repository == id.repository && t.context == id.context
      && disk.generations[t].sequence > disk.generations[id].sequence;
    if id in disk.heads.Values {
      var name :| name in disk.heads && disk.heads[name] == id;
      assert KeptFor(disk, policy, cutoff, id, HeadRoot(name));
    }
    if id in disk.pins.Values {
      var name :| name in disk.pins && disk.pins[name] == id;
      assert KeptFor(disk, policy, cutoff, id, PinRoot(name));
    }
    assert KeptFor(disk, policy, cutoff, id, AdditionalRoot) <==> id in policy.additionalRoots;
    assert KeptFor(disk, policy, cutoff, id, Observations) <==> id in disk.observed;
    assert KeptFor(disk, policy, cutoff, id, RecentGeneration) <==> |Newer(disk, id)| < policy.keepRecent;
    assert KeptFor(disk, policy, cutoff, id, GracePeriod) <==> now - disk.generations[id].publishedAt < policy.gracePeriod;
  }

  lemma PlanRespectsGrace(disk: Disk, policy: Policy, now: int, plan: Plan)
    requires Valid(disk) && IsPlan(disk, policy, Cutoff(policy, now), plan)
    ensures RespectsGrace(disk, policy, now, plan) && DescribesObjects(disk, plan)
  {
    var cutoff := Cutoff(policy, now);
    forall id | id in disk.snapshots
      ensures id in plan.retained <==> OtherwiseRooted(disk, policy, id) || now - disk.generations[id].publishedAt < policy.gracePeriod
      ensures id in plan.retained ==> (GracePeriod in plan.retained[id] <==> now - disk.generations[id].publishedAt < policy.gracePeriod)
    {
      RootedByAge(disk, policy, now, id);
      assert KeptFor(disk, policy, cutoff, id, GracePeriod) <==> now - disk.generations[id].publishedAt < policy.gracePeriod;
    }
    forall item | item in disk.owned && now - disk.owned[item].createdAt >= policy.gracePeriod && item !in plan.liveObjects
      ensures exists g :: g in plan.objects && g.item == item
    {
      assert Planned(disk, item) in plan.objects;
    }
  }

  /** A plan lists no object that a snapshot it keeps uses. */
  lemma PlanSparesRetained(disk: Disk, policy: Policy, cutoff: int, plan: Plan, id: SnapshotId, item: Object)
    requires Valid(disk) && IsPlan(disk, policy, cutoff, plan)
    requires id in disk.snapshots && id !in plan.removeSnapshots && Uses(id, disk.snapshots[id], item)
    ensures item !in PlannedObjects(plan)
  {
    assert Live(disk, policy, cutoff, item);
  }

  /** A plan removes a snapshot exactly when nothing roots it, and never a head or a pin. */
  lemma PlanRemovesUnrooted(disk: Disk, policy: Policy, cutoff: int, plan: Plan)
    requires Valid(disk) && IsPlan(disk, policy, cutoff, plan)
    ensures forall id :: id in plan.removeSnapshots <==> id in disk.snapshots && !Rooted(disk, policy, cutoff, id)
    ensures forall name :: name in disk.heads ==> disk.heads[name] !in plan.removeSnapshots
    ensures forall name :: name in disk.pins ==> disk.pins[name] !in plan.removeSnapshots
  {
    forall name | name in disk.heads
      ensures disk.heads[name] !in plan.removeSnapshots
    {
      assert KeptFor(disk, policy, cutoff, disk.heads[name], HeadRoot(name));
    }
    forall name | name in disk.pins
      ensures disk.pins[name] !in plan.removeSnapshots
    {
      assert KeptFor(disk, policy, cutoff, disk.pins[name], PinRoot(name));
    }
  }

  // ---- runs ----

  /** The disk of a run that has removed its rows, unlinked some objects and dropped some owned rows. */
  ghost function Progress(disk: Disk, plan: Plan, unlinked: set<Object>, dropped: set<Object>): Disk {
    RemoveSnapshots(disk, plan).(files := disk.files - unlinked, owned := disk.owned - dropped)
  }

  /** What an uninterrupted run leaves. */
  ghost function Finished(disk: Disk, plan: Plan): Disk {
    CompleteRun(Progress(disk, plan, PlannedObjects(plan), PlannedObjects(plan)), plan)
  }

  /** A row is dropped only after its object is gone. */
  ghost predicate Interrupted(disk: Disk, plan: Plan, after: Disk, unlinked: set<Object>, dropped: set<Object>) {
    && dropped <= PlannedObjects(plan) && unlinked <= PlannedObjects(plan)
    && (forall o :: o in dropped && o in disk.files ==> o in unlinked)
    && after == Progress(disk, plan, unlinked, dropped)
  }

  /** Some point between a run's transaction and its completion. */
  ghost predicate CrashedRun(disk: Disk, plan: Plan, after: Disk) {
    exists unlinked, dropped :: Interrupted(disk, plan, after, unlinked, dropped)
  }

  /** An interrupted run has removed the planned rows and their dates and is on record as incomplete; names
      and all other rows are as before, and only planned objects are affected. */
  lemma InterruptionIsRecorded(disk: Disk, plan: Plan, after: Disk)
    requires CrashedRun(disk, plan, after)
    ensures after.snapshots == disk.snapshots - plan.removeSnapshots && after.generations == disk.generations - plan.removeSnapshots
    ensures after.completedRuns == disk.completedRuns[plan := false] && after.heads == disk.heads && after.pins == disk.pins
    ensures forall o :: o in disk.files && o !in PlannedObjects(plan) ==> o in after.files && after.files[o] == disk.files[o]
    ensures forall o :: o in disk.owned && o !in PlannedObjects(plan) ==> o in after.owned && after.owned[o] == disk.owned[o]
    ensures forall o :: o in after.files ==> o in disk.files && after.files[o] == disk.files[o]
  {
  }

  /** A finished run has removed exactly the planned rows and objects and is on record as complete. */
  lemma FinishIsRecorded(disk: Disk, plan: Plan)
    ensures var after := Finished(disk, plan);
      && after.snapshots == disk.snapshots - plan.removeSnapshots && after.generations == disk.generations - plan.removeSnapshots
      && after.completedRuns == disk.completedRuns[plan := true] && after.heads == disk.heads && after.pins == disk.pins
      && after.files == disk.files - PlannedObjects(plan) && after.owned == disk.owned - PlannedObjects(plan)
  {
  }

  lemma ProgressIsValid(disk: Disk, policy: Policy, cutoff: int, plan: Plan, unlinked: set<Object>, dropped: set<Object>)
    requires Valid(disk) && IsPlan(disk, policy, cutoff, plan)
    requires unlinked <= PlannedObjects(plan)
    ensures Valid(Progress(disk, plan, unlinked, dropped))
  {
    var after := Progress(disk, plan, unlinked, dropped);
    PlanRemovesUnrooted(disk, policy, cutoff, plan);
    forall id, o | id in after.snapshots && Uses(id, after.snapshots[id], o) && o in disk.files
      ensures o in after.files
    {
      PlanSparesRetained(disk, policy, cutoff, plan, id, o);
    }
    StoredKept(disk, after);
    forall name | name in after.heads
      ensures after.heads[name] in after.snapshots
    {
      assert disk.heads[name] in disk.snapshots;
    }
    forall name | name in after.pins
      ensures after.pins[name] in after.snapshots
    {
      assert disk.pins[name] in disk.snapshots;
    }
  }

  // ---- redoing a crashed run ----

  /** After the removals of a plan, at the same clock, every remaining snapshot is still rooted. */
  lemma RemainingStayRooted(disk: Disk, policy: Policy, cutoff: int, plan: Plan, after: Disk, id: SnapshotId)
    requires Valid(disk) && Valid(after) && IsPlan(disk, policy, cutoff, plan)
    requires after.snapshots == disk.snapshots - plan.removeSnapshots
    requires after.generations == disk.generations - plan.removeSnapshots
    requires after.heads == disk.heads && after.pins == disk.pins && after.observed == disk.observed
    requires id in after.snapshots
    ensures Rooted(after, policy, cutoff, id)
  {
    assert Rooted(disk, policy, cutoff, id);
    var reason :| KeptFor(disk, policy, cutoff, id, reason);
    if reason == RecentGeneration {
      assert Newer(after, id) <= Newer(disk, id);
      SubsetNoLarger(Newer(after, id), Newer(disk, id));
    }
    assert KeptFor(after, policy, cutoff, id, reason);
  }

  lemma SubsetNoLarger<T>(a: set<T>, b: set<T>)
    requires a <= b
    ensures |a| <= |b|
  {
    assert b == a + (b - a);
  }

  lemma SameLive(disk: Disk, policy: Policy, cutoff: int, plan: Plan, after: Disk, item: Object)
    requires Valid(disk) && Valid(after) && IsPlan(disk, policy, cutoff, plan)
    requires after.snapshots == disk.snapshots - plan.removeSnapshots
    requires after.generations == disk.generations - plan.removeSnapshots
    requires after.heads == disk.heads && after.pins == disk.pins && after.observed == disk.observed
    ensures Live(after, policy, cutoff, item) <==> Live(disk, policy, cutoff, item)
  {
    if Live(disk, policy, cutoff, item) {
      var id :| id in disk.snapshots && Rooted(disk, policy, cutoff, id) && Uses(id, disk.snapshots[id], item);
      assert id in after.snapshots;
      RemainingStayRooted(disk, policy, cutoff, plan, after, id);
    }
    if Live(after, policy, cutoff, item) {
      var id :| id in after.snapshots && Rooted(after, policy, cutoff, id) && Uses(id, after.snapshots[id], item);
      assert Rooted(disk, policy, cutoff, id);
    }
  }

  /** Main result on crashes: redoing an interrupted run from a fresh plan at the same clock leaves
      the same snapshot rows, owned rows and files as the uninterrupted run. */
  lemma RedoneRunAgrees(disk: Disk, policy: Policy, cutoff: int, plan: Plan,
                        after: Disk, unlinked: set<Object>, dropped: set<Object>, redo: Plan)
    requires Valid(disk) && IsPlan(disk, policy, cutoff, plan)
    requires Interrupted(disk, plan, after, unlinked, dropped)
    requires Valid(after) && IsPlan(after, policy, cutoff, redo)
    ensures Finished(after, redo).snapshots == Finished(disk, plan).snapshots
    ensures Finished(after, redo).owned == Finished(disk, plan).owned
    ensures Finished(after, redo).files == Finished(disk, plan).files
    ensures redo.removeSnapshots == {}
  {
    forall id | id in after.snapshots
      ensures id in redo.retained
    {
      RemainingStayRooted(disk, policy, cutoff, plan, after, id);
    }
    assert redo.removeSnapshots == {};
    RemovesNothing(after, redo);
    PlannedAgain(disk, policy, cutoff, plan, after, unlinked, dropped, redo);
    assert (disk.owned - dropped) - PlannedObjects(redo) == disk.owned - PlannedObjects(plan);
    assert (disk.files - unlinked) - PlannedObjects(redo) == disk.files - PlannedObjects(plan);
  }

  lemma RemovesNothing(disk: Disk, plan: Plan)
    requires plan.removeSnapshots == {}
    ensures Finished(disk, plan).snapshots == disk.snapshots
  {
    assert disk.snapshots - {} == disk.snapshots;
  }

  /** A fresh plan lists what the interrupted one still had to do. */
  lemma PlannedAgain(disk: Disk, policy: Policy, cutoff: int, plan: Plan,
                     after: Disk, unlinked: set<Object>, dropped: set<Object>, redo: Plan)
    requires Valid(disk) && IsPlan(disk, policy, cutoff, plan)
    requires Interrupted(disk, plan, after, unlinked, dropped)
    requires Valid(after) && IsPlan(after, policy, cutoff, redo)
    ensures PlannedObjects(redo) == PlannedObjects(plan) - dropped
  {
    forall o
      ensures o in PlannedObjects(redo) <==> o in PlannedObjects(plan) && o !in dropped
    {
      SameLive(disk, policy, cutoff, plan, after, o);
      PlannedIffGarbage(disk, policy, cutoff, plan, o);
      PlannedIffGarbage(after, policy, cutoff, redo, o);
    }
  }

  lemma PlannedIffGarbage(disk: Disk, policy: Policy, cutoff: int, plan: Plan, item: Object)
    requires Valid(disk) && IsPlan(disk, policy, cutoff, plan)
    ensures item in PlannedObjects(plan) <==> Garbage(disk, policy, cutoff, item)
  {
    if Garbage(disk, policy, cutoff, item) {
      assert Planned(disk, item) in plan.objects;
    }
  }

  /** A fresh plan can always be made after an interruption. */
  lemma FreshPlanIsPossible(disk: Disk, policy: Policy, cutoff: int, plan: Plan,
                            after: Disk, unlinked: set<Object>, dropped: set<Object>)
    requires Valid(disk) && IsPlan(disk, policy, cutoff, plan) && PlanPossible(disk, policy, cutoff)
    requires Interrupted(disk, plan, after, unlinked, dropped)
    ensures Valid(after) && PlanPossible(after, policy, cutoff)
  {
    ProgressIsValid(disk, policy, cutoff, plan, unlinked, dropped);
    RootsRemain(disk, policy, cutoff, plan);
    FitsAfter(disk, after);
    StillUnchanged(disk, policy, cutoff, plan, after, unlinked, dropped);
  }

  lemma RootsRemain(disk: Disk, policy: Policy, cutoff: int, plan: Plan)
    requires Valid(disk) && IsPlan(disk, policy, cutoff, plan)
    ensures policy.additionalRoots <= (disk.snapshots - plan.removeSnapshots).Keys
  {
    forall id | id in policy.additionalRoots
      ensures id in disk.snapshots - plan.removeSnapshots
    {
      assert KeptFor(disk, policy, cutoff, id, AdditionalRoot);
    }
  }

  lemma FitsAfter(disk: Disk, after: Disk)
    requires PlanFits(disk) && after.snapshots.Keys <= disk.snapshots.Keys && after.owned.Keys <= disk.owned.Keys
    ensures PlanFits(after)
  {
    SubsetNoLarger(after.snapshots.Keys, disk.snapshots.Keys);
    SubsetNoLarger(after.owned.Keys, disk.owned.Keys);
    TotalGrows(MetadataSizes(after.snapshots.Keys), MetadataSizes(disk.snapshots.Keys));
  }

  lemma StillUnchanged(disk: Disk, policy: Policy, cutoff: int, plan: Plan,
                       after: Disk, unlinked: set<Object>, dropped: set<Object>)
    requires Valid(disk) && IsPlan(disk, policy, cutoff, plan) && GarbageUnchanged(disk, policy, cutoff)
    requires Interrupted(disk, plan, after, unlinked, dropped) && Valid(after)
    ensures GarbageUnchanged(after, policy, cutoff)
  {
    forall item | Garbage(after, policy, cutoff, item) && item in after.files
      ensures after.files[item] == after.owned[item].identity
    {
      SameLive(disk, policy, cutoff, plan, after, item);
      assert Garbage(disk, policy, cutoff, item);
    }
  }

  // ---- executions ----

  /** A disk, policy and clock have one plan. */
  lemma PlanIsUnique(disk: Disk, policy: Policy, cutoff: int, a: Plan, b: Plan)
    requires Valid(disk) && IsPlan(disk, policy, cutoff, a) && IsPlan(disk, policy, cutoff, b)
    ensures a == b
  {
    assert a.retained.Keys == b.retained.Keys;
    forall id | id in a.retained
      ensures a.retained[id] == b.retained[id]
    {
      assert forall reason :: reason in a.retained[id] <==> reason in b.retained[id];
    }
    assert a.retained == b.retained && a.objects == b.objects && a.liveObjects == b.liveObjects;
  }

  /** Comparing a plan with the one planning makes now decides whether it is current. */
  lemma CurrentIffPlanned(disk: Disk, plan: Plan, now: int, current: Plan)
    requires Valid(disk) && PlanPossible(disk, plan.policy, Cutoff(plan.policy, now))
    requires IsPlan(disk, plan.policy, Cutoff(plan.policy, now), current)
    ensures Current(disk, plan, now) <==> current == plan
  {
    if Current(disk, plan, now) {
      PlanIsUnique(disk, plan.policy, Cutoff(plan.policy, now), plan, current);
    }
  }

  ghost predicate Completed(disk: Disk, plan: Plan) {
    plan in disk.completedRuns && disk.completedRuns[plan]
  }

  /** The plan is what planning produces on this disk at this clock, and planning succeeds. */
  ghost predicate Current(disk: Disk, plan: Plan, now: int)
    requires Valid(disk)
  {
    IsPlan(disk, plan.policy, Cutoff(plan.policy, now), plan)
    && PlanPossible(disk, plan.policy, Cutoff(plan.policy, now))
  }

  /** Where a garbage collection run is interrupted: nowhere, after its transaction, or after an unlink. */
  datatype GcFailure = NoFailure | AfterCommit | AfterUnlink

  /** Whether a run of the plan reaches the failure point. */
  ghost predicate Fires(plan: Plan, failAfter: GcFailure) {
    failAfter == AfterCommit || (failAfter == AfterUnlink && plan.objects != {})
  }

  /** One execution, from the disk before to the disk after: a completed plan is replayed without effect,
      a current one carried out or interrupted where the failure fires, any other refused without effect. */
  ghost predicate GcRun(before: Disk, plan: Plan, now: int, failAfter: GcFailure, result: Result<(), Error>, after: Disk)
    requires Valid(before)
  {
    if Completed(before, plan) then result == Ok(()) && after == before
    else if !Current(before, plan, now) then result.Err? && result.error != InjectedFailure && after == before
    else if Fires(plan, failAfter) then result == Err(InjectedFailure) && CrashedRun(before, plan, after)
    else result == Ok(()) && after == Finished(before, plan)
  }

  /** What collection is for: the snapshot rows, the ownership rows and the files. */
  ghost predicate SameObjects(a: Disk, b: Disk) {
    a.snapshots == b.snapshots && a.owned == b.owned && a.files == b.files
  }

  /** Main result on crashes, over executions: after an interrupted run, executing a fresh plan made at
      the same clock succeeds, and ends like the uninterrupted run exactly when that plan has not been
      completed before or has nothing to collect. */
  lemma RedoneExecutionAgrees(before: Disk, plan: Plan, now: int, failAfter: GcFailure, crashed: Disk,
                              redo: Plan, result: Result<(), Error>, after: Disk, uninterrupted: Disk)
    requires Valid(before) && GcRun(before, plan, now, failAfter, Err(InjectedFailure), crashed) && Valid(crashed)
    requires IsPlan(crashed, plan.policy, Cutoff(plan.policy, now), redo)
    requires GcRun(crashed, redo, now, NoFailure, result, after)
    requires GcRun(before, plan, now, NoFailure, Ok(()), uninterrupted)
    ensures result == Ok(())
    ensures SameObjects(after, uninterrupted) <==> !Completed(crashed, redo) || redo.objects == {}
  {
    RedoIsCurrent(before, plan, now, crashed, redo);
    RedoFinishes(before, plan, now, crashed, redo);
    var finished := Finished(crashed, redo);
    SameThroughout(after, finished, uninterrupted);
    if Completed(crashed, redo) {
      ReplayLeaves(crashed, redo);
    } else {
      assert after == finished;
    }
  }

  lemma SameThroughout(a: Disk, b: Disk, c: Disk)
    requires SameObjects(b, c)
    ensures SameObjects(a, b) <==> SameObjects(a, c)
  {
  }

  lemma RedoIsCurrent(before: Disk, plan: Plan, now: int, crashed: Disk, redo: Plan)
    requires Valid(before) && Current(before, plan, now) && CrashedRun(before, plan, crashed) && Valid(crashed)
    requires IsPlan(crashed, plan.policy, Cutoff(plan.policy, now), redo)
    ensures Current(crashed, redo, now) && forall g :: g in redo.objects ==> g.item in crashed.owned
  {
    var unlinked, dropped :| Interrupted(before, plan, crashed, unlinked, dropped);
    FreshPlanIsPossible(before, plan.policy, Cutoff(plan.policy, now), plan, crashed, unlinked, dropped);
  }

  lemma RedoFinishes(before: Disk, plan: Plan, now: int, crashed: Disk, redo: Plan)
    requires Valid(before) && Current(before, plan, now) && CrashedRun(before, plan, crashed) && Valid(crashed)
    requires IsPlan(crashed, plan.policy, Cutoff(plan.policy, now), redo)
    ensures SameObjects(Finished(crashed, redo), Finished(before, plan)) && redo.removeSnapshots == {}
  {
    var unlinked, dropped :| Interrupted(before, plan, crashed, unlinked, dropped);
    RedoneRunAgrees(before, plan.policy, Cutoff(plan.policy, now), plan, crashed, unlinked, dropped, redo);
  }

  /** Replaying a completed plan differs from carrying it out exactly when it lists something. */
  lemma ReplayLeaves(disk: Disk, plan: Plan)
    requires plan.removeSnapshots == {} && forall g :: g in plan.objects ==> g.item in disk.owned
    ensures SameObjects(disk, Finished(disk, plan)) <==> plan.objects == {}
  {
    if plan.objects == {} {
      assert PlannedObjects(plan) == {};
      assert disk.snapshots - {} == disk.snapshots && disk.owned - {} == disk.owned && disk.files - {} == disk.files;
    } else {
      var g :| g in plan.objects;
      assert g.item in PlannedObjects(plan) && g.item !in Finished(disk, plan).owned;
    }
  }

  // ---- a history after which redoing leaves garbage ----

  const MAIN: string := "main"
  const LOST: SnapshotId := Facts(1, 1, [], 0, 0)
  const OTHER: SnapshotId := Facts(1, 1, [], 0, 1)
  const LOST_SHARD: Object := Shard(LOST, 0)
  const OTHER_SHARD: Object := Shard(OTHER, 0)
  const LOST_FILE: FileIdentity := FileIdentity(1, 1, 1)
  const OTHER_FILE: FileIdentity := FileIdentity(1, 2, 1)

  const KEEP_NOTHING: Policy := Policy(0, 0, {})
  const HEAD_ONLY: map<SnapshotId, set<Reason>> := map[OTHER := {HeadRoot(MAIN)}]
  const COLLECT_SHARD: set<GcObject> := {GcObject(LOST_SHARD, LOST_FILE, true)}
  /** The plan while the row of LOST exists, and the plan while only its shard does. */
  const WITH_ROW: Plan := Plan(KEEP_NOTHING, HEAD_ONLY, {LOST}, COLLECT_SHARD, {OTHER_SHARD})
  const WITHOUT_ROW: Plan := Plan(KEEP_NOTHING, HEAD_ONLY, {}, COLLECT_SHARD, {OTHER_SHARD})

  const EMPTY: Disk := Disk(map[], map[], map[], map[], 0, map[], map[], map[], {})
  /** OTHER is published. */
  const FIRST: Disk := Disk(
    map[OTHER := OTHER_SHARD], map[MAIN := OTHER], map[], map[OTHER := Generation(0, 0)], 1,
    map[OTHER_SHARD := Owned(OTHER_FILE, 0)], map[], map[OTHER_SHARD := OTHER_FILE], {})
  /** A publication of LOST is interrupted before its transaction. */
  const ABANDONED: Disk := WithLostShard(FIRST)
  /** The abandoned shard is collected. */
  const SWEPT: Disk := FIRST.(completedRuns := map[WITHOUT_ROW := true])
  /** LOST is published after all. */
  const RETURNED: Disk := WithLostShard(SWEPT).(
    snapshots := map[OTHER := OTHER_SHARD, LOST := LOST_SHARD], heads := map[MAIN := LOST],
    generations := map[OTHER := Generation(0, 0), LOST := Generation(1, 0)], nextSequence := 2)
  /** The head goes back to OTHER, so nothing keeps LOST. */
  const DISPLACED: Disk := RETURNED.(heads := map[MAIN := OTHER])
  /** Its collection is interrupted after the transaction. */
  const ROW_REMOVED: Disk := RemoveSnapshots(DISPLACED, WITH_ROW)

  function WithLostShard(disk: Disk): Disk {
    disk.(owned := disk.owned[LOST_SHARD := Owned(LOST_FILE, 0)], files := disk.files[LOST_SHARD := LOST_FILE])
  }

  /** Writing and registering one object. */
  ghost function Written(disk: Disk, item: Object, identity: FileIdentity): Result<Disk, Error> {
    Register(PutFile(disk, item, identity), item, 0)
  }

  lemma LostIsWritten(disk: Disk)
    requires LOST_SHARD !in disk.files && LOST_SHARD !in disk.owned
    ensures Written(disk, LOST_SHARD, LOST_FILE) == Ok(WithLostShard(disk))
  {
  }

  lemma FirstIsPublished()
    ensures Written(EMPTY, OTHER_SHARD, OTHER_FILE).Ok?
    ensures CommitPublication(Written(EMPTY, OTHER_SHARD, OTHER_FILE).value, OTHER, OTHER_SHARD, MAIN, None, 0) == Ok(FIRST)
  {
  }

  lemma LostReturns()
    ensures CommitPublication(WithLostShard(SWEPT), LOST, LOST_SHARD, MAIN, Some(OTHER), 0) == Ok(RETURNED)
  {
    var disk := WithLostShard(SWEPT);
    assert RowsWith(disk, LOST, LOST_SHARD) == RETURNED.snapshots && DatesWith(disk, LOST, 0) == RETURNED.generations;
    assert disk.heads[MAIN := LOST] == RETURNED.heads;
  }

  lemma OtherReturns()
    ensures Written(RETURNED, OTHER_SHARD, OTHER_FILE) == Ok(RETURNED)
    ensures CommitPublication(RETURNED, OTHER, OTHER_SHARD, MAIN, Some(LOST), 0) == Ok(DISPLACED)
  {
    assert OTHER_SHARD in RETURNED.files && OTHER_SHARD in RETURNED.owned;
    assert RETURNED.heads[MAIN := OTHER] == DISPLACED.heads;
  }

  /** The disks of the history on which OTHER is the head. */
  ghost predicate HeadIsOther(disk: Disk) {
    && disk.heads == map[MAIN := OTHER] && disk.pins == map[] && disk.observed == {}
    && OTHER in disk.snapshots && disk.snapshots[OTHER] == OTHER_SHARD && OTHER_SHARD in disk.files
    && (forall id :: id in disk.snapshots ==> id == OTHER || (id == LOST && disk.snapshots[LOST] == LOST_SHARD))
    && (LOST in disk.snapshots ==> LOST_SHARD in disk.files)
    && disk.generations.Keys == disk.snapshots.Keys && Dated(disk.generations, disk.nextSequence)
    && forall id :: id in disk.generations ==> disk.generations[id].publishedAt == 0
  }

  lemma HeadIsOtherIsValid(disk: Disk)
    requires HeadIsOther(disk)
    ensures Valid(disk)
  {
    forall id | id in disk.snapshots
      ensures Stored(disk, id)
    {
    }
  }

  /** Only the head keeps anything. */
  lemma OnlyHeadKeeps(disk: Disk, id: SnapshotId, reason: Reason)
    requires HeadIsOther(disk) && Valid(disk)
    ensures KeptFor(disk, KEEP_NOTHING, 1, id, reason) <==> id == OTHER && reason == HeadRoot(MAIN)
  {
  }

  lemma OnlyOtherIsRooted(disk: Disk, id: SnapshotId)
    requires HeadIsOther(disk) && Valid(disk)
    ensures Rooted(disk, KEEP_NOTHING, 1, id) <==> id == OTHER
  {
    if Rooted(disk, KEEP_NOTHING, 1, id) {
      var reason :| KeptFor(disk, KEEP_NOTHING, 1, id, reason);
      OnlyHeadKeeps(disk, id, reason);
    }
    OnlyHeadKeeps(disk, OTHER, HeadRoot(MAIN));
  }

  lemma OnlyOtherIsLive(disk: Disk, item: Object)
    requires HeadIsOther(disk) && Valid(disk)
    ensures Live(disk, KEEP_NOTHING, 1, item) <==> item == OTHER_SHARD
  {
    if Live(disk, KEEP_NOTHING, 1, item) {
      var id :| id in disk.snapshots && Rooted(disk, KEEP_NOTHING, 1, id) && Uses(id, disk.snapshots[id], item);
      OnlyOtherIsRooted(disk, id);
    }
    OnlyOtherIsRooted(disk, OTHER);
    assert Uses(OTHER, disk.snapshots[OTHER], OTHER_SHARD);
  }

  /** The shard of LOST beside the one that is live. */
  ghost predicate LostIsGarbage(disk: Disk) {
    && disk.owned == map[OTHER_SHARD := Owned(OTHER_FILE, 0), LOST_SHARD := Owned(LOST_FILE, 0)]
    && disk.files == map[OTHER_SHARD := OTHER_FILE, LOST_SHARD := LOST_FILE]
  }

  lemma PlanOfHead(disk: Disk, plan: Plan)
    requires HeadIsOther(disk) && Valid(disk) && LostIsGarbage(disk)
    requires plan == Plan(KEEP_NOTHING, HEAD_ONLY, disk.snapshots.Keys - {OTHER}, COLLECT_SHARD, {OTHER_SHARD})
    ensures IsPlan(disk, KEEP_NOTHING, 1, plan)
  {
    forall id, reason
      ensures KeptFor(disk, KEEP_NOTHING, 1, id, reason) <==> id == OTHER && reason == HeadRoot(MAIN)
    {
      OnlyHeadKeeps(disk, id, reason);
    }
    forall id
      ensures Rooted(disk, KEEP_NOTHING, 1, id) <==> id == OTHER
    {
      OnlyOtherIsRooted(disk, id);
    }
    forall item
      ensures Live(disk, KEEP_NOTHING, 1, item) <==> item == OTHER_SHARD
    {
      OnlyOtherIsLive(disk, item);
    }
    assert Planned(disk, LOST_SHARD) == GcObject(LOST_SHARD, LOST_FILE, true);
  }

  lemma PlanOfHeadIsPossible(disk: Disk)
    requires HeadIsOther(disk) && Valid(disk) && LostIsGarbage(disk)
    ensures PlanPossible(disk, KEEP_NOTHING, 1)
  {
    assert disk.snapshots.Keys <= {OTHER, LOST};
    SubsetNoLarger(disk.snapshots.Keys, {OTHER, LOST});
    assert |disk.owned| == 2;
    NoMetadata(disk.snapshots.Keys);
  }

  lemma {:induction false} NoMetadata(ids: set<SnapshotId>)
    requires ids <= {OTHER, LOST}
    ensures MetadataBytes(ids) == 0
    decreases |ids|
  {
    if ids == {} {
      assert MetadataSizes(ids) == map[];
    } else {
      var id :| id in ids;
      NoMetadata(ids - {id});
      TotalUpdate(MetadataSizes(ids - {id}), id, 0);
      assert MetadataSizes(ids) == MetadataSizes(ids - {id})[id := 0];
    }
  }

  lemma PlanOfHeadIsCurrent(disk: Disk, plan: Plan)
    requires HeadIsOther(disk) && LostIsGarbage(disk)
    requires plan == Plan(KEEP_NOTHING, HEAD_ONLY, disk.snapshots.Keys - {OTHER}, COLLECT_SHARD, {OTHER_SHARD})
    ensures Valid(disk) && IsPlan(disk, KEEP_NOTHING, 1, plan) && Current(disk, plan, 1)
  {
    HeadIsOtherIsValid(disk);
    PlanOfHead(disk, plan);
    PlanOfHeadIsPossible(disk);
  }

  lemma TransactionOnly(before: Disk, plan: Plan)
    ensures CrashedRun(before, plan, RemoveSnapshots(before, plan))
  {
    var none: set<Object> := {};
    assert RemoveSnapshots(before, plan) == Progress(before, plan, none, none);
    assert Interrupted(before, plan, RemoveSnapshots(before, plan), none, none);
  }

  /** A current plan that was not completed is carried out, or interrupted after its transaction. */
  lemma RunOfCurrent(before: Disk, plan: Plan, now: int)
    requires Valid(before) && !Completed(before, plan) && Current(before, plan, now)
    ensures GcRun(before, plan, now, NoFailure, Ok(()), Finished(before, plan))
    ensures GcRun(before, plan, now, AfterCommit, Err(InjectedFailure), RemoveSnapshots(before, plan))
  {
    TransactionOnly(before, plan);
  }

  lemma ReplayOfCompleted(disk: Disk, plan: Plan, now: int)
    requires Valid(disk) && Completed(disk, plan)
    ensures GcRun(disk, plan, now, NoFailure, Ok(()), disk)
  {
  }

  lemma CollectedIsGone(disk: Disk, plan: Plan, g: GcObject)
    requires g in plan.objects
    ensures g.item !in Finished(disk, plan).files
  {
    assert g.item in PlannedObjects(plan);
  }

  lemma AbandonedIsPlanned()
    ensures Valid(ABANDONED) && Current(ABANDONED, WITHOUT_ROW, 1) && !Completed(ABANDONED, WITHOUT_ROW)
  {
    assert ABANDONED.snapshots.Keys - {OTHER} == {};
    PlanOfHeadIsCurrent(ABANDONED, WITHOUT_ROW);
  }

  lemma DisplacedIsPlanned()
    ensures Valid(DISPLACED) && Current(DISPLACED, WITH_ROW, 1)
  {
    assert DISPLACED.snapshots.Keys - {OTHER} == {LOST};
    PlanOfHeadIsCurrent(DISPLACED, WITH_ROW);
  }

  lemma RemovedIsPlanned()
    ensures Valid(ROW_REMOVED) && IsPlan(ROW_REMOVED, KEEP_NOTHING, 1, WITHOUT_ROW)
  {
    assert ROW_REMOVED.snapshots.Keys - {OTHER} == {};
    PlanOfHeadIsCurrent(ROW_REMOVED, WITHOUT_ROW);
  }

  lemma HistoryRuns()
    ensures !Completed(DISPLACED, WITH_ROW) && Completed(ROW_REMOVED, WITHOUT_ROW)
  {
    assert LOST in WITH_ROW.removeSnapshots;
  }

  /** Collecting one object that was just written leaves the disk as it was, with the run on record. */
  lemma SweepUndoes(disk: Disk, plan: Plan, item: Object, owned: Owned)
    requires plan.removeSnapshots == {} && PlannedObjects(plan) == {item} && item !in disk.owned && item !in disk.files
    ensures Finished(disk.(owned := disk.owned[item := owned], files := disk.files[item := owned.identity]), plan)
         == disk.(completedRuns := disk.completedRuns[plan := true])
  {
    assert disk.owned[item := owned] - {item} == disk.owned;
    assert disk.files[item := owned.identity] - {item} == disk.files;
    assert disk.snapshots - {} == disk.snapshots && disk.generations - {} == disk.generations;
    assert disk.completedRuns[plan := false][plan := true] == disk.completedRuns[plan := true];
  }

  lemma SweptIsFinished()
    ensures Finished(ABANDONED, WITHOUT_ROW) == SWEPT
  {
    assert PlannedObjects(WITHOUT_ROW) == {LOST_SHARD};
    SweepUndoes(FIRST, WITHOUT_ROW, LOST_SHARD, Owned(LOST_FILE, 0));
  }

  /** The history, operation by operation, from an empty store. */
  lemma LostHistory()
    ensures Written(EMPTY, OTHER_SHARD, OTHER_FILE).Ok?
    ensures CommitPublication(Written(EMPTY, OTHER_SHARD, OTHER_FILE).value, OTHER, OTHER_SHARD, MAIN, None, 0) == Ok(FIRST)
    ensures Written(FIRST, LOST_SHARD, LOST_FILE) == Ok(ABANDONED)
    ensures Valid(ABANDONED) && GcRun(ABANDONED, WITHOUT_ROW, 1, NoFailure, Ok(()), SWEPT)
    ensures Written(SWEPT, LOST_SHARD, LOST_FILE) == Ok(WithLostShard(SWEPT))
    ensures CommitPublication(WithLostShard(SWEPT), LOST, LOST_SHARD, MAIN, Some(OTHER), 0) == Ok(RETURNED)
    ensures Written(RETURNED, OTHER_SHARD, OTHER_FILE) == Ok(RETURNED)
    ensures CommitPublication(RETURNED, OTHER, OTHER_SHARD, MAIN, Some(LOST), 0) == Ok(DISPLACED)
  {
    FirstIsPublished();
    LostIsWritten(FIRST);
    AbandonedIsPlanned();
    RunOfCurrent(ABANDONED, WITHOUT_ROW, 1);
    SweptIsFinished();
    LostIsWritten(SWEPT);
    LostReturns();
    OtherReturns();
  }

  /** After that history the fresh plan is the one completed long ago, so executing it leaves the shard
      behind, which the uninterrupted run would have removed. */
  lemma RedoneExecutionCanDiffer()
    ensures Valid(DISPLACED) && Valid(ROW_REMOVED)
    ensures GcRun(DISPLACED, WITH_ROW, 1, AfterCommit, Err(InjectedFailure), ROW_REMOVED)
    ensures IsPlan(ROW_REMOVED, KEEP_NOTHING, 1, WITHOUT_ROW)
    ensures GcRun(ROW_REMOVED, WITHOUT_ROW, 1, NoFailure, Ok(()), ROW_REMOVED)
    ensures GcRun(DISPLACED, WITH_ROW, 1, NoFailure, Ok(()), Finished(DISPLACED, WITH_ROW))
    ensures LOST_SHARD in ROW_REMOVED.files && LOST_SHARD !in Finished(DISPLACED, WITH_ROW).files
  {
    DisplacedIsPlanned();
    RemovedIsPlanned();
    HistoryRuns();
    RunOfCurrent(DISPLACED, WITH_ROW, 1);
    ReplayOfCompleted(ROW_REMOVED, WITHOUT_ROW, 1);
    CollectedIsGone(DISPLACED, WITH_ROW, GcObject(LOST_SHARD, LOST_FILE, true));
  }
}
