/** Runs of the scheduler with its worker, its publishing children, failing writes and restarts.

    Submission and cancellation hold the publication lock for their whole critical section, and a
    child holds it from its fence check through its catalog commit. The scheduler may be replaced
    after any write, and children of a dead scheduler may still be running. */
module SchedulerRuns {
  import opened Wrappers
  import opened Jobs
  import opened Scheduler

  datatype Child = Child(profile: string, id: nat)

  /** A catalog commit made on behalf of a job. */
  datatype CatalogCommit = CatalogCommit(profile: string, id: nat)

  /** chosen is the job the worker picked but has not started. serials orders identities by
      submission and is history only. */
  datatype World = World(
    maxQueued: nat, state: State, workerAlive: bool, chosen: Option<nat>,
    children: map<nat, Child>, guard: Option<nat>, commits: seq<CatalogCommit>,
    serials: map<nat, nat>, nextSerial: nat)

  datatype Action =
    | Submit(request: Request, id: nat, fence: Write, write: Write)
    | Cancel(id: nat, fence: Write, write: Write)
    | Choose
    | Start(write: Write)
    | Progress(stage: Stage, write: Write)
    | Conclude(outcome: Outcome, write: Write)
    | Shutdown
    | Restart(maxQueued: nat)
    | Spawn(pid: nat)
    | TakeGuard(pid: nat)
    | Publish(pid: nat)
    | Exit(pid: nat)

  // ---- steps ----

  ghost function DoSubmit(w: World, request: Request, id: nat, fence: Write, write: Write): World {
    var after := w.(state := SubmitEffect(w.state, w.maxQueued, request, id, fence, write));
    if Admit(w.state.jobs, request, id, w.maxQueued).Accepted?
    then after.(serials := w.serials[id := w.nextSerial], nextSerial := w.nextSerial + 1)
    else after
  }

  ghost function DoChoose(w: World): Option<World> {
    if !w.workerAlive || w.state.held.Some? || w.chosen.Some? then None
    else
      match NextQueued(w.state.jobs)
      case None => None
      case Some(i) => Some(w.(chosen := Some(w.state.jobs[i].id)))
  }

  ghost function DoStart(w: World, write: Write): Option<World> {
    if !w.workerAlive || w.state.held.Some? || w.chosen.None? then None
    else
      var after := StartEffect(w.state, w.chosen.value, write);
      Some(w.(state := after, chosen := None,
              workerAlive := write == Written && Find(w.state.jobs, w.chosen.value).Some?))
  }

  /** The position of the job in flight, while the worker is executing it. */
  ghost function Executing(w: World): Option<nat> {
    if !w.workerAlive || w.state.held.None? then None else Find(w.state.jobs, w.state.held.value)
  }

  ghost predicate Committed(commits: seq<CatalogCommit>, id: nat) {
    exists k :: 0 <= k < |commits| && commits[k].id == id
  }

  /** The child is reaped before the last update; only one that committed reports success. */
  ghost function DoConclude(w: World, outcome: Outcome, write: Write): Option<World> {
    match Executing(w)
    case None => None
    case Some(i) =>
      if outcome.Published? && !Committed(w.commits, w.state.held.value) then None
      else
        var reaped := Reap(w, w.state.held.value);
        Some(reaped.(state := ConcludeEffect(w.state, i, outcome, write), workerAlive := write == Written))
  }

  ghost function Reap(w: World, id: nat): World {
    w.(children := map pid | pid in w.children && w.children[pid].id != id :: w.children[pid],
       guard := if w.guard.Some? && w.guard.value in w.children && w.children[w.guard.value].id == id then None else w.guard)
  }

  /** A crashed or stopped scheduler is replaced; fences and surviving children stay. */
  ghost function DoRestart(w: World, maxQueued: nat): World {
    var recovered := RecoverAll(w.state.journal);
    w.(maxQueued := maxQueued, state := State(recovered, recovered, w.state.fences, false, None),
       workerAlive := true, chosen := None)
  }

  /** The effect of an action; None when it is not enabled. */
  ghost function Step(w: World, a: Action): Option<World> {
    match a
    case Submit(request, id, fence, write) =>
      if w.guard.None? && !w.state.stop && RequestValid(request) && id !in w.serials
      then Some(DoSubmit(w, request, id, fence, write)) else None
    case Cancel(id, fence, write) =>
      if w.guard.None? then Some(w.(state := CancelEffect(w.state, id, fence, write))) else None
    case Choose => DoChoose(w)
    case Start(write) => DoStart(w, write)
    case Progress(stage, write) =>
      (match Executing(w)
       case None => None
       case Some(i) => Some(w.(state := ProgressEffect(w.state, i, stage, write))))
    case Conclude(outcome, write) => DoConclude(w, outcome, write)
    case Shutdown => Some(w.(state := w.state.(stop := true)))
    case Restart(maxQueued) => if 1 <= maxQueued <= 32 then Some(DoRestart(w, maxQueued)) else None
    case Spawn(pid) =>
      (match Executing(w)
       case None => None
       case Some(i) =>
         if pid in w.children then None
         else Some(w.(children := w.children[pid := Child(w.state.jobs[i].request.profile, w.state.jobs[i].id)])))
    case TakeGuard(pid) =>
      if pid in w.children && w.guard.None? && FencedFor(w.state.fences, w.children[pid])
      then Some(w.(guard := Some(pid))) else None
    case Publish(pid) =>
      if pid in w.children && w.guard == Some(pid)
      then Some(w.(commits := w.commits + [CatalogCommit(w.children[pid].profile, w.children[pid].id)])) else None
    case Exit(pid) =>
      if pid in w.children
      then Some(w.(children := w.children - {pid}, guard := if w.guard == Some(pid) then None else w.guard)) else None
  }

  /** The fence of the child's profile names the child's job. */
  ghost predicate FencedFor(fences: map<string, Fence>, child: Child) {
    child.profile in fences && fences[child.profile] == Generation(child.id)
  }

  /** The world after a sequence of actions; None when one of them is not enabled. */
  ghost function Run(w: World, actions: seq<Action>): Option<World>
    decreases |actions|
  {
    if actions == [] then Some(w)
    else
      match Step(w, actions[0])
      case None => None
      case Some(next) => Run(next, actions[1..])
  }

  /** A store without jobs. */
  ghost predicate Initial(w: World) {
    && 1 <= w.maxQueued <= 32 && w.state == State([], [], map[], false, None) && w.workerAlive && w.chosen == None
    && w.children == map[] && w.guard == None && w.commits == [] && w.serials == map[]
  }

  // ---- how job records evolve ----

  ghost predicate Withdrawn(status: Status) {
    status == Cancelled || status == Cancelling
  }

  /** What one step may do to the records: admit a job, withdraw some and complete some. */
  datatype Change = Change(admitted: Option<Job>, withdrawn: set<nat>, succeeded: set<nat>)

  const NOTHING := Change(None, {}, {})

  /** after is a later version of the same job. A finished job has only one version. */
  ghost predicate LaterVersion(before: Job, after: Job, c: Change) {
    && before.id == after.id && before.request == after.request
    && (Terminal(before.status) ==> after == before)
    && (after.status == Queued ==> before.status == Queued)
    && (Withdrawn(after.status) ==> Withdrawn(before.status) || after.id in c.withdrawn)
    && (after.status == Succeeded ==> before.status == Succeeded || after.id in c.succeeded)
  }

  ghost predicate Recorded(s: State, job: Job) {
    job in s.jobs || job in s.journal
  }

  ghost predicate HasEarlier(s: State, job: Job, c: Change) {
    exists b :: Recorded(s, b) && LaterVersion(b, job, c)
  }

  /** Every record of the new state is a later version of an old record, or the admitted job; the
      list in memory changes only together with the journal. */
  ghost predicate Evolves(s: State, s': State, c: Change) {
    && (forall r :: Recorded(s', r) ==> HasEarlier(s, r, c) || c.admitted == Some(r))
    && (s'.jobs == s.jobs || s'.jobs == s'.journal)
  }

  lemma SaveEvolves(s: State, updated: seq<Job>, write: Write, c: Change)
    requires forall k :: 0 <= k < |updated| ==> HasEarlier(s, updated[k], c) || c.admitted == Some(updated[k])
    ensures Evolves(s, Save(s, updated, write), c)
  {
    forall r | Recorded(s, r)
      ensures HasEarlier(s, r, c)
    {
      assert LaterVersion(r, r, c);
    }
  }

  lemma ReplaceEvolves(s: State, i: nat, after: Job, write: Write, c: Change)
    requires i < |s.jobs| && LaterVersion(s.jobs[i], after, c)
    ensures Evolves(s, Save(s, s.jobs[i := after], write), c)
  {
    var updated := s.jobs[i := after];
    forall k | 0 <= k < |updated|
      ensures HasEarlier(s, updated[k], c)
    {
      assert Recorded(s, s.jobs[k]) && LaterVersion(s.jobs[k], updated[k], c);
    }
    SaveEvolves(s, updated, write, c);
  }

  lemma {:induction false} EvictKeepsMembers(jobs: seq<Job>)
    ensures Evict(jobs).Some? ==> forall k :: 0 <= k < |Evict(jobs).value| ==> Evict(jobs).value[k] in jobs
    decreases |jobs|
  {
    if |jobs| >= MAX_HISTORY && FirstTerminal(jobs).Some? {
      var i := FirstTerminal(jobs).value;
      EvictKeepsMembers(Without(jobs, i));
      assert forall k :: 0 <= k < |Without(jobs, i)| ==> Without(jobs, i)[k] in jobs;
    }
  }

  /** The identities a submission for a profile withdraws. */
  ghost function ActiveIds(jobs: seq<Job>, profile: string): set<nat> {
    set k | 0 <= k < |jobs| && jobs[k].request.profile == profile && !Terminal(jobs[k].status) :: jobs[k].id
  }

  ghost function SubmitChange(jobs: seq<Job>, request: Request, id: nat): Change {
    Change(Some(NewJob(id, request)), ActiveIds(jobs, request.profile), {})
  }

  lemma AdmittedRecords(s: State, request: Request, id: nat, maxQueued: nat)
    requires Admit(s.jobs, request, id, maxQueued).Accepted?
    ensures forall k :: 0 <= k < |Admit(s.jobs, request, id, maxQueued).jobs| ==>
      var job := Admit(s.jobs, request, id, maxQueued).jobs[k];
      var c := SubmitChange(s.jobs, request, id);
      HasEarlier(s, job, c) || c.admitted == Some(job)
  {
    var c := SubmitChange(s.jobs, request, id);
    var updated := SupersedeAll(s.jobs, request.profile);
    EvictKeepsMembers(updated);
    var kept := Evict(updated).value;
    forall k | 0 <= k < |kept|
      ensures HasEarlier(s, kept[k], c)
    {
      var i := SupersededFrom(s.jobs, request.profile, kept[k]);
      assert Recorded(s, s.jobs[i]) && LaterVersion(s.jobs[i], kept[k], c);
    }
  }

  lemma SubmitEvolves(s: State, maxQueued: nat, request: Request, id: nat, fence: Write, write: Write)
    ensures Evolves(s, SubmitEffect(s, maxQueued, request, id, fence, write), SubmitChange(s.jobs, request, id))
  {
    var c := SubmitChange(s.jobs, request, id);
    SaveEvolves(s, s.jobs, Write.Failed, c) by {
      SelfEvolves(s, c);
    }
    if Admit(s.jobs, request, id, maxQueued).Accepted? {
      AdmittedRecords(s, request, id, maxQueued);
      var updated := Admit(s.jobs, request, id, maxQueued).jobs;
      SaveEvolves(s, updated, write, c);
    }
  }

  lemma SelfEvolves(s: State, c: Change)
    ensures forall r :: Recorded(s, r) ==> HasEarlier(s, r, c)
  {
    forall r | Recorded(s, r)
      ensures HasEarlier(s, r, c)
    {
      assert LaterVersion(r, r, c);
    }
  }

  lemma CancelEvolves(s: State, id: nat, fence: Write, write: Write)
    ensures Evolves(s, CancelEffect(s, id, fence, write), Change(None, {id}, {}))
  {
    var c := Change(None, {id}, {});
    SelfEvolves(s, c);
    if Find(s.jobs, id).Some? {
      var i := Find(s.jobs, id).value;
      if Current(s.jobs[i].status) {
        ReplaceEvolves(s, i, Revoked(s.jobs[i]), write, c);
      }
    }
  }

  lemma StartEvolves(s: State, id: nat, write: Write)
    ensures Evolves(s, StartEffect(s, id, write), NOTHING)
  {
    SelfEvolves(s, NOTHING);
    if Find(s.jobs, id).Some? {
      var i := Find(s.jobs, id).value;
      ReplaceEvolves(s, i, Started(s.jobs[i]), write, NOTHING);
    }
  }

  ghost function ConcludeChange(job: Job, outcome: Outcome, write: Write): Change {
    if !Replaced(write) then NOTHING
    else if outcome.Published? then Change(None, {}, {job.id}) else Change(None, {job.id}, {})
  }

  lemma ConcludeEvolves(s: State, i: nat, outcome: Outcome, write: Write)
    requires i < |s.jobs| && InFlight(s.jobs[i].status)
    ensures Evolves(s, ConcludeEffect(s, i, outcome, write), ConcludeChange(s.jobs[i], outcome, write))
  {
    SelfEvolves(s, NOTHING);
    if Replaced(write) {
      ReplaceEvolves(s, i, Concluded(s.jobs[i], outcome, s.stop), write, ConcludeChange(s.jobs[i], outcome, write));
    }
  }

  lemma RecoverEvolves(s: State)
    ensures Evolves(s, State(RecoverAll(s.journal), RecoverAll(s.journal), s.fences, false, None), NOTHING)
  {
    var recovered := RecoverAll(s.journal);
    forall r | r in recovered
      ensures HasEarlier(s, r, NOTHING)
    {
      var k :| 0 <= k < |recovered| && recovered[k] == r;
      assert Recorded(s, s.journal[k]) && LaterVersion(s.journal[k], r, NOTHING);
    }
  }

  // ---- finished jobs are final ----

  /** Every record of this job is this one. */
  ghost predicate Settled(s: State, job: Job) {
    Terminal(job.status) && forall r :: Recorded(s, r) && r.id == job.id ==> r == job
  }

  /** Finished jobs in memory are settled. */
  ghost predicate FinishedAgree(s: State) {
    forall job :: job in s.jobs && Terminal(job.status) ==> Settled(s, job)
  }

  lemma SettledStays(s: State, s': State, c: Change, job: Job)
    requires Settled(s, job) && Evolves(s, s', c) && (c.admitted.Some? ==> c.admitted.value.id != job.id)
    ensures Settled(s', job)
  {
    forall r | Recorded(s', r) && r.id == job.id
      ensures r == job
    {
      var b :| Recorded(s, b) && LaterVersion(b, r, c);
    }
  }

  lemma FinishedStaysAgreed(s: State, s': State, c: Change)
    requires FinishedAgree(s) && Evolves(s, s', c) && RecordsValid(s'.jobs)
    requires c.admitted.Some? ==> forall r :: Recorded(s, r) ==> r.id != c.admitted.value.id
    ensures FinishedAgree(s')
  {
    forall job | job in s'.jobs && Terminal(job.status)
      ensures Settled(s', job)
    {
      if s'.jobs == s.jobs {
        assert Recorded(s, job);
        SettledStays(s, s', c, job);
      } else {
        var i :| 0 <= i < |s'.jobs| && s'.jobs[i] == job;
        assert forall k :: 0 <= k < |s'.jobs| && s'.jobs[k].id == job.id ==> k == i;
      }
    }
  }

  // ---- the invariant ----

  ghost predicate Unfenced(fences: map<string, Fence>, id: nat) {
    forall p :: p in fences ==> fences[p] != Generation(id)
  }

  /** No process runs for the job and the worker will not start one. */
  ghost predicate Quiet(w: World, id: nat) {
    && (forall pid :: pid in w.children ==> w.children[pid].id != id)
    && !(w.workerAlive && w.state.held == Some(id))
    && forall job :: Recorded(w.state, job) && job.id == id ==> job.status != Queued
  }

  /** The job cannot publish now or later. */
  ghost predicate Silenced(w: World, id: nat) {
    id in w.serials && (Unfenced(w.state.fences, id) || Quiet(w, id))
  }

  ghost predicate WithdrawnSilenced(w: World) {
    forall r :: Recorded(w.state, r) && Withdrawn(r.status) ==> Silenced(w, r.id)
  }

  ghost predicate SucceededCommitted(w: World) {
    forall r :: Recorded(w.state, r) && r.status == Succeeded ==> Committed(w.commits, r.id)
  }

  /** Every identity in play was issued by a submission. */
  ghost predicate Issued(w: World) {
    && (forall r :: Recorded(w.state, r) ==> r.id in w.serials)
    && (forall p :: p in w.state.fences && w.state.fences[p].Generation? ==> w.state.fences[p].id in w.serials)
    && (forall k :: 0 <= k < |w.commits| ==> w.commits[k].id in w.serials)
    && (forall id :: id in w.serials ==> w.serials[id] < w.nextSerial)
  }

  /** A fence names jobs of its own profile only. */
  ghost predicate FencesOwned(s: State) {
    forall p, r :: p in s.fences && Recorded(s, r) && s.fences[p] == Generation(r.id) ==> r.request.profile == p
  }

  /** The holder of the publication lock passed its fence check, and the fence has not changed since. */
  ghost predicate GuardFenced(w: World) {
    w.guard.Some? ==> w.guard.value in w.children && FencedFor(w.state.fences, w.children[w.guard.value])
  }

  ghost predicate Before(w: World, a: nat, b: nat) {
    a in w.serials && b in w.serials && w.serials[a] <= w.serials[b]
  }

  /** Within a profile, commits happen in submission order. */
  ghost predicate InOrder(w: World) {
    forall i, j :: 0 <= i < j < |w.commits| && w.commits[i].profile == w.commits[j].profile ==>
      Before(w, w.commits[i].id, w.commits[j].id)
  }

  /** No fence has fallen behind a commit of its profile. */
  ghost predicate FencesAhead(w: World) {
    forall p, k :: p in w.state.fences && w.state.fences[p].Generation?
                   && 0 <= k < |w.commits| && w.commits[k].profile == p ==>
      Before(w, w.commits[k].id, w.state.fences[p].id)
  }

  ghost predicate RecordsInv(w: World) {
    StateValid(w.state, w.maxQueued) && FinishedAgree(w.state) && WithdrawnSilenced(w) && SucceededCommitted(w)
  }

  ghost predicate FencesInv(w: World) {
    Issued(w) && FencesOwned(w.state) && GuardFenced(w) && InOrder(w) && FencesAhead(w)
  }

  ghost predicate Inv(w: World) {
    RecordsInv(w) && FencesInv(w)
  }

  lemma InitialInv(w: World)
    requires Initial(w)
    ensures Inv(w)
  {
  }

  // ---- what one step does to the world ----

  /** The records change by c; fences, processes and commits are unchanged except that processes may end. */
  ghost predicate Ordinary(w: World, w': World, c: Change) {
    && StateValid(w'.state, w'.maxQueued) && Evolves(w.state, w'.state, c) && c.admitted == None
    && w'.state.fences == w.state.fences && w'.commits == w.commits
    && w'.serials == w.serials && w'.nextSerial == w.nextSerial
    && (forall pid :: pid in w'.children ==> pid in w.children && w'.children[pid] == w.children[pid])
    && (w'.guard == None || (w'.guard == w.guard && (w.guard.Some? ==> w.guard.value in w'.children)))
  }

  /** The fence of one profile moves to a fresh identity or to the cancelled mark, with the lock free. */
  ghost predicate Refenced(w: World, w': World, c: Change, profile: string) {
    && StateValid(w'.state, w'.maxQueued) && Evolves(w.state, w'.state, c)
    && w.guard == None && w' == w.(state := w'.state, serials := w'.serials, nextSerial := w'.nextSerial)
    && w'.state.held == w.state.held
    && (w'.state.fences == w.state.fences
        || (profile in w'.state.fences && w'.state.fences == w.state.fences[profile := w'.state.fences[profile]]))
    && match c.admitted
       case None =>
         && w'.serials == w.serials && w'.nextSerial == w.nextSerial
         && (w'.state.fences == w.state.fences || w'.state.fences[profile] == CancelledGeneration)
       case Some(job) =>
         && job.id !in w.serials && job.request.profile == profile
         && w'.serials == w.serials[job.id := w.nextSerial] && w'.nextSerial == w.nextSerial + 1
         && (w'.state.fences == w.state.fences || w'.state.fences[profile] == Generation(job.id))
  }

  lemma OrdinaryKeepsFences(w: World, w': World, c: Change)
    requires FencesInv(w) && Ordinary(w, w', c)
    ensures FencesInv(w')
  {
    forall r | Recorded(w'.state, r)
      ensures r.id in w'.serials
      ensures forall p :: p in w.state.fences && w.state.fences[p] == Generation(r.id) ==> r.request.profile == p
    {
      var b :| Recorded(w.state, b) && LaterVersion(b, r, c);
    }
    assert Issued(w') && FencesOwned(w'.state);
    OrderKept(w, w');
  }

  /** Order facts only depend on fences, commits and serials. */
  lemma OrderKept(w: World, w': World)
    requires InOrder(w) && FencesAhead(w) && Issued(w) && w'.commits == w.commits
    requires forall id :: id in w.serials ==> id in w'.serials && w'.serials[id] == w.serials[id]
    requires forall p :: p in w'.state.fences && w'.state.fences[p].Generation? ==>
      (p in w.state.fences && w.state.fences[p] == w'.state.fences[p])
      || (w'.state.fences[p].id in w'.serials && w'.serials[w'.state.fences[p].id] >= w.nextSerial)
    ensures InOrder(w') && FencesAhead(w')
  {
    forall i, j | 0 <= i < j < |w'.commits| && w'.commits[i].profile == w'.commits[j].profile
      ensures Before(w', w'.commits[i].id, w'.commits[j].id)
    {
      assert Before(w, w.commits[i].id, w.commits[j].id);
    }
    forall p, k | p in w'.state.fences && w'.state.fences[p].Generation? && 0 <= k < |w'.commits| && w'.commits[k].profile == p
      ensures Before(w', w'.commits[k].id, w'.state.fences[p].id)
    {
      if p in w.state.fences && w.state.fences[p] == w'.state.fences[p] {
        assert Before(w, w.commits[k].id, w.state.fences[p].id);
      }
    }
  }

  lemma RefencedKeepsFences(w: World, w': World, c: Change, profile: string)
    requires FencesInv(w) && Refenced(w, w', c, profile)
    ensures FencesInv(w')
  {
    forall r | Recorded(w'.state, r)
      ensures r.id in w'.serials
      ensures forall p :: p in w'.state.fences && w'.state.fences[p] == Generation(r.id) ==> r.request.profile == p
    {
      if HasEarlier(w.state, r, c) {
        var b :| Recorded(w.state, b) && LaterVersion(b, r, c);
      }
    }
    assert Issued(w') && FencesOwned(w'.state);
    OrderKept(w, w');
  }

  lemma OrdinaryKeepsRecords(w: World, w': World, c: Change)
    requires RecordsInv(w) && Ordinary(w, w', c)
    requires forall id :: Silenced(w, id) ==> Silenced(w', id)
    requires forall id :: id in c.withdrawn ==> Silenced(w', id)
    requires forall id :: id in c.succeeded ==> Committed(w.commits, id)
    ensures RecordsInv(w')
  {
    FinishedStaysAgreed(w.state, w'.state, c);
    forall r | Recorded(w'.state, r)
      ensures Withdrawn(r.status) ==> Silenced(w', r.id)
      ensures r.status == Succeeded ==> Committed(w'.commits, r.id)
    {
      var b :| Recorded(w.state, b) && LaterVersion(b, r, c);
    }
  }

  lemma RefencedKeepsRecords(w: World, w': World, c: Change, profile: string)
    requires Inv(w) && Refenced(w, w', c, profile) && c.succeeded == {}
    requires forall id :: Silenced(w, id) ==> Silenced(w', id)
    requires w'.state == w.state || forall id :: id in c.withdrawn ==> Silenced(w', id)
    requires c.admitted.Some? ==> c.admitted.value.status == Queued
    ensures RecordsInv(w')
  {
    FinishedStaysAgreed(w.state, w'.state, c);
    forall r | Recorded(w'.state, r)
      ensures Withdrawn(r.status) ==> Silenced(w', r.id)
      ensures r.status == Succeeded ==> Committed(w'.commits, r.id)
    {
      if HasEarlier(w.state, r, c) {
        var b :| Recorded(w.state, b) && LaterVersion(b, r, c);
        assert w'.state == w.state ==> Recorded(w.state, r);
      }
    }
  }

  // ---- every step keeps the invariant ----

  /** Records without a fresh Queued entry leave a quiet job quiet. */
  lemma QuietRecords(s: State, s': State, c: Change, id: nat)
    requires Evolves(s, s', c) && (c.admitted.Some? ==> c.admitted.value.id != id)
    requires forall job :: Recorded(s, job) && job.id == id ==> job.status != Queued
    ensures forall job :: Recorded(s', job) && job.id == id ==> job.status != Queued
  {
    forall job | Recorded(s', job) && job.id == id
      ensures job.status != Queued
    {
      var b :| Recorded(s, b) && LaterVersion(b, job, c);
    }
  }

  lemma OrdinarySilence(w: World, w': World, c: Change, id: nat)
    requires Ordinary(w, w', c) && Silenced(w, id)
    requires Quiet(w, id) ==> !(w'.workerAlive && w'.state.held == Some(id))
    ensures Silenced(w', id)
  {
    if Quiet(w, id) { QuietRecords(w.state, w'.state, c, id); }
  }

  lemma RefencedSilence(w: World, w': World, c: Change, profile: string, id: nat)
    requires Refenced(w, w', c, profile) && Silenced(w, id)
    ensures Silenced(w', id)
  {
    if Quiet(w, id) { QuietRecords(w.state, w'.state, c, id); }
  }

  /** After its profile's fence moved on, a recorded job of that profile is fenced out. */
  lemma FencedOut(w: World, w': World, job: Job)
    requires FencesInv(w) && Recorded(w.state, job) && job.id in w'.serials
    requires job.request.profile in w'.state.fences && w'.state.fences[job.request.profile] != Generation(job.id)
    requires w'.state.fences == w.state.fences[job.request.profile := w'.state.fences[job.request.profile]]
    ensures Silenced(w', job.id)
  {
    forall p | p in w'.state.fences
      ensures w'.state.fences[p] != Generation(job.id)
    {
    }
  }

  lemma SaveFencedShape(s: State, profile: string, value: Fence, updated: seq<Job>, fence: Write, write: Write)
    ensures var s' := SaveFenced(s, profile, value, updated, fence, write);
      && s'.held == s.held
      && s'.fences == (if Replaced(fence) then s.fences[profile := value] else s.fences)
      && (!Replaced(fence) ==> s' == s)
  {
  }

  /** An admission is a fence step of its profile. */
  lemma AdmissionRefences(w: World, s': State, job: Job, c: Change)
    requires StateValid(s', w.maxQueued) && Evolves(w.state, s', c) && c.admitted == Some(job)
    requires w.guard == None && job.id !in w.serials && s'.held == w.state.held
    requires s'.fences == w.state.fences || s'.fences == w.state.fences[job.request.profile := Generation(job.id)]
    ensures Refenced(w, w.(state := s', serials := w.serials[job.id := w.nextSerial], nextSerial := w.nextSerial + 1),
                     c, job.request.profile)
  {
  }

  lemma SubmitRefences(w: World, request: Request, id: nat, fence: Write, write: Write)
    requires Inv(w) && Step(w, Submit(request, id, fence, write)).Some?
    requires Admit(w.state.jobs, request, id, w.maxQueued).Accepted?
    ensures var w' := DoSubmit(w, request, id, fence, write);
      && Refenced(w, w', SubmitChange(w.state.jobs, request, id), request.profile)
      && (w'.state == w.state || w'.state.fences == w.state.fences[request.profile := Generation(id)])
  {
    assert forall k :: 0 <= k < |w.state.jobs| ==> Recorded(w.state, w.state.jobs[k]);
    SubmitKeepsValid(w.state, w.maxQueued, request, id, fence, write);
    SubmitEvolves(w.state, w.maxQueued, request, id, fence, write);
    var updated := Admit(w.state.jobs, request, id, w.maxQueued).jobs;
    SaveFencedShape(w.state, request.profile, Generation(id), updated, fence, write);
    AdmissionRefences(w, SubmitEffect(w.state, w.maxQueued, request, id, fence, write), NewJob(id, request),
                      SubmitChange(w.state.jobs, request, id));
  }

  lemma SubmitWithdraws(w: World, w': World, request: Request, id: nat, x: nat)
    requires Inv(w) && Refenced(w, w', SubmitChange(w.state.jobs, request, id), request.profile)
    requires w'.state.fences == w.state.fences[request.profile := Generation(id)] && id !in w.serials
    requires x in ActiveIds(w.state.jobs, request.profile)
    ensures Silenced(w', x)
  {
    var k :| 0 <= k < |w.state.jobs| && w.state.jobs[k].request.profile == request.profile && w.state.jobs[k].id == x;
    assert Recorded(w.state, w.state.jobs[k]);
    FencedOut(w, w', w.state.jobs[k]);
  }

  lemma SubmitKeepsInv(w: World, request: Request, id: nat, fence: Write, write: Write)
    requires Inv(w) && Step(w, Submit(request, id, fence, write)).Some?
    ensures var w' := DoSubmit(w, request, id, fence, write);
      Inv(w') && forall x :: Silenced(w, x) ==> Silenced(w', x)
  {
    if Admit(w.state.jobs, request, id, w.maxQueued).Accepted? {
      AcceptedKeepsInv(w, request, id, fence, write);
    }
  }

  lemma AcceptedKeepsInv(w: World, request: Request, id: nat, fence: Write, write: Write)
    requires Inv(w) && Step(w, Submit(request, id, fence, write)).Some?
    requires Admit(w.state.jobs, request, id, w.maxQueued).Accepted?
    ensures var w' := DoSubmit(w, request, id, fence, write);
      Inv(w') && forall x :: Silenced(w, x) ==> Silenced(w', x)
  {
    var w' := DoSubmit(w, request, id, fence, write);
    var c := SubmitChange(w.state.jobs, request, id);
    SubmitRefences(w, request, id, fence, write);
    var fenced := w'.state.fences == w.state.fences[request.profile := Generation(id)];
    RefencedKeepsInv(w, w', c, request.profile) by {
      if fenced {
        forall x | x in c.withdrawn
          ensures Silenced(w', x)
        {
          SubmitWithdraws(w, w', request, id, x);
        }
      }
    }
  }

  lemma RefencedKeepsInv(w: World, w': World, c: Change, profile: string)
    requires Inv(w) && Refenced(w, w', c, profile) && c.succeeded == {}
    requires w'.state == w.state || forall id :: id in c.withdrawn ==> Silenced(w', id)
    requires c.admitted.Some? ==> c.admitted.value.status == Queued
    ensures Inv(w') && forall x :: Silenced(w, x) ==> Silenced(w', x)
  {
    forall x | Silenced(w, x)
      ensures Silenced(w', x)
    {
      RefencedSilence(w, w', c, profile, x);
    }
    RefencedKeepsRecords(w, w', c, profile);
    RefencedKeepsFences(w, w', c, profile);
  }

  lemma CancelKeepsInv(w: World, id: nat, fence: Write, write: Write)
    requires Inv(w) && w.guard == None
    ensures var w' := w.(state := CancelEffect(w.state, id, fence, write));
      Inv(w') && forall x :: Silenced(w, x) ==> Silenced(w', x)
  {
    var w' := w.(state := CancelEffect(w.state, id, fence, write));
    CancelKeepsValid(w.state, w.maxQueued, id, fence, write);
    if Find(w.state.jobs, id).None? || !Current(w.state.jobs[Find(w.state.jobs, id).value].status) {
      assert w' == w;
      return;
    }
    var job := w.state.jobs[Find(w.state.jobs, id).value];
    assert Recorded(w.state, job);
    var c := Change(None, {id}, {});
    CancelEvolves(w.state, id, fence, write);
    assert Refenced(w, w', c, job.request.profile);
    if Replaced(fence) { FencedOut(w, w', job); }
    RefencedKeepsInv(w, w', c, job.request.profile);
  }

  /** Steps that touch no fence: the invariant holds again, and nobody regains the right to publish. */
  lemma OrdinaryKeepsInv(w: World, w': World, c: Change)
    requires Inv(w) && Ordinary(w, w', c)
    requires forall id: nat :: Quiet(w, id) ==> !(w'.workerAlive && w'.state.held == Some(id))
    requires forall id :: id in c.withdrawn ==> Silenced(w', id)
    requires forall id :: id in c.succeeded ==> Committed(w.commits, id)
    ensures Inv(w') && forall x :: Silenced(w, x) ==> Silenced(w', x)
  {
    forall x | Silenced(w, x)
      ensures Silenced(w', x)
    {
      OrdinarySilence(w, w', c, x);
    }
    OrdinaryKeepsRecords(w, w', c);
    OrdinaryKeepsFences(w, w', c);
  }

  lemma StartedWasQueued(w: World, write: Write)
    requires DoStart(w, write).Some?
    ensures var w' := DoStart(w, write).value;
      forall x: nat :: Quiet(w, x) ==> !(w'.workerAlive && w'.state.held == Some(x))
  {
    var id := w.chosen.value;
    if Find(w.state.jobs, id).Some? {
      assert Recorded(w.state, w.state.jobs[Find(w.state.jobs, id).value]);
    }
  }

  lemma StartIsOrdinary(w: World, write: Write)
    requires RecordsInv(w) && GuardFenced(w) && DoStart(w, write).Some?
    ensures Ordinary(w, DoStart(w, write).value, NOTHING)
  {
    StartKeepsValid(w.state, w.maxQueued, w.chosen.value, write);
    StartEvolves(w.state, w.chosen.value, write);
    StartKeepsRest(w, write);
  }

  lemma StartKeepsRest(w: World, write: Write)
    requires DoStart(w, write).Some?
    ensures var w' := DoStart(w, write).value;
      && w'.state.fences == w.state.fences && w'.commits == w.commits && w'.serials == w.serials
      && w'.nextSerial == w.nextSerial && w'.children == w.children && w'.guard == w.guard
  {
  }

  lemma StartKeepsInv(w: World, write: Write)
    requires Inv(w) && DoStart(w, write).Some?
    ensures var w' := DoStart(w, write).value;
      Inv(w') && forall x :: Silenced(w, x) ==> Silenced(w', x)
  {
    StartIsOrdinary(w, write);
    StartedWasQueued(w, write);
    OrdinaryKeepsInv(w, DoStart(w, write).value, NOTHING);
  }

  lemma ProgressEvolves(s: State, i: nat, stage: Stage, write: Write)
    requires i < |s.jobs| && InFlight(s.jobs[i].status)
    ensures Evolves(s, ProgressEffect(s, i, stage, write), NOTHING)
  {
    ReplaceEvolves(s, i, AddEvent(s.jobs[i], stage), write, NOTHING);
  }

  lemma ProgressKeepsInv(w: World, stage: Stage, write: Write)
    requires Inv(w) && Step(w, Progress(stage, write)).Some?
    ensures var w' := Step(w, Progress(stage, write)).value;
      Inv(w') && forall x :: Silenced(w, x) ==> Silenced(w', x)
  {
    var i := Executing(w).value;
    ProgressKeepsValid(w.state, w.maxQueued, i, stage, write);
    HeldIsInFlight(w.state.jobs, i, w.state.held);
    ProgressEvolves(w.state, i, stage, write);
    OrdinaryKeepsInv(w, Step(w, Progress(stage, write)).value, NOTHING);
  }

  lemma ConcludeKeepsInv(w: World, outcome: Outcome, write: Write)
    requires Inv(w) && DoConclude(w, outcome, write).Some?
    ensures var w' := DoConclude(w, outcome, write).value;
      Inv(w') && forall x :: Silenced(w, x) ==> Silenced(w', x)
  {
    var w' := DoConclude(w, outcome, write).value;
    var i := Executing(w).value;
    var job := w.state.jobs[i];
    assert Recorded(w.state, job);
    HeldIsInFlight(w.state.jobs, i, w.state.held);
    ConcludeKeepsValid(w.state, w.maxQueued, i, outcome, write);
    ConcludeEvolves(w.state, i, outcome, write);
    if Replaced(write) { ConcludedIsQuiet(w, i, outcome, write); }
    OrdinaryKeepsInv(w, w', ConcludeChange(job, outcome, write));
  }

  lemma ConcludedIsQuiet(w: World, i: nat, outcome: Outcome, write: Write)
    requires StateValid(w.state, w.maxQueued) && Executing(w) == Some(i) && Replaced(write)
    requires DoConclude(w, outcome, write).Some?
    ensures Quiet(DoConclude(w, outcome, write).value, w.state.jobs[i].id)
  {
    var w' := DoConclude(w, outcome, write).value;
    var job := w.state.jobs[i];
    var done := Concluded(job, outcome, w.state.stop);
    ConcludedIsValid(job, outcome, w.state.stop);
    HeldIsInFlight(w.state.jobs, i, w.state.held);
    forall r | Recorded(w'.state, r) && r.id == job.id
      ensures r.status != Queued
    {
      if r in w.state.jobs[i := done] {
        var k :| 0 <= k < |w.state.jobs| && w.state.jobs[i := done][k] == r;
        assert k == i;
      } else {
        var k :| 0 <= k < |w.state.jobs| && w.state.jobs[k] == r;
        assert k == i;
      }
    }
  }

  lemma RestartKeepsInv(w: World, maxQueued: nat)
    requires Inv(w) && 1 <= maxQueued <= 32
    ensures Inv(DoRestart(w, maxQueued)) && forall x :: Silenced(w, x) ==> Silenced(DoRestart(w, maxQueued), x)
  {
    RecoverEstablishesQueue(w.state.journal, maxQueued);
    RecoverEvolves(w.state);
    OrdinaryKeepsInv(w, DoRestart(w, maxQueued), NOTHING);
  }

  lemma PublishKeepsInv(w: World, pid: nat)
    requires Inv(w) && Step(w, Publish(pid)).Some?
    ensures var w' := Step(w, Publish(pid)).value;
      Inv(w') && (forall x :: Silenced(w, x) ==> Silenced(w', x)) && !Silenced(w, w.children[pid].id)
  {
    var w' := Step(w, Publish(pid)).value;
    var child := w.children[pid];
    forall r | Recorded(w.state, r) && r.status == Succeeded
      ensures Committed(w'.commits, r.id)
    {
      var k :| 0 <= k < |w.commits| && w.commits[k].id == r.id;
      assert w'.commits[k].id == r.id;
    }
    forall x | Silenced(w, x)
      ensures Silenced(w', x)
    {
    }
    PublishKeepsOrder(w, w', child);
  }

  lemma PublishKeepsOrder(w: World, w': World, child: Child)
    requires FencesInv(w) && FencedFor(w.state.fences, child)
    requires w' == w.(commits := w.commits + [CatalogCommit(child.profile, child.id)])
    ensures Issued(w') && InOrder(w') && FencesAhead(w')
  {
    assert forall k :: 0 <= k < |w.commits| ==> w'.commits[k] == w.commits[k];
    forall i, j | 0 <= i < j < |w'.commits| && w'.commits[i].profile == w'.commits[j].profile
      ensures Before(w', w'.commits[i].id, w'.commits[j].id)
    {
      assert j < |w.commits| ==> Before(w, w.commits[i].id, w.commits[j].id);
    }
    forall p, k | p in w.state.fences && w.state.fences[p].Generation? && 0 <= k < |w'.commits| && w'.commits[k].profile == p
      ensures Before(w', w'.commits[k].id, w.state.fences[p].id)
    {
      assert k < |w.commits| ==> Before(w, w.commits[k].id, w.state.fences[p].id);
    }
  }

  /** Choosing a job, asking to stop, and the end of a process. */
  lemma QuietStepsKeepInv(w: World, a: Action)
    requires Inv(w) && (a.Choose? || a.Shutdown? || a.Exit?) && Step(w, a).Some?
    ensures Inv(Step(w, a).value) && forall x :: Silenced(w, x) ==> Silenced(Step(w, a).value, x)
  {
    SelfEvolves(w.state, NOTHING);
    OrdinaryKeepsInv(w, Step(w, a).value, NOTHING);
  }

  /** A new process, or a new holder of the lock; records, fences and commits stay. */
  lemma ProcessKeepsInv(w: World, children: map<nat, Child>, guard: Option<nat>)
    requires Inv(w) && GuardFenced(w.(children := children, guard := guard))
    requires forall x :: Quiet(w, x) ==> Quiet(w.(children := children, guard := guard), x)
    ensures var w' := w.(children := children, guard := guard);
      Inv(w') && forall x :: Silenced(w, x) ==> Silenced(w', x)
  {
    OrderKept(w, w.(children := children, guard := guard));
  }

  lemma SpawnKeepsInv(w: World, pid: nat)
    requires Inv(w) && Step(w, Spawn(pid)).Some?
    ensures Inv(Step(w, Spawn(pid)).value) && forall x :: Silenced(w, x) ==> Silenced(Step(w, Spawn(pid)).value, x)
  {
    var w' := Step(w, Spawn(pid)).value;
    forall x | Quiet(w, x)
      ensures Quiet(w', x)
    {
      assert w'.state == w.state;
    }
    ProcessKeepsInv(w, w'.children, w.guard);
  }

  lemma TakeGuardKeepsInv(w: World, pid: nat)
    requires Inv(w) && Step(w, TakeGuard(pid)).Some?
    ensures Inv(Step(w, TakeGuard(pid)).value) && forall x :: Silenced(w, x) ==> Silenced(Step(w, TakeGuard(pid)).value, x)
  {
    ProcessKeepsInv(w, w.children, Some(pid));
  }

  /** Every step keeps the invariant; no silenced job is ever heard of again. */
  lemma StepKeepsInv(w: World, a: Action)
    requires Inv(w) && Step(w, a).Some?
    ensures Inv(Step(w, a).value)
    ensures forall x :: Silenced(w, x) ==> Silenced(Step(w, a).value, x)
    ensures a.Publish? ==> !Silenced(w, w.children[a.pid].id)
  {
    match a
    case Submit(request, id, fence, write) => SubmitKeepsInv(w, request, id, fence, write);
    case Cancel(id, fence, write) => CancelKeepsInv(w, id, fence, write);
    case Start(write) => StartKeepsInv(w, write);
    case Progress(stage, write) => ProgressKeepsInv(w, stage, write);
    case Conclude(outcome, write) => ConcludeKeepsInv(w, outcome, write);
    case Restart(maxQueued) => RestartKeepsInv(w, maxQueued);
    case Publish(pid) => PublishKeepsInv(w, pid);
    case Spawn(pid) => SpawnKeepsInv(w, pid);
    case TakeGuard(pid) => TakeGuardKeepsInv(w, pid);
    case _ => QuietStepsKeepInv(w, a);
  }

  // ---- whole runs ----

  lemma {:induction false} RunKeepsInv(w: World, actions: seq<Action>)
    requires Inv(w) && Run(w, actions).Some?
    ensures Inv(Run(w, actions).value)
    decreases |actions|
  {
    if actions != [] {
      StepKeepsInv(w, actions[0]);
      RunKeepsInv(Step(w, actions[0]).value, actions[1..]);
    }
  }

  /** In every reachable world: at most one current job per profile, one job in flight, a bounded
      queue and history, ordered events, and commits of one profile in submission order. */
  lemma EveryRunIsSerial(w: World, actions: seq<Action>)
    requires Initial(w) && Run(w, actions).Some?
    ensures var w' := Run(w, actions).value;
      && QueueValid(w'.state.jobs, w'.maxQueued, w'.state.held)
      && InOrder(w') && SucceededCommitted(w')
  {
    InitialInv(w);
    RunKeepsInv(w, actions);
  }

  /** Commits made by a run, after those made before it. */
  ghost predicate NoneAdded(before: seq<CatalogCommit>, after: seq<CatalogCommit>, id: nat) {
    && |before| <= |after| && before == after[..|before|]
    && forall k :: |before| <= k < |after| ==> after[k].id != id
  }

  lemma NoneAddedChains(a: seq<CatalogCommit>, b: seq<CatalogCommit>, c: seq<CatalogCommit>, id: nat)
    requires NoneAdded(a, b, id) && NoneAdded(b, c, id)
    ensures NoneAdded(a, c, id)
  {
    assert c[..|b|][..|a|] == c[..|a|];
    assert forall k :: |a| <= k < |b| ==> c[k] == c[..|b|][k];
  }

  /** Only publishing extends the catalog, and only under the child's identity. */
  lemma StepAddsNone(w: World, a: Action, id: nat)
    requires Step(w, a).Some? && (a.Publish? ==> w.children[a.pid].id != id)
    ensures NoneAdded(w.commits, Step(w, a).value.commits, id)
  {
  }

  lemma {:induction false} SilencedNeverPublishes(w: World, actions: seq<Action>, id: nat)
    requires Inv(w) && Silenced(w, id) && Run(w, actions).Some?
    ensures NoneAdded(w.commits, Run(w, actions).value.commits, id)
    decreases |actions|
  {
    if actions != [] {
      var a := actions[0];
      var next := Step(w, a).value;
      StepKeepsInv(w, a);
      StepAddsNone(w, a, id);
      SilencedNeverPublishes(next, actions[1..], id);
      NoneAddedChains(w.commits, next.commits, Run(w, actions).value.commits, id);
    }
  }

  /** Once a job is Cancelled or Cancelling, in memory or in the journal, nothing is ever committed
      under its identity again, whatever fails or restarts. */
  lemma WithdrawnNeverPublishes(w: World, first: seq<Action>, later: seq<Action>, job: Job)
    requires Initial(w) && Run(w, first).Some? && Run(Run(w, first).value, later).Some?
    requires Recorded(Run(w, first).value.state, job) && Withdrawn(job.status)
    ensures var middle := Run(w, first).value;
      NoneAdded(middle.commits, Run(middle, later).value.commits, job.id)
  {
    InitialInv(w);
    RunKeepsInv(w, first);
    SilencedNeverPublishes(Run(w, first).value, later, job.id);
  }

  /** The records of w' evolve from those of w, and an admitted job has a fresh identity. */
  ghost predicate EvolvesFreshly(w: World, w': World) {
    exists c :: Evolves(w.state, w'.state, c) && (c.admitted.Some? ==> c.admitted.value.id !in w.serials)
  }

  lemma SameRecordsEvolve(w: World, w': World)
    requires w'.state.jobs == w.state.jobs && w'.state.journal == w.state.journal
    ensures EvolvesFreshly(w, w')
  {
    SelfEvolves(w.state, NOTHING);
    assert Evolves(w.state, w'.state, NOTHING);
  }

  lemma WorkerStepEvolves(w: World, a: Action)
    requires Inv(w) && (a.Start? || a.Progress? || a.Conclude?) && Step(w, a).Some?
    ensures EvolvesFreshly(w, Step(w, a).value)
  {
    if a.Start? {
      StartEvolves(w.state, w.chosen.value, a.write);
    } else {
      var i := Executing(w).value;
      HeldIsInFlight(w.state.jobs, i, w.state.held);
      if a.Progress? {
        ProgressEvolves(w.state, i, a.stage, a.write);
      } else {
        ConcludeEvolves(w.state, i, a.outcome, a.write);
      }
    }
  }

  lemma StepEvolves(w: World, a: Action)
    requires Inv(w) && Step(w, a).Some?
    ensures EvolvesFreshly(w, Step(w, a).value)
  {
    match a
    case Submit(request, id, fence, write) => SubmitEvolves(w.state, w.maxQueued, request, id, fence, write);
    case Cancel(id, fence, write) => CancelEvolves(w.state, id, fence, write);
    case Start(write) => WorkerStepEvolves(w, a);
    case Progress(stage, write) => WorkerStepEvolves(w, a);
    case Conclude(outcome, write) => WorkerStepEvolves(w, a);
    case Restart(maxQueued) => RecoverEvolves(w.state);
    case _ => SameRecordsEvolve(w, Step(w, a).value);
  }

  lemma StepKeepsSerials(w: World, a: Action, id: nat)
    requires Step(w, a).Some? && id in w.serials
    ensures id in Step(w, a).value.serials
  {
  }

  /** A job once seen finished never appears differently again, even after restarts. */
  lemma {:induction false} FinishedIsFinal(w: World, actions: seq<Action>, job: Job)
    requires Inv(w) && Settled(w.state, job) && job.id in w.serials && Run(w, actions).Some?
    ensures Settled(Run(w, actions).value.state, job)
    decreases |actions|
  {
    if actions != [] {
      var next := Step(w, actions[0]).value;
      StepEvolves(w, actions[0]);
      var c :| Evolves(w.state, next.state, c) && (c.admitted.Some? ==> c.admitted.value.id !in w.serials);
      SettledStays(w.state, next.state, c, job);
      StepKeepsInv(w, actions[0]);
      StepKeepsSerials(w, actions[0], job.id);
      FinishedIsFinal(next, actions[1..], job);
    }
  }

  /** Terminal status is absorbing in every run from an empty store. */
  lemma TerminalIsAbsorbing(w: World, first: seq<Action>, later: seq<Action>, job: Job)
    requires Initial(w) && Run(w, first).Some? && Run(Run(w, first).value, later).Some?
    requires job in Run(w, first).value.state.jobs && Terminal(job.status)
    ensures forall r :: r in Run(Run(w, first).value, later).value.state.jobs && r.id == job.id ==> r == job
  {
    InitialInv(w);
    RunKeepsInv(w, first);
    var middle := Run(w, first).value;
    assert Recorded(middle.state, job);
    FinishedIsFinal(middle, later, job);
    assert forall r :: r in Run(middle, later).value.state.jobs ==> Recorded(Run(middle, later).value.state, r);
  }
}