/** Job records and the updates that admission, cancellation and the worker make to them. */
module Jobs {
  import opened Wrappers

  const MAX_HISTORY: nat := 128
  const MAX_EVENTS: nat := 32
  const MAX_SEQUENCE: nat := 0xFFFF_FFFF

  datatype Status = Queued | Running | Cancelling | Cancelled | Succeeded | Failed

  predicate Terminal(status: Status) {
    status == Cancelled || status == Succeeded || status == Failed
  }

  /** Queued or Running: the one job of its profile that may still publish. */
  ghost predicate Current(status: Status) {
    status == Queued || status == Running
  }

  datatype Stage = QueuedStage | Capture | Syntax | Semantics | Validation | Publication | Finished

  datatype Priority = Foreground | Workspace | Background

  datatype Request = Request(profile: string, level: nat, priority: Priority, context: Option<nat>)

  datatype Event = Event(sequence: nat, stage: Stage, status: Status)

  datatype Job = Job(id: nat, request: Request, status: Status, snapshot: Option<nat>, events: seq<Event>)

  // ---- events ----

  /** Appends an event, keeping the newest 32; the sequence saturates at the 32-bit maximum. */
  function AddEvent(job: Job, stage: Stage): Job {
    var kept := if |job.events| == MAX_EVENTS then job.events[1..] else job.events;
    job.(events := kept + [Event(NextSequence(kept), stage, job.status)])
  }

  /** Positive and strictly increasing until the 32-bit maximum is reached; at most 32 kept. */
  ghost predicate EventsOrdered(events: seq<Event>) {
    && |events| <= MAX_EVENTS
    && (forall i :: 0 <= i < |events| ==> 1 <= events[i].sequence <= MAX_SEQUENCE)
    && forall i, j :: 0 <= i < j < |events| ==>
         events[i].sequence < events[j].sequence || events[i].sequence == events[j].sequence == MAX_SEQUENCE
  }

  function NextSequence(events: seq<Event>): nat {
    if events == [] then 1
    else if events[|events| - 1].sequence >= MAX_SEQUENCE then MAX_SEQUENCE
    else events[|events| - 1].sequence + 1
  }

  lemma DropFirstKeepsOrder(events: seq<Event>)
    requires EventsOrdered(events) && events != []
    ensures EventsOrdered(events[1..])
  {
  }

  lemma AppendKeepsOrder(events: seq<Event>, next: Event)
    requires EventsOrdered(events) && |events| < MAX_EVENTS && next.sequence == NextSequence(events)
    ensures EventsOrdered(events + [next])
  {
  }

  lemma AddEventKeepsOrder(job: Job, stage: Stage)
    requires EventsOrdered(job.events)
    ensures EventsOrdered(AddEvent(job, stage).events) && AddEvent(job, stage).events != []
    ensures job.events != [] && job.events[|job.events| - 1].sequence < MAX_SEQUENCE ==>
      NextSequence(job.events) == AddEvent(job, stage).events[|AddEvent(job, stage).events| - 1].sequence
                               > job.events[|job.events| - 1].sequence
  {
    var kept := if |job.events| == MAX_EVENTS then job.events[1..] else job.events;
    if |job.events| == MAX_EVENTS { DropFirstKeepsOrder(job.events); }
    AppendKeepsOrder(kept, Event(NextSequence(kept), stage, job.status));
  }

  // ---- admission ----

  /** Superseding moves a queued job to Cancelled and any other active one to Cancelling. */
  ghost function Revoked(job: Job): Job {
    if job.status == Queued then AddEvent(job.(status := Cancelled), Finished)
    else AddEvent(job.(status := Cancelling), QueuedStage)
  }

  ghost function Superseded(job: Job, profile: string): Job {
    if job.request.profile == profile && !Terminal(job.status) then Revoked(job) else job
  }

  ghost function SupersedeAll(jobs: seq<Job>, profile: string): (updated: seq<Job>)
    ensures |updated| == |jobs|
    ensures forall i :: 0 <= i < |jobs| ==> updated[i] == Superseded(jobs[i], profile)
  {
    seq(|jobs|, i requires 0 <= i < |jobs| => Superseded(jobs[i], profile))
  }

  predicate Same(job: Job, request: Request) {
    job.request == request && !Terminal(job.status) && job.status != Cancelling
  }

  ghost function Counted(job: Job, profile: string): nat {
    if job.status == Queued && job.request.profile != profile then 1 else 0
  }

  /** Queued jobs of other profiles. */
  ghost function OtherQueued(jobs: seq<Job>, profile: string): nat {
    if jobs == [] then 0
    else OtherQueued(jobs[..|jobs| - 1], profile) + Counted(jobs[|jobs| - 1], profile)
  }

  /** Index of the first terminal job. */
  ghost function FirstTerminal(jobs: seq<Job>): (found: Option<nat>)
    ensures found.Some? ==>
      found.value < |jobs| && Terminal(jobs[found.value].status)
      && forall k :: 0 <= k < found.value ==> !Terminal(jobs[k].status)
    ensures found.None? ==> forall k :: 0 <= k < |jobs| ==> !Terminal(jobs[k].status)
  {
    if jobs == [] then None
    else
      match FirstTerminal(jobs[..|jobs| - 1])
      case Some(i) => Some(i)
      case None => if Terminal(jobs[|jobs| - 1].status) then Some(|jobs| - 1) else None
  }

  function Without(jobs: seq<Job>, i: nat): seq<Job>
    requires i < |jobs|
  {
    jobs[..i] + jobs[i + 1..]
  }

  /** Drops the oldest terminal jobs until there is room; None when nothing can be dropped. */
  ghost function Evict(jobs: seq<Job>): (kept: Option<seq<Job>>)
    ensures kept.Some? ==> |kept.value| < MAX_HISTORY
    decreases |jobs|
  {
    if |jobs| < MAX_HISTORY then Some(jobs)
    else
      match FirstTerminal(jobs)
      case None => None
      case Some(i) => Evict(Without(jobs, i))
  }

  function NewJob(id: nat, request: Request): Job {
    AddEvent(Job(id, request, Queued, None, []), QueuedStage)
  }

  datatype Admission = Existing(job: Job) | QueueFull | HistoryFull | Accepted(jobs: seq<Job>, job: Job)

  ghost function FirstSame(jobs: seq<Job>, request: Request): (found: Option<nat>)
    ensures found.Some? ==>
      found.value < |jobs| && Same(jobs[found.value], request)
      && forall k :: 0 <= k < found.value ==> !Same(jobs[k], request)
    ensures found.None? ==> forall k :: 0 <= k < |jobs| ==> !Same(jobs[k], request)
  {
    if jobs == [] then None
    else
      match FirstSame(jobs[..|jobs| - 1], request)
      case Some(i) => Some(i)
      case None => if Same(jobs[|jobs| - 1], request) then Some(|jobs| - 1) else None
  }

  /** What a submission does to the job list, before anything is written. */
  ghost function Admit(jobs: seq<Job>, request: Request, id: nat, maxQueued: nat): Admission {
    match FirstSame(jobs, request)
    case Some(i) => Existing(jobs[i])
    case None =>
      if OtherQueued(jobs, request.profile) >= maxQueued then QueueFull
      else
        match Evict(SupersedeAll(jobs, request.profile))
        case None => HistoryFull
        case Some(kept) => Accepted(kept + [NewJob(id, request)], NewJob(id, request))
  }

  // ---- lookup and update of one job ----

  ghost function Find(jobs: seq<Job>, id: nat): (found: Option<nat>)
    ensures found.Some? ==>
      found.value < |jobs| && jobs[found.value].id == id
      && forall k :: 0 <= k < found.value ==> jobs[k].id != id
    ensures found.None? ==> forall k :: 0 <= k < |jobs| ==> jobs[k].id != id
  {
    if jobs == [] then None
    else
      match Find(jobs[..|jobs| - 1], id)
      case Some(i) => Some(i)
      case None => if jobs[|jobs| - 1].id == id then Some(|jobs| - 1) else None
  }

  /** Lower priorities run first, then earlier positions. */
  ghost predicate RunsBefore(jobs: seq<Job>, i: nat, j: nat)
    requires i < |jobs| && j < |jobs|
  {
    var a, b := jobs[i].request.priority, jobs[j].request.priority;
    (a == Foreground && b != Foreground) || (a == Workspace && b == Background) || (a == b && i <= j)
  }

  function Rank(priority: Priority): nat {
    match priority case Foreground => 0 case Workspace => 1 case Background => 2
  }

  /** The queued job the worker takes next. */
  ghost function NextQueued(jobs: seq<Job>): (next: Option<nat>)
    ensures next.Some? ==>
      next.value < |jobs| && jobs[next.value].status == Queued
      && forall k :: 0 <= k < |jobs| && jobs[k].status == Queued ==> RunsBefore(jobs, next.value, k)
    ensures next.None? ==> forall k :: 0 <= k < |jobs| ==> jobs[k].status != Queued
  {
    if jobs == [] then None
    else
      var last := |jobs| - 1;
      match NextQueued(jobs[..last])
      case None => if jobs[last].status == Queued then Some(last) else None
      case Some(i) =>
        if jobs[last].status == Queued && Rank(jobs[last].request.priority) < Rank(jobs[i].request.priority)
        then Some(last) else Some(i)
  }

  /** The worker starts a job that is still queued and leaves any other as it is. */
  ghost function Started(job: Job): Job {
    if job.status == Queued then AddEvent(job.(status := Running), Capture) else job
  }

  datatype Outcome = Published(snapshot: nat) | Unsuccessful

  /** The worker's last update of a job: success wins, then cancellation or shutdown, then failure. */
  function Concluded(job: Job, outcome: Outcome, stop: bool): Job {
    match outcome
    case Published(snapshot) => AddEvent(job.(status := Succeeded, snapshot := Some(snapshot)), Finished)
    case Unsuccessful =>
      AddEvent(job.(status := if job.status == Cancelling || stop then Cancelled else Failed), Finished)
  }

  /** Restart turns an unfinished job into a failure. */
  function Recovered(job: Job): Job {
    if Terminal(job.status) then job else AddEvent(job.(status := Failed), Finished)
  }

  // ---- what each update does to a job ----

  /** One event was added: the oldest of 32 goes, and the sequence counts up to the 32-bit maximum. */
  ghost predicate Logged(before: seq<Event>, after: seq<Event>, stage: Stage, status: Status) {
    && |after| == (if |before| < 32 then |before| + 1 else 32)
    && after[|after| - 1].stage == stage && after[|after| - 1].status == status
    && after[|after| - 1].sequence == (if before == [] then 1
         else if before[|before| - 1].sequence < 0xFFFF_FFFF then before[|before| - 1].sequence + 1 else 0xFFFF_FFFF)
    && forall k :: 0 <= k < |after| - 1 ==> after[k] == before[k + |before| - (|after| - 1)]
  }

  ghost predicate IsOver(status: Status) {
    status == Cancelled || status == Succeeded || status == Failed
  }

  ghost predicate IsLive(status: Status) {
    status == Queued || status == Running
  }

  ghost predicate SameJob(before: Job, after: Job) {
    before.id == after.id && before.request == after.request
  }

  /** A queued or unfinished job loses the right to publish. */
  ghost predicate Revokes(before: Job, after: Job) {
    && SameJob(before, after) && after.snapshot == before.snapshot
    && if before.status == Queued then after.status == Cancelled && Logged(before.events, after.events, Finished, Cancelled)
       else after.status == Cancelling && Logged(before.events, after.events, QueuedStage, Cancelling)
  }

  /** Only a queued job starts. */
  ghost predicate Starts(before: Job, after: Job) {
    if before.status != Queued then after == before
    else
      && SameJob(before, after) && after.snapshot == before.snapshot && after.status == Running
      && Logged(before.events, after.events, Capture, Running)
  }

  /** A published job succeeds with its snapshot; any other is cancelled if that was asked for, else failed. */
  ghost predicate Settles(before: Job, after: Job, outcome: Outcome, stop: bool) {
    && SameJob(before, after) && Logged(before.events, after.events, Finished, after.status)
    && match outcome
       case Published(snapshot) => after.status == Succeeded && after.snapshot == Some(snapshot)
       case Unsuccessful =>
         && after.snapshot == before.snapshot
         && after.status == if before.status == Cancelling || stop then Cancelled else Failed
  }

  /** A restart fails every unfinished job and leaves the others alone. */
  ghost predicate Recovers(before: Job, after: Job) {
    if IsOver(before.status) then after == before
    else
      && SameJob(before, after) && after.snapshot == before.snapshot && after.status == Failed
      && Logged(before.events, after.events, Finished, Failed)
  }

  ghost predicate Progresses(before: Job, after: Job, stage: Stage) {
    && SameJob(before, after) && after.status == before.status && after.snapshot == before.snapshot
    && Logged(before.events, after.events, stage, before.status)
  }

  ghost predicate IsNew(job: Job, id: nat, request: Request) {
    job == Job(id, request, Queued, None, [Event(1, QueuedStage, Queued)])
  }

  lemma AddEventLogs(job: Job, stage: Stage)
    requires |job.events| <= MAX_EVENTS
    ensures Progresses(job, AddEvent(job, stage), stage)
  {
  }

  lemma UpdatesMean(job: Job, outcome: Outcome, stop: bool)
    requires EventsOrdered(job.events)
    ensures Revokes(job, Revoked(job)) && Starts(job, Started(job)) && Settles(job, Concluded(job, outcome, stop), outcome, stop)
    ensures Recovers(job, Recovered(job))
  {
    AddEventLogs(job.(status := Cancelled), Finished);
    AddEventLogs(job.(status := Cancelling), QueuedStage);
    AddEventLogs(job.(status := Running), Capture);
    AddEventLogs(job.(status := Failed), Finished);
    if outcome.Published? { AddEventLogs(job.(status := Succeeded, snapshot := Some(outcome.snapshot)), Finished); }
  }

  // ---- what an admission does ----

  /** A live job with exactly this request. */
  ghost predicate Matches(job: Job, request: Request) {
    job.request == request && IsLive(job.status)
  }

  ghost function QueuedElsewhere(jobs: seq<Job>, profile: string): set<int> {
    set i | 0 <= i < |jobs| && jobs[i].status == Queued && jobs[i].request.profile != profile
  }

  lemma {:induction false} OtherQueuedCounts(jobs: seq<Job>, profile: string)
    ensures OtherQueued(jobs, profile) == |QueuedElsewhere(jobs, profile)|
  {
    if jobs == [] {
      assert QueuedElsewhere(jobs, profile) == {};
    } else {
      OtherQueuedCounts(jobs[..|jobs| - 1], profile);
      QueuedElsewhereGrows(jobs, profile, |jobs| - 1);
    }
  }

  lemma QueuedElsewhereGrows(jobs: seq<Job>, profile: string, n: nat)
    requires |jobs| == n + 1
    ensures QueuedElsewhere(jobs, profile)
      == QueuedElsewhere(jobs[..n], profile) + (if jobs[n].status == Queued && jobs[n].request.profile != profile then {n} else {})
  {
    assert forall i :: 0 <= i < n ==> jobs[..n][i] == jobs[i];
  }

  /** The unfinished jobs of the profile were revoked, and the others kept as they are. */
  ghost predicate Supersedes(before: seq<Job>, after: seq<Job>, profile: string) {
    |after| == |before| && forall i :: 0 <= i < |before| ==>
      if before[i].request.profile == profile && !IsOver(before[i].status) then Revokes(before[i], after[i])
      else after[i] == before[i]
  }

  lemma SupersedeAllMeans(jobs: seq<Job>, profile: string)
    requires RecordsValid(jobs)
    ensures Supersedes(jobs, SupersedeAll(jobs, profile), profile)
  {
    forall i | 0 <= i < |jobs| && jobs[i].request.profile == profile && !IsOver(jobs[i].status)
      ensures Revokes(jobs[i], SupersedeAll(jobs, profile)[i])
    {
      UpdatesMean(jobs[i], Unsuccessful, false);
    }
  }

  /** Room for one more: the list as it is, or a full one without its oldest finished job. */
  ghost predicate MakesRoom(before: seq<Job>, after: seq<Job>) {
    if |before| < 128 then after == before else exists i :: DropsFinished(before, i, after)
  }

  ghost predicate DropsFinished(before: seq<Job>, i: int, after: seq<Job>) {
    && 0 <= i < |before| && IsOver(before[i].status)
    && (forall k :: 0 <= k < i ==> !IsOver(before[k].status))
    && after == before[..i] + before[i + 1..]
  }

  /** The list is the old one with the profile superseded, room made and the new job at the end. */
  ghost predicate Admits(before: seq<Job>, after: seq<Job>, request: Request, id: nat) {
    && after != [] && IsNew(after[|after| - 1], id, request)
    && exists superseded :: Supersedes(before, superseded, request.profile) && MakesRoom(superseded, after[..|after| - 1])
  }

  lemma EvictMeans(jobs: seq<Job>)
    requires |jobs| <= 128 && Evict(jobs).Some?
    ensures MakesRoom(jobs, Evict(jobs).value)
  {
    if |jobs| == 128 {
      var i := FirstTerminal(jobs).value;
      assert Evict(jobs) == Evict(Without(jobs, i));
      assert DropsFinished(jobs, i, Without(jobs, i));
    }
  }

  /** What every answer to a submission means. */
  lemma AdmitMeans(jobs: seq<Job>, request: Request, id: nat, maxQueued: nat)
    requires RecordsValid(jobs)
    ensures match Admit(jobs, request, id, maxQueued)
      case Existing(job) => job in jobs && Matches(job, request)
      case QueueFull =>
        (forall k :: 0 <= k < |jobs| ==> !Matches(jobs[k], request)) && |QueuedElsewhere(jobs, request.profile)| >= maxQueued
      case HistoryFull => |jobs| == 128
      case Accepted(updated, job) =>
        && (forall k :: 0 <= k < |jobs| ==> !Matches(jobs[k], request)) && |QueuedElsewhere(jobs, request.profile)| < maxQueued
        && Admits(jobs, updated, request, id) && job == updated[|updated| - 1]
  {
    OtherQueuedCounts(jobs, request.profile);
    match FirstSame(jobs, request) {
      case Some(i) => assert jobs[i] in jobs && Matches(jobs[i], request);
      case None =>
        NoneMatches(jobs, request);
        if OtherQueued(jobs, request.profile) < maxQueued { RoomMeans(jobs, request, id); }
    }
  }

  lemma NoneMatches(jobs: seq<Job>, request: Request)
    requires FirstSame(jobs, request).None?
    ensures forall k :: 0 <= k < |jobs| ==> !Matches(jobs[k], request)
  {
    forall k | 0 <= k < |jobs|
      ensures !Matches(jobs[k], request)
    {
      assert !Same(jobs[k], request);
    }
  }

  lemma RoomMeans(jobs: seq<Job>, request: Request, id: nat)
    requires RecordsValid(jobs)
    ensures match Evict(SupersedeAll(jobs, request.profile))
      case None => |jobs| == 128
      case Some(kept) =>
        var updated := kept + [NewJob(id, request)];
        Admits(jobs, updated, request, id) && NewJob(id, request) == updated[|updated| - 1]
  {
    if Evict(SupersedeAll(jobs, request.profile)).Some? { AcceptMeans(jobs, request, id); }
  }

  lemma AcceptMeans(jobs: seq<Job>, request: Request, id: nat)
    requires RecordsValid(jobs) && Evict(SupersedeAll(jobs, request.profile)).Some?
    ensures Admits(jobs, Evict(SupersedeAll(jobs, request.profile)).value + [NewJob(id, request)], request, id)
  {
    var all := SupersedeAll(jobs, request.profile);
    var kept := Evict(all).value;
    SupersedeAllMeans(jobs, request.profile);
    EvictMeans(all);
    assert (kept + [NewJob(id, request)])[..|kept|] == kept;
  }

  // ---- the job-list invariant ----

  ghost predicate InFlight(status: Status) {
    status == Running || status == Cancelling
  }

  ghost function QueuedCount(jobs: seq<Job>): nat {
    if jobs == [] then 0
    else QueuedCount(jobs[..|jobs| - 1]) + (if jobs[|jobs| - 1].status == Queued then 1 else 0)
  }

  /** Identities are distinct, events ordered, and the history bounded. */
  ghost predicate RecordsValid(jobs: seq<Job>) {
    && |jobs| <= MAX_HISTORY
    && (forall i, j :: 0 <= i < j < |jobs| ==> jobs[i].id != jobs[j].id)
    && forall i :: 0 <= i < |jobs| ==> EventsOrdered(jobs[i].events)
  }

  /** At most one job per profile is Queued or Running. */
  ghost predicate OnePerProfile(jobs: seq<Job>) {
    forall i, j :: 0 <= i < j < |jobs| && jobs[i].request.profile == jobs[j].request.profile ==>
      !(Current(jobs[i].status) && Current(jobs[j].status))
  }

  /** Only the job the worker holds is Running or Cancelling, and it is one of those. */
  ghost predicate OnlyHeldInFlight(jobs: seq<Job>, held: Option<nat>) {
    && (forall i :: 0 <= i < |jobs| && InFlight(jobs[i].status) ==> held == Some(jobs[i].id))
    && (held.Some? ==> exists i :: 0 <= i < |jobs| && jobs[i].id == held.value && InFlight(jobs[i].status))
  }

  ghost predicate QueueValid(jobs: seq<Job>, maxQueued: nat, held: Option<nat>) {
    && RecordsValid(jobs) && OnePerProfile(jobs) && OnlyHeldInFlight(jobs, held)
    && QueuedCount(jobs) <= maxQueued
  }

  // ---- what keeps the invariant ----

  /** Replacing one job by an updated version of itself. */
  ghost predicate Replaces(jobs: seq<Job>, i: nat, after: Job) {
    i < |jobs| && after.id == jobs[i].id && after.request == jobs[i].request && EventsOrdered(after.events)
  }

  lemma ReplaceKeepsRecords(jobs: seq<Job>, i: nat, after: Job)
    requires RecordsValid(jobs) && Replaces(jobs, i, after)
    ensures RecordsValid(jobs[i := after])
  {
  }

  lemma {:induction false} SupersededQueue(jobs: seq<Job>, profile: string)
    ensures QueuedCount(SupersedeAll(jobs, profile)) == OtherQueued(jobs, profile)
  {
    if jobs != [] {
      var init := jobs[..|jobs| - 1];
      SupersededQueue(init, profile);
      assert SupersedeAll(jobs, profile)[..|jobs| - 1] == SupersedeAll(init, profile);
    }
  }

  lemma {:induction false} QueuedSplit(a: seq<Job>, b: seq<Job>)
    ensures QueuedCount(a + b) == QueuedCount(a) + QueuedCount(b)
    decreases |b|
  {
    if b == [] {
      assert a + b == a;
    } else {
      QueuedSplit(a, b[..|b| - 1]);
      assert (a + b)[..|a + b| - 1] == a + b[..|b| - 1];
    }
  }

  lemma QueuedWithout(jobs: seq<Job>, i: nat)
    requires i < |jobs|
    ensures QueuedCount(jobs) == QueuedCount(Without(jobs, i)) + (if jobs[i].status == Queued then 1 else 0)
  {
    Splice(jobs, i);
    QueuedMiddle(jobs, jobs[..i], jobs[i], jobs[i + 1..]);
    QueuedSplit(jobs[..i], jobs[i + 1..]);
  }

  lemma Splice<T>(s: seq<T>, i: nat)
    requires i < |s|
    ensures s == s[..i] + [s[i]] + s[i + 1..]
  {
  }

  lemma QueuedMiddle(jobs: seq<Job>, head: seq<Job>, job: Job, tail: seq<Job>)
    requires jobs == head + [job] + tail
    ensures QueuedCount(jobs) == QueuedCount(head) + (if job.status == Queued then 1 else 0) + QueuedCount(tail)
  {
    QueuedSplit(head + [job], tail);
    QueuedSplit(head, [job]);
    QueuedSingle(job);
  }

  lemma QueuedSingle(job: Job)
    ensures QueuedCount([job]) == if job.status == Queued then 1 else 0
  {
    assert [job][..0] == [];
  }

  lemma QueuedReplace(jobs: seq<Job>, i: nat, after: Job)
    requires i < |jobs|
    ensures QueuedCount(jobs[i := after])
         == QueuedCount(jobs) - (if jobs[i].status == Queued then 1 else 0) + (if after.status == Queued then 1 else 0)
  {
    QueuedWithout(jobs, i);
    QueuedWithout(jobs[i := after], i);
    assert Without(jobs[i := after], i) == Without(jobs, i);
  }

  /** With no terminal job, everything is queued or the one job in flight. */
  lemma {:induction false} AllActive(jobs: seq<Job>, held: Option<nat>)
    requires forall i :: 0 <= i < |jobs| ==> !Terminal(jobs[i].status)
    requires forall i, j :: 0 <= i < j < |jobs| ==> jobs[i].id != jobs[j].id
    requires forall i :: 0 <= i < |jobs| && InFlight(jobs[i].status) ==> held == Some(jobs[i].id)
    ensures |jobs| <= QueuedCount(jobs) + 1
    ensures (forall i :: 0 <= i < |jobs| ==> jobs[i].status == Queued) ==> |jobs| == QueuedCount(jobs)
  {
    if jobs != [] {
      var init, last := jobs[..|jobs| - 1], jobs[|jobs| - 1];
      AllActive(init, held);
      assert forall i :: 0 <= i < |init| ==> init[i] == jobs[i];
      if InFlight(last.status) {
        forall i | 0 <= i < |init|
          ensures init[i].status == Queued
        {
          assert jobs[i].id != jobs[|jobs| - 1].id;
        }
      }
    }
  }

  lemma SupersedeKeepsRecords(jobs: seq<Job>, profile: string)
    requires RecordsValid(jobs)
    ensures RecordsValid(SupersedeAll(jobs, profile))
  {
    var updated := SupersedeAll(jobs, profile);
    forall i | 0 <= i < |updated|
      ensures EventsOrdered(updated[i].events)
    {
      AddEventKeepsOrder(jobs[i].(status := Cancelled), Finished);
      AddEventKeepsOrder(jobs[i].(status := Cancelling), QueuedStage);
    }
    assert forall i :: 0 <= i < |updated| ==> updated[i].id == jobs[i].id;
  }

  /** Same jobs in the same order; who was in flight still is, and nobody becomes current. */
  ghost predicate Alike(jobs: seq<Job>, updated: seq<Job>) {
    |updated| == |jobs| && forall i :: 0 <= i < |jobs| ==>
      updated[i].id == jobs[i].id && updated[i].request == jobs[i].request
      && (InFlight(updated[i].status) <==> InFlight(jobs[i].status))
      && (Current(updated[i].status) ==> Current(jobs[i].status))
  }

  lemma SupersededAlike(jobs: seq<Job>, profile: string)
    ensures Alike(jobs, SupersedeAll(jobs, profile))
  {
  }

  lemma CurrentStillOne(jobs: seq<Job>, updated: seq<Job>)
    requires Alike(jobs, updated) && OnePerProfile(jobs)
    ensures OnePerProfile(updated)
  {
  }

  lemma SupersedeKeepsHeld(jobs: seq<Job>, profile: string, held: Option<nat>)
    requires OnlyHeldInFlight(jobs, held) && OnePerProfile(jobs)
    ensures var updated := SupersedeAll(jobs, profile);
      && OnlyHeldInFlight(updated, held) && OnePerProfile(updated)
      && forall i :: 0 <= i < |updated| && updated[i].request.profile == profile ==> !Current(updated[i].status)
  {
    var updated := SupersedeAll(jobs, profile);
    SupersededAlike(jobs, profile);
    CurrentStillOne(jobs, updated);
    if held.Some? {
      var i :| 0 <= i < |jobs| && jobs[i].id == held.value && InFlight(jobs[i].status);
      assert updated[i].id == held.value && InFlight(updated[i].status);
    }
  }

  /** Position k of the shorter list is position k, or k + 1 past the dropped job. */
  lemma WithoutAt(jobs: seq<Job>, i: nat, k: nat)
    requires i < |jobs| && k < |jobs| - 1
    ensures |Without(jobs, i)| == |jobs| - 1
    ensures Without(jobs, i)[k] == jobs[if k < i then k else k + 1]
  {
  }

  /** Dropping a terminal job keeps everything else about the list. */
  lemma WithoutKeepsHeld(jobs: seq<Job>, i: nat, held: Option<nat>)
    requires i < |jobs| && Terminal(jobs[i].status) && OnlyHeldInFlight(jobs, held)
    ensures OnlyHeldInFlight(Without(jobs, i), held)
  {
    var kept := Without(jobs, i);
    forall k | 0 <= k < |kept| && InFlight(kept[k].status)
      ensures held == Some(kept[k].id)
    {
      WithoutAt(jobs, i, k);
    }
    if held.Some? {
      var k :| 0 <= k < |jobs| && jobs[k].id == held.value && InFlight(jobs[k].status);
      WithoutAt(jobs, i, if k < i then k else k - 1);
    }
  }

  lemma WithoutKeepsProfiles(jobs: seq<Job>, i: nat)
    requires i < |jobs| && OnePerProfile(jobs)
    ensures OnePerProfile(Without(jobs, i))
  {
    var kept := Without(jobs, i);
    forall a, b | 0 <= a < b < |kept| && kept[a].request.profile == kept[b].request.profile
      ensures !(Current(kept[a].status) && Current(kept[b].status))
    {
      WithoutAt(jobs, i, a);
      WithoutAt(jobs, i, b);
    }
  }

  lemma WithoutKeepsRecords(jobs: seq<Job>, i: nat)
    requires i < |jobs| && RecordsValid(jobs)
    ensures RecordsValid(Without(jobs, i))
    ensures forall k :: 0 <= k < |Without(jobs, i)| ==> Without(jobs, i)[k] in jobs
  {
    var kept := Without(jobs, i);
    assert forall k :: 0 <= k < |kept| ==> kept[k] == jobs[if k < i then k else k + 1];
  }

  /** Eviction always finds a terminal job when the queue is within its bound. */
  lemma {:induction false} EvictSucceeds(jobs: seq<Job>, maxQueued: nat, held: Option<nat>)
    requires RecordsValid(jobs) && OnlyHeldInFlight(jobs, held) && OnePerProfile(jobs)
    requires QueuedCount(jobs) <= maxQueued <= 32
    ensures Evict(jobs).Some?
    ensures var kept := Evict(jobs).value;
      && RecordsValid(kept) && OnlyHeldInFlight(kept, held) && OnePerProfile(kept)
      && QueuedCount(kept) == QueuedCount(jobs)
      && forall k :: 0 <= k < |kept| ==> kept[k] in jobs
    decreases |jobs|
  {
    if |jobs| >= MAX_HISTORY {
      if FirstTerminal(jobs).None? {
        AllActive(jobs, held);
        assert false;
      }
      var i := FirstTerminal(jobs).value;
      WithoutKeepsHeld(jobs, i, held);
      WithoutKeepsProfiles(jobs, i);
      QueuedWithout(jobs, i);
      WithoutKeepsRecords(jobs, i);
      EvictSucceeds(Without(jobs, i), maxQueued, held);
    }
  }

  lemma AppendKeepsRecords(jobs: seq<Job>, job: Job)
    requires RecordsValid(jobs) && |jobs| < MAX_HISTORY && EventsOrdered(job.events)
    requires forall k :: 0 <= k < |jobs| ==> jobs[k].id != job.id
    ensures RecordsValid(jobs + [job])
  {
  }

  lemma AppendKeepsQueue(jobs: seq<Job>, job: Job, held: Option<nat>)
    requires OnlyHeldInFlight(jobs, held) && OnePerProfile(jobs) && job.status == Queued
    requires forall k :: 0 <= k < |jobs| && jobs[k].request.profile == job.request.profile ==> !Current(jobs[k].status)
    ensures OnlyHeldInFlight(jobs + [job], held) && OnePerProfile(jobs + [job])
    ensures QueuedCount(jobs + [job]) == QueuedCount(jobs) + 1
  {
    var longer := jobs + [job];
    assert forall k :: 0 <= k < |jobs| ==> longer[k] == jobs[k];
    if held.Some? {
      var k :| 0 <= k < |jobs| && jobs[k].id == held.value && InFlight(jobs[k].status);
      assert longer[k] == jobs[k];
    }
    assert longer[..|longer| - 1] == jobs;
  }

  lemma SupersededFrom(jobs: seq<Job>, profile: string, job: Job) returns (i: nat)
    requires job in SupersedeAll(jobs, profile)
    ensures i < |jobs| && job == Superseded(jobs[i], profile) && jobs[i].id == job.id && jobs[i].request == job.request
  {
    i :| 0 <= i < |jobs| && SupersedeAll(jobs, profile)[i] == job;
  }

  /** Superseding a profile and making room keeps the invariant. */
  lemma MakeRoom(jobs: seq<Job>, profile: string, maxQueued: nat, held: Option<nat>)
    requires QueueValid(jobs, maxQueued, held) && OtherQueued(jobs, profile) <= maxQueued <= 32
    ensures Evict(SupersedeAll(jobs, profile)).Some?
    ensures var kept := Evict(SupersedeAll(jobs, profile)).value;
      && RecordsValid(kept) && OnlyHeldInFlight(kept, held) && OnePerProfile(kept)
      && QueuedCount(kept) == OtherQueued(jobs, profile)
      && forall k :: 0 <= k < |kept| ==> kept[k] in SupersedeAll(jobs, profile)
  {
    SupersededQueue(jobs, profile);
    SupersedeKeepsRecords(jobs, profile);
    SupersedeKeepsHeld(jobs, profile, held);
    EvictSucceeds(SupersedeAll(jobs, profile), maxQueued, held);
  }

  /** After superseding, no job of the profile is current, and no identity is new. */
  lemma RoomFor(jobs: seq<Job>, profile: string, id: nat, kept: seq<Job>)
    requires forall k :: 0 <= k < |kept| ==> kept[k] in SupersedeAll(jobs, profile)
    requires forall k :: 0 <= k < |jobs| ==> jobs[k].id != id
    ensures forall k :: 0 <= k < |kept| ==>
      kept[k].id != id && (kept[k].request.profile == profile ==> !Current(kept[k].status))
  {
    forall k | 0 <= k < |kept|
      ensures kept[k].id != id && (kept[k].request.profile == profile ==> !Current(kept[k].status))
    {
      var i := SupersededFrom(jobs, profile, kept[k]);
    }
  }

  /** Admission keeps the invariant, and never finds the history full. */
  lemma AdmitKeepsQueue(jobs: seq<Job>, request: Request, id: nat, maxQueued: nat, held: Option<nat>)
    requires QueueValid(jobs, maxQueued, held) && 1 <= maxQueued <= 32
    requires forall k :: 0 <= k < |jobs| ==> jobs[k].id != id
    ensures Admit(jobs, request, id, maxQueued) != HistoryFull
    ensures Admit(jobs, request, id, maxQueued).Accepted? ==>
      QueueValid(Admit(jobs, request, id, maxQueued).jobs, maxQueued, held)
  {
    if FirstSame(jobs, request).None? && OtherQueued(jobs, request.profile) < maxQueued {
      AcceptKeepsQueue(jobs, request, id, maxQueued, held);
    }
  }

  lemma AcceptKeepsQueue(jobs: seq<Job>, request: Request, id: nat, maxQueued: nat, held: Option<nat>)
    requires QueueValid(jobs, maxQueued, held) && OtherQueued(jobs, request.profile) < maxQueued <= 32
    requires forall k :: 0 <= k < |jobs| ==> jobs[k].id != id
    ensures var kept := Evict(SupersedeAll(jobs, request.profile));
      kept.Some? && QueueValid(kept.value + [NewJob(id, request)], maxQueued, held)
  {
    MakeRoom(jobs, request.profile, maxQueued, held);
    var kept := Evict(SupersedeAll(jobs, request.profile)).value;
    var job := NewJob(id, request);
    RoomFor(jobs, request.profile, id, kept);
    AddEventKeepsOrder(Job(id, request, Queued, None, []), QueuedStage);
    AppendQueued(kept, job, maxQueued, held);
  }

  lemma AppendQueued(jobs: seq<Job>, job: Job, maxQueued: nat, held: Option<nat>)
    requires RecordsValid(jobs) && OnlyHeldInFlight(jobs, held) && OnePerProfile(jobs)
    requires QueuedCount(jobs) < maxQueued && |jobs| < MAX_HISTORY && job.status == Queued && EventsOrdered(job.events)
    requires forall k :: 0 <= k < |jobs| ==>
      jobs[k].id != job.id && (jobs[k].request.profile == job.request.profile ==> !Current(jobs[k].status))
    ensures QueueValid(jobs + [job], maxQueued, held)
  {
    var longer := jobs + [job];
    assert RecordsValid(longer) by { AppendKeepsRecords(jobs, job); }
    assert OnlyHeldInFlight(longer, held) && OnePerProfile(longer) && QueuedCount(longer) <= maxQueued by {
      AppendKeepsQueue(jobs, job, held);
    }
  }

  /** Which job is in flight after job i changes its status. */
  ghost function HeldAfter(before: Job, after: Job, held: Option<nat>): Option<nat> {
    if InFlight(after.status) then Some(after.id)
    else if InFlight(before.status) then None
    else held
  }

  lemma ReplaceKeepsHeld(jobs: seq<Job>, i: nat, after: Job, held: Option<nat>)
    requires RecordsValid(jobs) && Replaces(jobs, i, after) && OnlyHeldInFlight(jobs, held)
    requires InFlight(after.status) && !InFlight(jobs[i].status) ==> held == None
    ensures OnlyHeldInFlight(jobs[i := after], HeldAfter(jobs[i], after, held))
  {
    var updated, held' := jobs[i := after], HeldAfter(jobs[i], after, held);
    forall k | 0 <= k < |updated| && InFlight(updated[k].status)
      ensures held' == Some(updated[k].id)
    {
      if k != i {
        assert held == Some(jobs[k].id);
        assert jobs[k].id != jobs[i].id;
      }
    }
    if held'.Some? {
      if InFlight(after.status) {
        assert updated[i] == after;
      } else {
        var k :| 0 <= k < |jobs| && jobs[k].id == held.value && InFlight(jobs[k].status);
        assert updated[k] == jobs[k];
      }
    }
  }

  /** Any status change that makes no job newly current or queued keeps the invariant. */
  lemma ReplaceKeepsQueue(jobs: seq<Job>, i: nat, after: Job, maxQueued: nat, held: Option<nat>)
    requires QueueValid(jobs, maxQueued, held) && Replaces(jobs, i, after)
    requires Current(after.status) ==> Current(jobs[i].status)
    requires after.status == Queued ==> jobs[i].status == Queued
    requires InFlight(after.status) && !InFlight(jobs[i].status) ==> held == None
    ensures QueueValid(jobs[i := after], maxQueued, HeldAfter(jobs[i], after, held))
  {
    ReplaceKeepsRecords(jobs, i, after);
    ReplaceKeepsHeld(jobs, i, after, held);
    QueuedReplace(jobs, i, after);
    ReplaceKeepsProfiles(jobs, i, after);
  }

  lemma ReplaceKeepsProfiles(jobs: seq<Job>, i: nat, after: Job)
    requires OnePerProfile(jobs) && Replaces(jobs, i, after)
    requires Current(after.status) ==> Current(jobs[i].status)
    ensures OnePerProfile(jobs[i := after])
  {
  }

  function RecoverAll(jobs: seq<Job>): (recovered: seq<Job>)
    ensures |recovered| == |jobs|
    ensures forall i :: 0 <= i < |jobs| ==> recovered[i] == Recovered(jobs[i])
  {
    seq(|jobs|, i requires 0 <= i < |jobs| => Recovered(jobs[i]))
  }

  lemma {:induction false} NoneQueued(jobs: seq<Job>)
    requires forall i :: 0 <= i < |jobs| ==> jobs[i].status != Queued
    ensures QueuedCount(jobs) == 0
  {
    if jobs != [] {
      NoneQueued(jobs[..|jobs| - 1]);
    }
  }

  /** Whatever the journal held, a restarted scheduler starts from a valid list of finished jobs. */
  lemma RecoverEstablishesQueue(jobs: seq<Job>, maxQueued: nat)
    requires RecordsValid(jobs)
    ensures QueueValid(RecoverAll(jobs), maxQueued, None)
    ensures forall i :: 0 <= i < |jobs| ==> Terminal(RecoverAll(jobs)[i].status)
  {
    var recovered := RecoverAll(jobs);
    forall i | 0 <= i < |recovered|
      ensures EventsOrdered(recovered[i].events) && Terminal(recovered[i].status) && recovered[i].id == jobs[i].id
    {
      AddEventKeepsOrder(jobs[i].(status := Failed), Finished);
    }
    NoneQueued(recovered);
    AllTerminal(recovered);
  }

  lemma AllTerminal(jobs: seq<Job>)
    requires forall i :: 0 <= i < |jobs| ==> Terminal(jobs[i].status)
    ensures OnePerProfile(jobs) && OnlyHeldInFlight(jobs, None)
  {
  }
}
