/** The scheduler object: admission, cancellation and the worker's updates, with failing writes. */
module Scheduler {
  import opened Wrappers
  import opened Jobs

  /** The publication fence of a profile: the one job that may publish, or none after a cancellation. */
  datatype Fence = Generation(id: nat) | CancelledGeneration

  /** A durable write: done, failed before replacing the file, or reported failed after replacing it. */
  datatype Write = Written | Failed | WrittenThenFailed

  ghost predicate Replaced(write: Write) {
    write != Write.Failed
  }

  datatype Error =
    | InvalidRequest | SchedulerUnavailable | FenceUnavailable | QueueIsFull | HistoryIsFull | EntropyUnavailable
    | UnknownJob | WriteFailed

  ghost predicate ProfileCharacter(c: char) {
    'a' <= c <= 'z' || 'A' <= c <= 'Z' || '0' <= c <= '9' || c == '_' || c == '-'
  }

  ghost predicate RequestValid(request: Request) {
    1 <= |request.profile| <= 64 && forall i :: 0 <= i < |request.profile| ==> ProfileCharacter(request.profile[i])
  }

  method ValidateRequest(request: Request) returns (valid: bool)
    ensures valid <==> RequestValid(request)
  {
    if request.profile == "" || |request.profile| > 64 { return false; }
    for i := 0 to |request.profile|
      invariant forall k :: 0 <= k < i ==> ProfileCharacter(request.profile[k])
    {
      var c := request.profile[i];
      if !('a' <= c <= 'z' || 'A' <= c <= 'Z' || '0' <= c <= '9' || c == '_' || c == '-') { return false; }
    }
    return true;
  }

  // ---- effects on the scheduler's state ----

  /** What the scheduler remembers: the list in memory, the journal and fence files, and whether it
      is stopping. held is the identity of the job the worker is executing. */
  datatype State = State(jobs: seq<Job>, journal: seq<Job>, fences: map<string, Fence>, stop: bool, held: Option<nat>)

  ghost predicate StateValid(s: State, maxQueued: nat) {
    1 <= maxQueued <= 32 && QueueValid(s.jobs, maxQueued, s.held) && RecordsValid(s.journal)
  }

  /** Replaces the journal, then the list in memory; a failed write keeps the list. */
  ghost function Save(s: State, updated: seq<Job>, write: Write): State {
    s.(journal := if Replaced(write) then updated else s.journal, jobs := if write == Written then updated else s.jobs)
  }

  /** The fence of a profile is written first, then the journal, then the list. */
  ghost function SaveFenced(s: State, profile: string, value: Fence, updated: seq<Job>, fence: Write, write: Write): State {
    var fenced := if Replaced(fence) then s.(fences := s.fences[profile := value]) else s;
    if fence == Written then Save(fenced, updated, write) else fenced
  }

  ghost function SubmitEffect(s: State, maxQueued: nat, request: Request, id: nat, fence: Write, write: Write): State {
    match Admit(s.jobs, request, id, maxQueued)
    case Accepted(updated, _) => SaveFenced(s, request.profile, Generation(id), updated, fence, write)
    case _ => s
  }

  /** Only a current job is cancelled. */
  ghost function CancelEffect(s: State, id: nat, fence: Write, write: Write): State {
    match Find(s.jobs, id)
    case None => s
    case Some(i) =>
      if !Current(s.jobs[i].status) then s
      else SaveFenced(s, s.jobs[i].request.profile, CancelledGeneration, s.jobs[i := Revoked(s.jobs[i])], fence, write)
  }

  /** The chosen job runs if it is still queued; if it is gone, or the write fails, the worker stops. */
  ghost function StartEffect(s: State, id: nat, write: Write): State {
    match Find(s.jobs, id)
    case None => s.(stop := true)
    case Some(i) =>
      var saved := Save(s, s.jobs[i := Started(s.jobs[i])], write);
      if write != Written then saved.(stop := true)
      else if s.jobs[i].status == Queued then saved.(held := Some(id))
      else saved
  }

  ghost function ProgressEffect(s: State, i: nat, stage: Stage, write: Write): State
    requires i < |s.jobs|
  {
    Save(s, s.jobs[i := AddEvent(s.jobs[i], stage)], write)
  }

  /** The worker's last update releases the job, or stops the worker when it cannot be written. */
  ghost function ConcludeEffect(s: State, i: nat, outcome: Outcome, write: Write): State
    requires i < |s.jobs|
  {
    var saved := Save(s, s.jobs[i := Concluded(s.jobs[i], outcome, s.stop)], write);
    if write == Written then saved.(held := None) else saved.(stop := true)
  }

  // ---- what the effects are ----

  /** What became of a journal write and of the list in memory. */
  ghost predicate Stored(s: State, s': State, updated: seq<Job>, write: Write) {
    && s'.jobs == (if write == Written then updated else s.jobs)
    && s'.journal == (if write == Write.Failed then s.journal else updated)
  }

  /** The fence is written first; only a fence that is surely in place lets the list be stored. */
  ghost predicate FencedAndStored(s: State, s': State, profile: string, value: Fence, updated: seq<Job>, fence: Write, write: Write) {
    && s'.fences == (if fence == Write.Failed then s.fences else s.fences[profile := value])
    && (if fence == Written then Stored(s, s', updated, write) else s'.jobs == s.jobs && s'.journal == s.journal)
    && s'.stop == s.stop && s'.held == s.held
  }

  /** A live job with the same request, or a full queue, leaves everything alone; otherwise the new job is
      fenced and stored behind the superseded ones. */
  ghost predicate Submits(s: State, s': State, maxQueued: nat, request: Request, id: nat, fence: Write, write: Write) {
    if (exists k :: 0 <= k < |s.jobs| && Matches(s.jobs[k], request)) || |QueuedElsewhere(s.jobs, request.profile)| >= maxQueued
    then s' == s
    else
      exists updated ::
        Admits(s.jobs, updated, request, id) && FencedAndStored(s, s', request.profile, Generation(id), updated, fence, write)
  }

  ghost predicate Cancels(s: State, s': State, i: nat, fence: Write, write: Write)
    requires i < |s.jobs|
  {
    if !IsLive(s.jobs[i].status) then s' == s
    else
      exists after :: Revokes(s.jobs[i], after)
        && FencedAndStored(s, s', s.jobs[i].request.profile, CancelledGeneration, s.jobs[i := after], fence, write)
  }

  /** The worker holds the job from here on if it was queued and the write succeeded, and stops if it did not. */
  ghost predicate Begins(s: State, s': State, i: nat, write: Write)
    requires i < |s.jobs|
  {
    && (exists after :: Starts(s.jobs[i], after) && Stored(s, s', s.jobs[i := after], write))
    && s'.fences == s.fences && s'.stop == (s.stop || write != Written)
    && s'.held == if write == Written && s.jobs[i].status == Queued then Some(s.jobs[i].id) else s.held
  }

  ghost predicate Reports(s: State, s': State, i: nat, stage: Stage, write: Write)
    requires i < |s.jobs|
  {
    && (exists after :: Progresses(s.jobs[i], after, stage) && Stored(s, s', s.jobs[i := after], write))
    && s'.fences == s.fences && s'.stop == s.stop && s'.held == s.held
  }

  /** The worker lets go of the settled job, or stops when the result cannot be written. */
  ghost predicate Concludes(s: State, s': State, i: nat, outcome: Outcome, write: Write)
    requires i < |s.jobs|
  {
    && (exists after :: Settles(s.jobs[i], after, outcome, s.stop) && Stored(s, s', s.jobs[i := after], write))
    && s'.fences == s.fences && s'.stop == (s.stop || write != Written)
    && s'.held == if write == Written then None else s.held
  }

  lemma SubmitMeans(s: State, maxQueued: nat, request: Request, id: nat, fence: Write, write: Write)
    requires StateValid(s, maxQueued) && forall k :: 0 <= k < |s.jobs| ==> s.jobs[k].id != id
    ensures Submits(s, SubmitEffect(s, maxQueued, request, id, fence, write), maxQueued, request, id, fence, write)
  {
    AdmitMeans(s.jobs, request, id, maxQueued);
    AdmitKeepsQueue(s.jobs, request, id, maxQueued, s.held);
    match Admit(s.jobs, request, id, maxQueued) {
      case Existing(job) =>
        var k :| 0 <= k < |s.jobs| && s.jobs[k] == job;
        assert Matches(s.jobs[k], request);
      case Accepted(updated, job) => SaveFencedMeans(s, request.profile, Generation(id), updated, fence, write);
      case _ =>
    }
  }

  lemma SaveFencedMeans(s: State, profile: string, value: Fence, updated: seq<Job>, fence: Write, write: Write)
    ensures FencedAndStored(s, SaveFenced(s, profile, value, updated, fence, write), profile, value, updated, fence, write)
  {
  }

  lemma CancelMeans(s: State, i: nat, fence: Write, write: Write)
    requires RecordsValid(s.jobs) && i < |s.jobs| && Find(s.jobs, s.jobs[i].id) == Some(i)
    ensures Cancels(s, CancelEffect(s, s.jobs[i].id, fence, write), i, fence, write)
  {
    UpdatesMean(s.jobs[i], Unsuccessful, false);
    SaveFencedMeans(s, s.jobs[i].request.profile, CancelledGeneration, s.jobs[i := Revoked(s.jobs[i])], fence, write);
  }

  /** Cancelling a current job writes the fence, then the list with the job revoked. */
  lemma CancelWrites(s: State, i: nat, fence: Write, write: Write)
    requires RecordsValid(s.jobs) && i < |s.jobs| && Find(s.jobs, s.jobs[i].id) == Some(i) && Current(s.jobs[i].status)
    ensures CancelEffect(s, s.jobs[i].id, fence, write)
         == SaveFenced(s, s.jobs[i].request.profile, CancelledGeneration, s.jobs[i := Revoked(s.jobs[i])], fence, write)
    ensures Revoked(s.jobs[i]).id == s.jobs[i].id && !Current(Revoked(s.jobs[i]).status)
  {
  }

  lemma StartMeans(s: State, i: nat, write: Write)
    requires RecordsValid(s.jobs) && i < |s.jobs| && Find(s.jobs, s.jobs[i].id) == Some(i)
    ensures Begins(s, StartEffect(s, s.jobs[i].id, write), i, write)
  {
    UpdatesMean(s.jobs[i], Unsuccessful, false);
  }

  lemma ProgressMeans(s: State, i: nat, stage: Stage, write: Write)
    requires RecordsValid(s.jobs) && i < |s.jobs|
    ensures Reports(s, ProgressEffect(s, i, stage, write), i, stage, write)
  {
    AddEventLogs(s.jobs[i], stage);
  }

  lemma ConcludeMeans(s: State, i: nat, outcome: Outcome, write: Write)
    requires RecordsValid(s.jobs) && i < |s.jobs|
    ensures Concludes(s, ConcludeEffect(s, i, outcome, write), i, outcome, write)
  {
    UpdatesMean(s.jobs[i], outcome, s.stop);
  }

  lemma RecoveryMeans(journal: seq<Job>)
    requires RecordsValid(journal)
    ensures forall i :: 0 <= i < |journal| ==> Recovers(journal[i], RecoverAll(journal)[i])
  {
    forall i | 0 <= i < |journal|
      ensures Recovers(journal[i], RecoverAll(journal)[i])
    {
      UpdatesMean(journal[i], Unsuccessful, false);
    }
  }

  lemma SubmitKeepsValid(s: State, maxQueued: nat, request: Request, id: nat, fence: Write, write: Write)
    requires StateValid(s, maxQueued) && forall k :: 0 <= k < |s.jobs| ==> s.jobs[k].id != id
    ensures StateValid(SubmitEffect(s, maxQueued, request, id, fence, write), maxQueued)
    ensures Admit(s.jobs, request, id, maxQueued) != HistoryFull
  {
    AdmitKeepsQueue(s.jobs, request, id, maxQueued, s.held);
  }

  lemma RevokedKeepsQueue(jobs: seq<Job>, i: nat, maxQueued: nat, held: Option<nat>)
    requires QueueValid(jobs, maxQueued, held) && i < |jobs| && Current(jobs[i].status)
    ensures QueueValid(jobs[i := Revoked(jobs[i])], maxQueued, held)
  {
    AddEventKeepsOrder(jobs[i].(status := Cancelled), Finished);
    AddEventKeepsOrder(jobs[i].(status := Cancelling), QueuedStage);
    ReplaceKeepsQueue(jobs, i, Revoked(jobs[i]), maxQueued, held);
  }

  lemma CancelKeepsValid(s: State, maxQueued: nat, id: nat, fence: Write, write: Write)
    requires StateValid(s, maxQueued)
    ensures StateValid(CancelEffect(s, id, fence, write), maxQueued)
  {
    if Find(s.jobs, id).Some? && Current(s.jobs[Find(s.jobs, id).value].status) {
      RevokedKeepsQueue(s.jobs, Find(s.jobs, id).value, maxQueued, s.held);
    }
  }

  lemma StartKeepsValid(s: State, maxQueued: nat, id: nat, write: Write)
    requires StateValid(s, maxQueued) && s.held == None
    ensures StateValid(StartEffect(s, id, write), maxQueued)
  {
    if Find(s.jobs, id).Some? {
      var i := Find(s.jobs, id).value;
      AddEventKeepsOrder(s.jobs[i].(status := Running), Capture);
      ReplaceKeepsQueue(s.jobs, i, Started(s.jobs[i]), maxQueued, s.held);
    }
  }

  lemma ProgressKeepsValid(s: State, maxQueued: nat, i: nat, stage: Stage, write: Write)
    requires StateValid(s, maxQueued) && i < |s.jobs| && s.held == Some(s.jobs[i].id)
    ensures StateValid(ProgressEffect(s, i, stage, write), maxQueued)
  {
    HeldIsInFlight(s.jobs, i, s.held);
    AddEventKeepsOrder(s.jobs[i], stage);
    ReplaceKeepsQueue(s.jobs, i, AddEvent(s.jobs[i], stage), maxQueued, s.held);
  }

  /** Settling the job in flight frees the worker. */
  lemma SettledKeepsQueue(jobs: seq<Job>, i: nat, done: Job, maxQueued: nat, held: Option<nat>)
    requires QueueValid(jobs, maxQueued, held) && i < |jobs| && held == Some(jobs[i].id)
    requires Replaces(jobs, i, done) && Terminal(done.status)
    ensures QueueValid(jobs[i := done], maxQueued, None)
  {
    HeldIsInFlight(jobs, i, held);
    ReplaceKeepsQueue(jobs, i, done, maxQueued, held);
  }

  lemma ConcludeKeepsValid(s: State, maxQueued: nat, i: nat, outcome: Outcome, write: Write)
    requires StateValid(s, maxQueued) && i < |s.jobs| && s.held == Some(s.jobs[i].id)
    ensures StateValid(ConcludeEffect(s, i, outcome, write), maxQueued)
  {
    ConcludedIsValid(s.jobs[i], outcome, s.stop);
    SettledKeepsQueue(s.jobs, i, Concluded(s.jobs[i], outcome, s.stop), maxQueued, s.held);
  }

  lemma HeldIsInFlight(jobs: seq<Job>, i: nat, held: Option<nat>)
    requires RecordsValid(jobs) && OnlyHeldInFlight(jobs, held) && i < |jobs| && held == Some(jobs[i].id)
    ensures InFlight(jobs[i].status)
  {
    var k :| 0 <= k < |jobs| && jobs[k].id == held.value && InFlight(jobs[k].status);
    assert k == i;
  }

  // ---- scans of the job list ----

  method ScanSame(jobs: seq<Job>, request: Request) returns (found: Option<nat>)
    ensures found == FirstSame(jobs, request)
  {
    for i := 0 to |jobs|
      invariant FirstSame(jobs[..i], request) == None
    {
      assert jobs[..i + 1][..i] == jobs[..i];
      if Same(jobs[i], request) {
        FirstSameUnique(jobs, request, i);
        return Some(i);
      }
    }
    assert jobs[..|jobs|] == jobs;
    return None;
  }

  lemma FirstSameUnique(jobs: seq<Job>, request: Request, i: nat)
    requires i < |jobs| && Same(jobs[i], request) && FirstSame(jobs[..i], request) == None
    ensures FirstSame(jobs, request) == Some(i)
  {
    var found := FirstSame(jobs, request);
    assert forall k :: 0 <= k < i ==> jobs[..i][k] == jobs[k];
  }

  method CountOtherQueued(jobs: seq<Job>, profile: string) returns (count: nat)
    ensures count == OtherQueued(jobs, profile)
  {
    count := 0;
    for i := 0 to |jobs|
      invariant count == OtherQueued(jobs[..i], profile)
    {
      assert jobs[..i + 1][..i] == jobs[..i];
      if jobs[i].status == Queued && jobs[i].request.profile != profile {
        count := count + 1;
      }
    }
    assert jobs[..|jobs|] == jobs;
  }

  method Supersede(jobs: seq<Job>, profile: string) returns (updated: seq<Job>)
    ensures updated == SupersedeAll(jobs, profile)
  {
    updated := jobs;
    for i := 0 to |jobs|
      invariant |updated| == |jobs|
      invariant forall k :: 0 <= k < |jobs| ==> updated[k] == if k < i then Superseded(jobs[k], profile) else jobs[k]
    {
      var job := updated[i];
      if job.request.profile == profile && !Terminal(job.status) {
        var status := if job.status == Queued then Cancelled else Cancelling;
        job := AddEvent(job.(status := status), if status == Cancelled then Finished else QueuedStage);
        updated := updated[i := job];
      }
    }
  }

  method ScanTerminal(jobs: seq<Job>) returns (found: Option<nat>)
    ensures found == FirstTerminal(jobs)
  {
    for i := 0 to |jobs|
      invariant forall k :: 0 <= k < i ==> !Terminal(jobs[k].status)
    {
      if Terminal(jobs[i].status) { return Some(i); }
    }
    return None;
  }

  method MakeHistoryRoom(jobs: seq<Job>) returns (kept: Option<seq<Job>>)
    ensures kept == Evict(jobs)
  {
    var updated := jobs;
    while |updated| >= MAX_HISTORY
      invariant Evict(updated) == Evict(jobs)
    {
      var index := ScanTerminal(updated);
      if index.None? { return None; }
      updated := Without(updated, index.value);
    }
    return Some(updated);
  }

  method ScanId(jobs: seq<Job>, id: nat) returns (found: Option<nat>)
    ensures found == Find(jobs, id)
  {
    for i := 0 to |jobs|
      invariant forall k :: 0 <= k < i ==> jobs[k].id != id
    {
      if jobs[i].id == id { return Some(i); }
    }
    return None;
  }

  method PickNext(jobs: seq<Job>) returns (next: Option<nat>)
    ensures next == NextQueued(jobs)
  {
    next := None;
    for i := 0 to |jobs|
      invariant next == NextQueued(jobs[..i])
    {
      assert jobs[..i + 1][..i] == jobs[..i];
      if jobs[i].status == Queued
         && (next.None? || Rank(jobs[i].request.priority) < Rank(jobs[next.value].request.priority))
      {
        next := Some(i);
      }
    }
    assert jobs[..|jobs|] == jobs;
  }

  lemma HeldIsFound(jobs: seq<Job>, id: nat)
    requires RecordsValid(jobs) && OnlyHeldInFlight(jobs, Some(id))
    ensures Find(jobs, id).Some? && InFlight(jobs[Find(jobs, id).value].status)
  {
    var i :| 0 <= i < |jobs| && jobs[i].id == id && InFlight(jobs[i].status);
    var k := Find(jobs, id).value;
    assert k == i;
  }

  lemma ConcludedIsValid(job: Job, outcome: Outcome, stop: bool)
    requires EventsOrdered(job.events)
    ensures var done := Concluded(job, outcome, stop);
      done.id == job.id && done.request == job.request && Terminal(done.status) && EventsOrdered(done.events)
  {
    match outcome
    case Published(snapshot) => AddEventKeepsOrder(job.(status := Succeeded, snapshot := Some(snapshot)), Finished);
    case Unsuccessful =>
      AddEventKeepsOrder(job.(status := if job.status == Cancelling || stop then Cancelled else Status.Failed), Finished);
  }

  ghost predicate DecisionOf(jobs: seq<Job>, request: Request, identity: Option<nat>, admission: Admission) {
    match admission
    case Existing(job) => FirstSame(jobs, request).Some? && job == jobs[FirstSame(jobs, request).value]
    case Accepted(updated, job) =>
      FirstSame(jobs, request).None? && identity.Some? && job == NewJob(identity.value, request) && job in updated
    case _ => false
  }

  /** The admission decision, in the order the checks are made. */
  method Decide(jobs: seq<Job>, request: Request, identity: Option<nat>, maxQueued: nat, ghost held: Option<nat>)
    returns (admission: Result<Admission, Error>)
    requires QueueValid(jobs, maxQueued, held) && 1 <= maxQueued <= 32
    ensures identity.Some? ==>
      match Admit(jobs, request, identity.value, maxQueued)
      case QueueFull => admission == Err(QueueIsFull)
      case HistoryFull => false
      case a => admission == Ok(a)
    ensures admission.Ok? ==> DecisionOf(jobs, request, identity, admission.value)
    ensures admission.Err? ==>
      match admission.error
      case QueueIsFull => OtherQueued(jobs, request.profile) >= maxQueued
      case EntropyUnavailable => identity.None?
      case _ => false
  {
    var same := ScanSame(jobs, request);
    if same.Some? { return Ok(Existing(jobs[same.value])); }
    var queued := CountOtherQueued(jobs, request.profile);
    if queued >= maxQueued { return Err(QueueIsFull); }
    MakeRoom(jobs, request.profile, maxQueued, held);
    var updated := Supersede(jobs, request.profile);
    var kept := MakeHistoryRoom(updated);
    if kept.None? { return Err(HistoryIsFull); }
    if identity.None? { return Err(EntropyUnavailable); }
    var job := NewJob(identity.value, request);
    updated := kept.value + [job];
    assert updated[|kept.value|] == job;
    return Ok(Accepted(updated, job));
  }

  class Scheduler {
    const maxQueued: nat
    var jobs: seq<Job>
    var journal: seq<Job>
    var fences: map<string, Fence>
    var stop: bool
    var held: Option<nat>

    ghost function Now(): State
      reads this
    {
      State(jobs, journal, fences, stop, held)
    }

    ghost predicate Valid()
      reads this
    {
      StateValid(Now(), maxQueued)
    }

    /** Startup: unfinished journal entries become failures and the list is written back. */
    constructor (journal: seq<Job>, fences: map<string, Fence>, maxQueued: nat)
      requires 1 <= maxQueued <= 32 && RecordsValid(journal)
      ensures Valid() && this.maxQueued == maxQueued
      ensures Now() == State(RecoverAll(journal), RecoverAll(journal), fences, false, None)
      ensures |jobs| == |journal| && forall i :: 0 <= i < |journal| ==> Recovers(journal[i], jobs[i])
    {
      RecoveryMeans(journal);
      RecoverEstablishesQueue(journal, maxQueued);
      this.maxQueued := maxQueued;
      this.jobs := RecoverAll(journal);
      this.journal := RecoverAll(journal);
      this.fences := fences;
      this.stop := false;
      this.held := None;
    }

    method Persist(updated: seq<Job>, write: Write) returns (ok: bool)
      modifies this`journal, this`jobs
      ensures ok <==> write == Written
      ensures Now() == Save(old(Now()), updated, write)
    {
      if write != Write.Failed { journal := updated; }
      ok := write == Written;
      if ok { jobs := updated; }
    }

    method PersistFenced(profile: string, value: Fence, updated: seq<Job>, fence: Write, write: Write) returns (ok: bool)
      modifies this`journal, this`jobs, this`fences
      ensures ok <==> fence == Written && write == Written
      ensures Now() == SaveFenced(old(Now()), profile, value, updated, fence, write)
    {
      if fence != Write.Failed { fences := fences[profile := value]; }
      if fence != Written { return false; }
      ok := Persist(updated, write);
    }

    /** Admits a request. identity stands for reading the random source, lockFree for winning the
        publication lock, fence and write for the fate of the two durable writes. */
    method Submit(request: Request, identity: Option<nat>, lockFree: bool, fence: Write, write: Write)
      returns (result: Result<Job, Error>)
      requires Valid() && (identity.Some? ==> forall k :: 0 <= k < |jobs| ==> jobs[k].id != identity.value)
      modifies this`jobs, this`journal, this`fences
      ensures Valid()
      ensures Now() == if RequestValid(request) && !stop && lockFree && identity.Some?
                       then SubmitEffect(old(Now()), maxQueued, request, identity.value, fence, write) else old(Now())
      ensures RequestValid(request) && !stop && lockFree && identity.Some? ==>
        Submits(old(Now()), Now(), maxQueued, request, identity.value, fence, write)
      ensures result.Ok? ==> Answers(old(jobs), request, identity, result.value)
      ensures result != Err(HistoryIsFull)
      ensures result == Err(QueueIsFull) ==> OtherQueued(jobs, request.profile) >= maxQueued
    {
      if identity.Some? { SubmitMeans(Now(), maxQueued, request, identity.value, fence, write); }
      var valid := ValidateRequest(request);
      if !valid { return Err(InvalidRequest); }
      if stop { return Err(SchedulerUnavailable); }
      if !lockFree { return Err(FenceUnavailable); }
      result := SubmitLocked(request, identity, fence, write);
    }

    /** A successful submission returns the matching live job, or the new one, now fenced and durable. */
    ghost predicate Answers(before: seq<Job>, request: Request, identity: Option<nat>, job: Job)
      reads this
    {
      if FirstSame(before, request).Some? then job == before[FirstSame(before, request).value]
      else
        && identity.Some? && job == NewJob(identity.value, request) && job in jobs && journal == jobs
        && request.profile in fences && fences[request.profile] == Generation(identity.value)
    }

    method SubmitLocked(request: Request, identity: Option<nat>, fence: Write, write: Write)
      returns (result: Result<Job, Error>)
      requires Valid() && (identity.Some? ==> forall k :: 0 <= k < |jobs| ==> jobs[k].id != identity.value)
      modifies this`jobs, this`journal, this`fences
      ensures Valid()
      ensures Now() == if identity.Some? then SubmitEffect(old(Now()), maxQueued, request, identity.value, fence, write)
                       else old(Now())
      ensures result.Ok? ==> Answers(old(jobs), request, identity, result.value)
      ensures result.Err? ==> match result.error
        case QueueIsFull => OtherQueued(jobs, request.profile) >= maxQueued
        case HistoryIsFull => false
        case _ => true
    {
      var admission := Decide(jobs, request, identity, maxQueued, held);
      if admission.Err? {
        result := Err(admission.error);
      } else if admission.value.Existing? {
        result := Ok(admission.value.job);
      } else {
        SubmitKeepsValid(Now(), maxQueued, request, identity.value, fence, write);
        var ok := PersistFenced(request.profile, Generation(identity.value), admission.value.jobs, fence, write);
        result := if ok then Ok(admission.value.job) else Err(WriteFailed);
      }
    }

    /** Revokes a queued or running job. */
    method Cancel(id: nat, lockFree: bool, fence: Write, write: Write) returns (result: Result<Job, Error>)
      requires Valid()
      modifies this`jobs, this`journal, this`fences
      ensures Valid()
      ensures Now() == if lockFree then CancelEffect(old(Now()), id, fence, write) else old(Now())
      ensures result == Err(UnknownJob) <==> Find(old(jobs), id).None?
      ensures result != Err(UnknownJob) && lockFree ==> Cancels(old(Now()), Now(), Find(old(jobs), id).value, fence, write)
      ensures result.Ok? ==> result.value in jobs && result.value.id == id && !Current(result.value.status)
    {
      var found := ScanId(jobs, id);
      if found.None? { return Err(UnknownJob); }
      var i := found.value;
      var job := jobs[i];
      if Terminal(job.status) || job.status == Cancelling { return Ok(job); }
      if !lockFree { return Err(FenceUnavailable); }
      CancelMeans(Now(), i, fence, write);
      CancelKeepsValid(Now(), maxQueued, id, fence, write);
      CancelWrites(Now(), i, fence, write);
      var status := if job.status == Queued then Cancelled else Cancelling;
      var revoked := AddEvent(job.(status := status), if status == Cancelled then Finished else QueuedStage);
      var updated := jobs[i := revoked];
      assert updated[i] == revoked;
      var ok := PersistFenced(job.request.profile, CancelledGeneration, updated, fence, write);
      return if ok then Ok(revoked) else Err(WriteFailed);
    }

    /** The worker chooses a job, and lets go of the list before starting it. */
    method Choose() returns (id: Option<nat>)
      ensures id == match NextQueued(jobs) case None => None case Some(i) => Some(jobs[i].id)
    {
      var next := PickNext(jobs);
      id := if next.None? then None else Some(jobs[next.value].id);
    }

    method Start(id: nat, write: Write) returns (running: bool)
      requires Valid() && held == None
      modifies this
      ensures Valid() && Now() == StartEffect(old(Now()), id, write)
      ensures match Find(old(jobs), id)
        case None => Now() == old(Now()).(stop := true)
        case Some(i) => Begins(old(Now()), Now(), i, write)
      ensures running <==> held == Some(id)
    {
      StartKeepsValid(Now(), maxQueued, id, write);
      var found := ScanId(jobs, id);
      if found.None? {
        stop := true;
        return false;
      }
      var i := found.value;
      StartMeans(Now(), i, write);
      var queued := jobs[i].status == Queued;
      var job := jobs[i];
      if queued { job := AddEvent(job.(status := Running), Capture); }
      var ok := Persist(jobs[i := job], write);
      if !ok {
        stop := true;
        return false;
      }
      if queued { held := Some(id); }
      return queued;
    }

    /** A progress report adds an event to the job in flight. */
    method Progress(stage: Stage, write: Write) returns (ok: bool)
      requires Valid() && held.Some?
      modifies this`jobs, this`journal
      ensures Valid() && ok == (write == Written)
      ensures Find(old(jobs), held.value).Some?
      ensures Now() == ProgressEffect(old(Now()), Find(old(jobs), held.value).value, stage, write)
      ensures Reports(old(Now()), Now(), Find(old(jobs), held.value).value, stage, write)
    {
      HeldIsFound(jobs, held.value);
      var found := ScanId(jobs, held.value);
      var i := found.value;
      ProgressKeepsValid(Now(), maxQueued, i, stage, write);
      ProgressMeans(Now(), i, stage, write);
      ok := Persist(jobs[i := AddEvent(jobs[i], stage)], write);
    }

    /** The worker's last update of the job in flight. It always finds it, and always unfinished. */
    method Conclude(outcome: Outcome, write: Write) returns (ok: bool)
      requires Valid() && held.Some?
      modifies this
      ensures Valid() && ok == (write == Written)
      ensures Find(old(jobs), old(held).value).Some? && InFlight(old(jobs)[Find(old(jobs), old(held).value).value].status)
      ensures Now() == ConcludeEffect(old(Now()), Find(old(jobs), old(held).value).value, outcome, write)
      ensures Concludes(old(Now()), Now(), Find(old(jobs), old(held).value).value, outcome, write)
    {
      HeldIsFound(jobs, held.value);
      var found := ScanId(jobs, held.value);
      var i := found.value;
      ConcludeKeepsValid(Now(), maxQueued, i, outcome, write);
      ConcludeMeans(Now(), i, outcome, write);
      ok := Persist(jobs[i := Concluded(jobs[i], outcome, stop)], write);
      if ok { held := None; } else { stop := true; }
    }
  }
}
