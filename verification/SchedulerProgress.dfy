/** A job that nobody disturbs runs from its submission to a published success. */
module SchedulerProgress {
  import opened Wrappers
  import opened Jobs
  import opened Scheduler
  import opened SchedulerRuns

  /** The world of one job, its worker and at most one child. */
  ghost function OneJob(w: World, job: Job, chosen: Option<nat>, held: Option<nat>, children: map<nat, Child>, guard: Option<nat>,
                        commits: seq<CatalogCommit>): World {
    w.(state := State([job], [job], map[job.request.profile := Generation(job.id)], false, held), workerAlive := true,
       chosen := chosen, children := children, guard := guard, commits := commits,
       serials := map[job.id := w.nextSerial], nextSerial := w.nextSerial + 1)
  }

  lemma RunNext(w: World, a: Action, next: World, rest: seq<Action>, end: World)
    requires Step(w, a) == Some(next) && Run(next, rest) == Some(end)
    ensures Run(w, [a] + rest) == Some(end)
  {
    assert ([a] + rest)[0] == a && ([a] + rest)[1..] == rest;
  }

  lemma FirstIsAccepted(request: Request, id: nat, maxQueued: nat)
    requires 1 <= maxQueued
    ensures Admit([], request, id, maxQueued) == Accepted([NewJob(id, request)], NewJob(id, request))
  {
  }

  lemma Submits(w: World, request: Request, id: nat)
    requires Initial(w) && RequestValid(request)
    ensures Step(w, Submit(request, id, Written, Written)) == Some(OneJob(w, NewJob(id, request), None, None, map[], None, []))
  {
    FirstIsAccepted(request, id, w.maxQueued);
    NoneYet(w, id);
  }

  lemma NoneYet(w: World, id: nat)
    requires w.serials == map[]
    ensures w.serials[id := w.nextSerial] == map[id := w.nextSerial]
  {
  }

  lemma OneIsFound(job: Job)
    ensures Find([job], job.id) == Some(0) && (job.status == Queued ==> NextQueued([job]) == Some(0))
    ensures forall after: Job :: [job][0 := after] == [after]
  {
    assert [job][..0] == [];
  }

  lemma Chooses(w: World, job: Job)
    requires job.status == Queued
    ensures Step(OneJob(w, job, None, None, map[], None, []), Choose) == Some(OneJob(w, job, Some(job.id), None, map[], None, []))
  {
    OneIsFound(job);
  }

  lemma StartsJob(w: World, job: Job)
    requires job.status == Queued
    ensures Started(job).id == job.id && Started(job).request == job.request && Started(job).status == Running
    ensures Step(OneJob(w, job, Some(job.id), None, map[], None, []), Start(Written))
         == Some(OneJob(w, Started(job), None, Some(job.id), map[], None, []))
  {
    OneIsFound(job);
  }

  ghost function ChildOf(job: Job): Child {
    Child(job.request.profile, job.id)
  }

  lemma Spawns(w: World, job: Job, pid: nat)
    ensures Step(OneJob(w, job, None, Some(job.id), map[], None, []), Spawn(pid))
         == Some(OneJob(w, job, None, Some(job.id), map[pid := ChildOf(job)], None, []))
  {
    OneIsFound(job);
  }

  lemma TakesGuard(w: World, job: Job, pid: nat)
    ensures Step(OneJob(w, job, None, Some(job.id), map[pid := ChildOf(job)], None, []), TakeGuard(pid))
         == Some(OneJob(w, job, None, Some(job.id), map[pid := ChildOf(job)], Some(pid), []))
  {
  }

  lemma Publishes(w: World, job: Job, pid: nat)
    ensures Step(OneJob(w, job, None, Some(job.id), map[pid := ChildOf(job)], Some(pid), []), Publish(pid))
         == Some(OneJob(w, job, None, Some(job.id), map[pid := ChildOf(job)], Some(pid), [CatalogCommit(job.request.profile, job.id)]))
  {
    var commits: seq<CatalogCommit> := [];
    assert commits + [CatalogCommit(job.request.profile, job.id)] == [CatalogCommit(job.request.profile, job.id)];
  }

  lemma ConcludesJob(w: World, job: Job, pid: nat, snapshot: nat)
    requires EventsOrdered(job.events)
    ensures var done := Concluded(job, Published(snapshot), false);
      && Settles(job, done, Published(snapshot), false)
      && Step(OneJob(w, job, None, Some(job.id), map[pid := ChildOf(job)], Some(pid), [CatalogCommit(job.request.profile, job.id)]),
              Conclude(Published(snapshot), Written))
         == Some(OneJob(w, done, None, None, map[], None, [CatalogCommit(job.request.profile, job.id)]))
  {
    OneIsFound(job);
    UpdatesMean(job, Published(snapshot), false);
    var commits := [CatalogCommit(job.request.profile, job.id)];
    assert commits[0].id == job.id;
    var before := OneJob(w, job, None, Some(job.id), map[pid := ChildOf(job)], Some(pid), commits);
    assert Committed(commits, job.id);
    assert Reap(before, job.id).children == map[];
  }

  /** From an empty store, a valid request whose job is not withdrawn is published and succeeds with its
      snapshot; the catalog commit carries its identity. */
  lemma JobSucceeds(w: World, request: Request, id: nat, pid: nat, snapshot: nat) returns (actions: seq<Action>, job: Job)
    requires Initial(w) && RequestValid(request)
    ensures Run(w, actions).Some?
    ensures var end := Run(w, actions).value;
      && end.state.jobs == [job] && end.state.journal == [job] && end.commits == [CatalogCommit(request.profile, id)]
      && job.id == id && job.request == request && job.status == Succeeded && job.snapshot == Some(snapshot)
      && end.state.held == None && end.children == map[] && end.guard == None
  {
    var queued := NewJob(id, request);
    var running := Started(queued);
    job := Concluded(running, Published(snapshot), false);
    AddEventKeepsOrder(Job(id, request, Queued, None, []), QueuedStage);
    AddEventKeepsOrder(queued.(status := Running), Capture);
    var commits, children := [CatalogCommit(request.profile, id)], map[pid := ChildOf(running)];
    StartsJob(w, queued);
    var end := OneJob(w, job, None, None, map[], None, commits);
    ConcludesJob(w, running, pid, snapshot);
    var w6 := OneJob(w, running, None, Some(id), children, Some(pid), commits);
    RunNext(w6, Conclude(Published(snapshot), Written), end, [], end);
    Publishes(w, running, pid);
    var w5 := OneJob(w, running, None, Some(id), children, Some(pid), []);
    var a6 := [Conclude(Published(snapshot), Written)] + [];
    RunNext(w5, Publish(pid), w6, a6, end);
    TakesGuard(w, running, pid);
    var w4 := OneJob(w, running, None, Some(id), children, None, []);
    RunNext(w4, TakeGuard(pid), w5, [Publish(pid)] + a6, end);
    actions := EarlierSteps(w, request, id, pid, [TakeGuard(pid)] + ([Publish(pid)] + a6), end);
  }

  lemma EarlierSteps(w: World, request: Request, id: nat, pid: nat, later: seq<Action>, end: World) returns (actions: seq<Action>)
    requires Initial(w) && RequestValid(request)
    requires var running := Started(NewJob(id, request));
      Run(OneJob(w, running, None, Some(id), map[pid := ChildOf(running)], None, []), later) == Some(end)
    ensures Run(w, actions) == Some(end)
  {
    var queued := NewJob(id, request);
    var running := Started(queued);
    StartsJob(w, queued);
    Spawns(w, running, pid);
    var w3 := OneJob(w, running, None, Some(id), map[], None, []);
    RunNext(w3, Spawn(pid), OneJob(w, running, None, Some(id), map[pid := ChildOf(running)], None, []), later, end);
    var w2 := OneJob(w, queued, Some(id), None, map[], None, []);
    RunNext(w2, Start(Written), w3, [Spawn(pid)] + later, end);
    Chooses(w, queued);
    var w1 := OneJob(w, queued, None, None, map[], None, []);
    RunNext(w1, Choose, w2, [Start(Written)] + ([Spawn(pid)] + later), end);
    Submits(w, request, id);
    actions := [Submit(request, id, Written, Written)] + ([Choose] + ([Start(Written)] + ([Spawn(pid)] + later)));
    RunNext(w, Submit(request, id, Written, Written), w1, [Choose] + ([Start(Written)] + ([Spawn(pid)] + later)), end);
  }
}
