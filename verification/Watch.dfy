/** The warm-worker protocol: a supervisor that publishes, and a worker that captures and analyses. */
module Watch {
  import opened Wrappers
  import opened Cancellation
  import opened Sums

  const VERSION: nat := 1
  const MAX_CAPTURES: nat := 32
  /** The supervisor accepts this many bytes of error text; the worker keeps this many characters. */
  const MAX_ERROR: nat := 4096
  const KEPT_ERROR: nat := 1024
  const MAX_TRANSPORT_FAILURES: nat := 3

  /** The identities of a captured source and its build context. */
  type Key = (nat, nat)

  /** Canonical facts of one analysed capture. */
  datatype Facts = Facts(key: Key, content: nat)

  /** A character of an error text, given by its encoded length in bytes. */
  type Character = n: nat | 1 <= n <= 4 witness 1

  type Text = seq<Character>

  function Bytes(text: Text): nat {
    SumOf(text)
  }

  /** The worker's cut always passes the supervisor's check. */
  lemma {:induction false} BytesFit(text: Text)
    ensures Bytes(text) <= 4 * |text|
    decreases |text|
  {
    if text != [] { BytesFit(text[..|text| - 1]); }
  }

  datatype Status = Changed | Unchanged | Failed

  datatype Request = Request(version: nat, sequence: nat)

  datatype Response = Response(version: nat, sequence: nat, status: Status, source: Option<nat>, context: Option<nat>,
                               error: Option<Text>)

  /** What capturing the workspace, and analysing it if needed, would give in one round. A failing
      analysis may leave a facts file behind. */
  datatype Attempt =
    | CaptureFails(error: Text)
    | AnalysisFails(key: Key, error: Text, partial: Option<Facts>)
    | Analyses(facts: Facts)

  // ---- validation of a response ----

  /** What the supervisor demands of the reply to its n-th request, given the capture it remembers: a
      changed capture names itself, an unchanged one is the remembered one, a failure only says why. */
  ghost predicate Acceptable(r: Response, n: nat, previous: Option<Key>) {
    && r.version == 1 && r.sequence == n && (r.error.Some? ==> Bytes(r.error.value) <= 4096)
    && match r.status
       case Changed => r.error == None && r.source != None && r.context != None
       case Unchanged => r.error == None && exists key: Key :: previous == Some(key) && r.source == Some(key.0) && r.context == Some(key.1)
       case Failed => r.error != None && r.source == None && r.context == None
  }

  /** The checks on a reply, whoever sent it. */
  method CheckResponse(r: Response, n: nat, previous: Option<Key>) returns (ok: bool)
    ensures ok <==> Acceptable(r, n, previous)
  {
    if r.version != VERSION || r.sequence != n { return false; }
    if r.error.Some? && Bytes(r.error.value) > MAX_ERROR { return false; }
    match r.status {
      case Changed => return r.source.Some? && r.context.Some? && r.error.None?;
      case Unchanged =>
        return r.error.None? && previous.Some? && r.source == Some(previous.value.0) && r.context == Some(previous.value.1);
      case Failed => return r.source.None? && r.context.None? && r.error.Some?;
    }
  }

  /** An acceptable reply with the right file: the facts it names if something changed, else none. */
  ghost predicate Fits(r: Response, waiting: Option<Facts>, n: nat, previous: Option<Key>) {
    && Acceptable(r, n, previous)
    && match waiting
       case None => r.status != Changed
       case Some(facts) => r.status == Changed && r.source == Some(facts.key.0) && r.context == Some(facts.key.1)
  }

  // ---- the two sides ----

  /** The private directory shared by one session; facts is the file facts.json. */
  class Scratch {
    var facts: Option<Facts>

    constructor ()
      ensures facts == None
    {
      facts := None;
    }
  }

  class Worker {
    const scratch: Scratch
    var served: nat
    var previous: Option<Key>

    constructor (scratch: Scratch)
      ensures this.scratch == scratch && served == 0 && previous == None
    {
      this.scratch := scratch;
      served, previous := 0, None;
    }

    /** Whether the worker would find the workspace changed. */
    ghost predicate SeesChange(attempt: Attempt)
      reads this
    {
      match attempt
      case CaptureFails(_) => false
      case AnalysisFails(key, _, _) => previous != Some(key)
      case Analyses(facts) => previous != Some(facts.key)
    }

    /** The reply an attempt deserves. */
    ghost function Expected(attempt: Attempt): Response
      reads this
    {
      match attempt
      case CaptureFails(error) => FailedResponse(served + 1, error)
      case AnalysisFails(key, error, _) =>
        if SeesChange(attempt) then FailedResponse(served + 1, error) else KeyResponse(served + 1, Unchanged, key)
      case Analyses(facts) =>
        KeyResponse(served + 1, if SeesChange(attempt) then Changed else Unchanged, facts.key)
    }

    /** One turn of the worker's loop. None means that it exits on a broken protocol. */
    method Serve(request: Request, attempt: Attempt) returns (reply: Option<Response>)
      modifies this, scratch
      ensures reply.Some? <==>
        request == Request(VERSION, old(served) + 1) && old(served) < MAX_CAPTURES && old(scratch.facts) == None
      ensures served == if reply.Some? then old(served) + 1 else old(served)
      ensures reply.Some? ==> reply.value == old(Expected(attempt))
      ensures reply.Some? ==> scratch.facts == (if reply.value.status == Changed then Some(attempt.facts) else None)
      ensures reply.Some? ==> previous == (if reply.value.status == Changed then Some(attempt.facts.key) else old(previous))
      ensures reply.Some? && reply.value.status == Changed ==> attempt.Analyses?
    {
      var sequence := served + 1;
      if sequence > MAX_CAPTURES { return None; }
      if request.version != VERSION || request.sequence != sequence { return None; }
      if scratch.facts.Some? { return None; }
      served := sequence;
      match attempt
      case CaptureFails(error) => return Some(FailedResponse(sequence, error));
      case AnalysisFails(key, error, partial) =>
        if previous != Some(key) {
          scratch.facts := partial;
          scratch.facts := None;
          return Some(FailedResponse(sequence, error));
        }
        return Some(KeyResponse(sequence, Unchanged, key));
      case Analyses(facts) =>
        var changed := previous != Some(facts.key);
        if changed {
          scratch.facts := Some(facts);
          previous := Some(facts.key);
        }
        return Some(KeyResponse(sequence, if changed then Changed else Unchanged, facts.key));
    }
  }

  function KeyResponse(sequence: nat, status: Status, key: Key): Response {
    Response(VERSION, sequence, status, Some(key.0), Some(key.1), None)
  }

  /** The text is cut to 1024 characters. */
  function FailedResponse(sequence: nat, error: Text): Response {
    Response(VERSION, sequence, Failed, None, None, Some(if |error| <= KEPT_ERROR then error else error[..KEPT_ERROR]))
  }

  /** A failure is always acceptable, and tells as much of its cause as 1024 characters hold. */
  lemma FailureIsTold(sequence: nat, error: Text, previous: Option<Key>)
    ensures var r := FailedResponse(sequence, error);
      && Acceptable(r, sequence, previous) && r.status == Failed && r.error.value <= error
      && |r.error.value| <= 1024 && (r.error.value != error ==> |r.error.value| == 1024)
  {
    BytesFit(FailedResponse(sequence, error).error.value);
  }

  datatype SessionError = LimitReached | Transport | Rejected

  class Session {
    const scratch: Scratch
    const worker: Worker
    var captures: nat
    var previous: Option<Key>
    /** The facts most recently delivered; previous is their key. */
    ghost var delivered: Option<Facts>

    /** Both sides remember the same capture and the same sequence, and no facts are waiting. */
    ghost predicate Agreed()
      reads this, worker, scratch
    {
      && worker.scratch == scratch && captures == worker.served <= MAX_CAPTURES
      && previous == worker.previous && scratch.facts == None
      && previous == (if delivered.Some? then Some(delivered.value.key) else None)
    }

    constructor ()
      ensures Agreed() && captures == 0 && previous == None && delivered == None
      ensures fresh(scratch) && fresh(worker)
    {
      var s := new Scratch();
      var w := new Worker(s);
      scratch, worker := s, w;
      captures, previous, delivered := 0, None, None;
    }

    /** One request. fault fires on a deadline, a cancellation, or a failing connection or file; short
        of that the honest worker's reply is accepted, and both sides agree again. A reply is never
        rejected for what it says. */
    method Capture(attempt: Attempt, fault: Control) returns (result: Result<(Response, Option<Facts>), SessionError>)
      requires Agreed()
      modifies this, worker, scratch, fault
      ensures old(fault.fired) ==> fault.fired
      ensures old(captures) >= MAX_CAPTURES ==> result == Err(LimitReached)
      ensures result.Err? && old(captures) < MAX_CAPTURES ==> result.error == Transport && fault.fired
      ensures result.Ok? ==> fault.fired == old(fault.fired)
      ensures result.Ok? ==>
        && Agreed() && result.value.0 == old(worker.Expected(attempt)) && captures == old(captures) + 1
        && (result.value.0.status == Changed ==>
              attempt.Analyses? && result.value.1 == Some(attempt.facts) && delivered == Some(attempt.facts))
        && (result.value.0.status != Changed ==> result.value.1 == None && delivered == old(delivered))
        && (result.value.0.status == Unchanged ==> delivered.Some?)
        && (attempt.Analyses? ==> delivered.Some? && delivered.value.key == attempt.facts.key && result.value.0.status != Failed)
    {
      if captures >= MAX_CAPTURES { return Err(LimitReached); }
      captures := captures + 1;
      var lost := fault.Stopped();
      if lost { return Err(Transport); }
      var reply := worker.Serve(Request(VERSION, captures), attempt);
      lost := fault.Stopped();
      if lost || reply.None? { return Err(Transport); }
      if reply.value.error.Some? { BytesFit(reply.value.error.value); }
      result := Receive(reply.value, fault);
    }

    /** Takes in a reply, whoever sent it, and the facts file that came with it. */
    method Receive(response: Response, fault: Control) returns (result: Result<(Response, Option<Facts>), SessionError>)
      modifies this, scratch, fault
      ensures captures == old(captures) && (old(fault.fired) ==> fault.fired)
      ensures result.Ok? ==> fault.fired == old(fault.fired)
      ensures result.Ok? ==>
        && Fits(response, old(scratch.facts), captures, old(previous)) && scratch.facts == None
        && result.value == (response, old(scratch.facts))
      ensures result.Ok? && old(scratch.facts).Some? ==> previous == Some(old(scratch.facts).value.key) && delivered == old(scratch.facts)
      ensures result.Err? || old(scratch.facts).None? ==> previous == old(previous) && delivered == old(delivered)
      ensures result == Err(Rejected) ==> !Fits(response, old(scratch.facts), captures, old(previous))
      ensures result == Err(Transport) ==> fault.fired || (response.status == Changed && old(scratch.facts).None?)
      ensures result != Err(LimitReached)
    {
      var ok := CheckResponse(response, captures, previous);
      if !ok { return Err(Rejected); }
      if response.status == Changed {
        var lost := fault.Stopped();
        if lost || scratch.facts.None? { return Err(Transport); }
        var facts := scratch.facts.value;
        scratch.facts := None;
        if response.source != Some(facts.key.0) || response.context != Some(facts.key.1) { return Err(Rejected); }
        previous, delivered := Some(facts.key), Some(facts);
        return Ok((response, Some(facts)));
      }
      if scratch.facts.Some? { return Err(Rejected); }
      return Ok((response, None));
    }
  }

  // ---- the supervisor ----

  datatype Report = Report(iterations: nat, published: nat, noChange: nat, failures: nat, restarts: nat, cancelled: bool)

  const FRESH_REPORT: Report := Report(0, 0, 0, 0, 0, false)

  /** How a round ends the run, if it does. */
  datatype Ending = Continue | Finished | Aborted

  /** One round's surroundings: what the workspace gives, and what another writer stored under the head
      since the last round, if one did. */
  datatype Surroundings = Surroundings(attempt: Attempt, foreign: Option<Option<Facts>>)

  class Supervisor {
    /** The facts of the profile's head snapshot in the store, and those this run expects there. */
    var head: Option<Facts>
    var expected: Option<Facts>
    var session: Option<Session>
    var starts: nat
    var transportFailures: nat
    var report: Report
    /** The facts of the last analysed capture of the run. */
    ghost var analysed: Option<Facts>
    ghost var Repr: set<object>

    ghost predicate Valid()
      reads this, Repr
    {
      && this in Repr
      && (session.Some? ==> SessionValid(session.value))
      && Counted()
    }

    /** Every round is counted once, and what the run expects under the head is what it last analysed. */
    ghost predicate Counted()
      reads this
    {
      && report.iterations == report.published + report.noChange + report.failures
      && report.restarts == (if starts == 0 then 0 else starts - 1)
      && transportFailures < MAX_TRANSPORT_FAILURES && transportFailures <= report.failures
      && (analysed.Some? ==> expected == analysed)
      && (report.published + report.noChange > 0 ==> analysed.Some?)
    }

    ghost predicate InRepr(s: Session)
      reads this
    {
      s in Repr && s.worker in Repr && s.scratch in Repr
    }

    /** The session is in agreement, and the store's expected head is what it last delivered. */
    ghost predicate SessionValid(s: Session)
      reads this, Repr
    {
      InRepr(s) && s.Agreed() && (s.delivered.Some? ==> analysed == s.delivered)
    }

    constructor (head: Option<Facts>)
      ensures Valid() && fresh(Repr) && session == None && expected == head && this.head == head
      ensures report == FRESH_REPORT && transportFailures == 0 && analysed == None
    {
      this.head, expected, analysed := head, head, None;
      session, starts, transportFailures := None, 0, 0;
      report := FRESH_REPORT;
      Repr := {this};
    }

    /** A usable session is kept; otherwise one more worker is started. */
    ghost predicate Restarts(usable: bool, before: Option<Session>, startsBefore: nat)
      reads this
    {
      if usable then session == before && starts == startsBefore
      else starts == startsBefore + 1 && (session.Some? ==> session != before)
    }

    method EnsureSession(fault: Control) returns (ready: bool)
      requires Valid() && fault !in Repr
      modifies Repr, fault
      ensures Valid() && fresh(Repr - old(Repr)) && fault !in Repr
      ensures old(fault.fired) ==> fault.fired
      ensures head == old(head) && expected == old(expected) && analysed == old(analysed)
      ensures transportFailures == old(transportFailures)
      ensures report == old(report).(restarts := report.restarts)
      ensures ready ==> session.Some? && session.value.captures < MAX_CAPTURES && fault.fired == old(fault.fired)
      ensures Restarts(old(session.Some? && session.value.captures < MAX_CAPTURES), old(session), old(starts))
      ensures !ready ==> session == None && fault.fired
    {
      if session.Some? && session.value.captures >= MAX_CAPTURES { session := None; }
      if session.None? {
        starts := starts + 1;
        report := report.(restarts := starts - 1);
        var failed := fault.Stopped();
        if failed { return false; }
        var s := new Session();
        Repr := Repr + {s, s.worker, s.scratch};
        session := Some(s);
      }
      return true;
    }

    /** Sends one request, starting a worker if needed. Only a fault loses the session. */
    method Ask(attempt: Attempt, fault: Control) returns (answer: Option<(Status, Option<Facts>)>)
      requires Valid() && fault !in Repr
      modifies Repr, fault
      ensures fresh(Repr - old(Repr)) && fault !in Repr
      ensures old(fault.fired) ==> fault.fired
      ensures head == old(head) && expected == old(expected) && analysed == old(analysed)
      ensures transportFailures == old(transportFailures)
      ensures report == old(report).(restarts := report.restarts)
      ensures answer.None? ==> session == None && Valid() && fault.fired
      ensures answer.Some? ==> Answered(attempt, answer.value.0, answer.value.1) && fault.fired == old(fault.fired)
      ensures starts == old(starts) + if old(session.Some? && session.value.captures < MAX_CAPTURES) then 0 else 1
    {
      var ready := EnsureSession(fault);
      if !ready { return None; }
      var s := session.value;
      var result := s.Capture(attempt, fault);
      if result.Err? {
        session := None;
        return None;
      }
      return Some((result.value.0.status, result.value.1));
    }

    /** An accepted reply, not counted yet. */
    ghost predicate Answered(attempt: Attempt, status: Status, facts: Option<Facts>)
      reads this, Repr
    {
      && this in Repr && Counted() && session.Some? && InRepr(session.value) && session.value.Agreed()
      && (status != Changed && session.value.delivered.Some? ==> analysed == session.value.delivered)
      && (status == Unchanged ==> session.value.delivered.Some?)
      && (status == Changed ==> facts.Some? && session.value.delivered == facts)
      && (attempt.Analyses? ==>
            status != Failed && session.value.delivered.Some? && session.value.delivered.value.key == attempt.facts.key)
    }

    /** What the round before publishes or counts as unchanged: the head holds the last analysed capture. */
    ghost predicate UpToDate()
      reads this
    {
      analysed.Some? && head == analysed && expected == analysed
    }

    /** One round. The head is touched only by publishing. Without a fault, a cancellation or a foreign
        head the round is counted, no request is lost, and after a successful analysis the head holds
        facts of the captured key. */
    method Round(now: Surroundings, cancel: Control, fault: Control) returns (ending: Ending)
      requires Valid() && cancel !in Repr && fault !in Repr && cancel != fault && !report.cancelled && head == expected
      modifies Repr, cancel, fault
      ensures fresh(Repr - old(Repr)) && cancel !in Repr && fault !in Repr
      ensures old(cancel.fired) ==> cancel.fired
      ensures old(fault.fired) ==> fault.fired
      ensures ending == Continue ==> Valid() && cancel.fired == old(cancel.fired)
      ensures ending == Continue && transportFailures == 0 ==> fault.fired == old(fault.fired)
      ensures Ended(old(report), now, old(expected), ending, cancel.fired, fault.fired)
      ensures ending != Aborted ==> expected == head
      ensures ending != Continue ==> expected == old(expected) && analysed == old(analysed)
      ensures ending == Continue && (report.noChange > old(report).noChange || report.published > old(report).published) ==> UpToDate()
      ensures ending == Continue && report.published == old(report).published ==> expected == old(expected)
      ensures !fault.fired ==> transportFailures == 0 || transportFailures == old(transportFailures)
      ensures ending == Continue && !fault.fired && now.attempt.Analyses? ==>
        UpToDate() && head.value.key == now.attempt.facts.key
    {
      ending := MayCapture(now.foreign, cancel, fault);
      if ending == Continue {
        var answer := Ask(now.attempt, fault);
        ending := Settle(now, answer, cancel, fault);
      }
    }

    /** The checks before a request: cancellation, a head changed by another writer, the disk quota. */
    method MayCapture(foreign: Option<Option<Facts>>, cancel: Control, fault: Control) returns (ending: Ending)
      requires Valid() && !report.cancelled && head == expected
      modifies this`report, this`head, cancel, fault
      ensures Valid()
      ensures old(cancel.fired) ==> cancel.fired
      ensures old(fault.fired) ==> fault.fired
      ensures report == old(report).(cancelled := ending == Finished)
      ensures ending == Finished ==> cancel.fired && head == expected
      ensures ending == Aborted ==> fault.fired || (foreign.Some? && foreign.value != expected)
      ensures ending == Continue ==> head == expected && (foreign.None? || foreign.value == expected)
      ensures ending == Continue ==> cancel.fired == old(cancel.fired) && fault.fired == old(fault.fired)
    {
      var cancelled := cancel.Stopped();
      if cancelled {
        report := report.(cancelled := true);
        return Finished;
      }
      if foreign.Some? { head := foreign.value; }
      if head != expected { return Aborted; }
      var paused := fault.Stopped();
      return if paused then Aborted else Continue;
    }

    /** Counts the answer of a round, or its loss, unless the run was cancelled meanwhile. */
    method Settle(ghost now: Surroundings, answer: Option<(Status, Option<Facts>)>, cancel: Control, fault: Control) returns (ending: Ending)
      requires this in Repr && !report.cancelled && head == expected && cancel !in Repr && fault !in Repr
      requires answer.None? ==> Valid() && session == None && fault.fired
      requires answer.Some? ==> Answered(now.attempt, answer.value.0, answer.value.1)
      requires now.foreign.None? || now.foreign.value == expected
      modifies this`report, this`transportFailures, this`head, this`expected, this`analysed, cancel, fault
      ensures old(cancel.fired) ==> cancel.fired
      ensures old(fault.fired) ==> fault.fired
      ensures ending == Continue ==> Valid() && cancel.fired == old(cancel.fired)
      ensures ending == Continue ==> transportFailures == if answer.None? then old(transportFailures) + 1 else 0
      ensures ending == Continue && transportFailures == 0 ==> fault.fired == old(fault.fired)
      ensures Ended(old(report), now, old(expected), ending, cancel.fired, fault.fired)
      ensures ending != Aborted ==> expected == head
      ensures ending != Continue ==> expected == old(expected) && analysed == old(analysed)
      ensures ending == Continue && (report.noChange > old(report).noChange || report.published > old(report).published) ==> UpToDate()
      ensures ending == Continue && report.published == old(report).published ==> expected == old(expected)
      ensures !fault.fired ==> transportFailures == 0 || transportFailures == old(transportFailures)
      ensures ending == Continue && !fault.fired && now.attempt.Analyses? ==>
        UpToDate() && head.value.key == now.attempt.facts.key
    {
      var cancelled := cancel.Stopped();
      if cancelled {
        report := report.(cancelled := true);
        return Finished;
      }
      if answer.None? {
        ending := CountLoss();
      } else {
        ending := Accept(now.attempt, answer.value.0, answer.value.1, cancel, fault);
      }
    }

    /** How the report and the ending of a round go together. */
    ghost predicate Ended(before: Report, now: Surroundings, expectedBefore: Option<Facts>, ending: Ending, cancelled: bool, faulty: bool)
      reads this
    {
      && report.published >= before.published && report.noChange >= before.noChange && report.failures >= before.failures
      && (ending == Finished <==> report.cancelled) && (ending == Finished ==> cancelled)
      && (ending == Aborted ==> faulty || (now.foreign.Some? && now.foreign.value != expectedBefore))
      && (ending == Continue ==>
            report.iterations == before.iterations + 1 && (now.foreign.None? || now.foreign.value == expectedBefore))
      && (ending != Continue ==> report.published == before.published && report.noChange == before.noChange)
    }

    /** Counts an accepted response, publishing facts that the head does not hold yet. */
    method Accept(ghost attempt: Attempt, status: Status, facts: Option<Facts>, cancel: Control, fault: Control) returns (ending: Ending)
      requires Answered(attempt, status, facts) && head == expected && !report.cancelled && cancel !in Repr && fault !in Repr
      modifies this`report, this`transportFailures, this`head, this`expected, this`analysed, cancel, fault
      ensures old(cancel.fired) ==> cancel.fired
      ensures old(fault.fired) ==> fault.fired
      ensures ending == Continue ==> Valid() && expected == head
      ensures ending == Continue ==> report == CountedAs(old(report), status, facts, old(expected))
      ensures ending == Continue && status != Failed ==> UpToDate() && analysed == session.value.delivered
      ensures ending == Continue && report.published == old(report).published ==> expected == old(expected)
      ensures ending == Finished ==> cancel.fired && report == old(report).(iterations := old(report).iterations + 1, cancelled := true)
      ensures ending == Aborted ==> fault.fired && report == old(report).(iterations := old(report).iterations + 1)
      ensures ending != Continue ==> head == old(head) && expected == old(expected) && analysed == old(analysed)
      ensures transportFailures == 0
      ensures ending == Continue ==> cancel.fired == old(cancel.fired) && fault.fired == old(fault.fired)
    {
      report := report.(iterations := report.iterations + 1);
      transportFailures := 0;
      match status {
        case Failed => report := report.(failures := report.failures + 1);
        case Unchanged => report := report.(noChange := report.noChange + 1);
        case Changed =>
          if expected == facts {
            report := report.(noChange := report.noChange + 1);
          } else {
            var refused := fault.Stopped();
            if refused { return Aborted; }
            var cancelled := cancel.Stopped();
            if cancelled {
              report := report.(cancelled := true);
              return Finished;
            }
            head, expected := facts, facts;
            report := report.(published := report.published + 1);
          }
          analysed := facts;
      }
      return Continue;
    }

    /** The report after a counted response. */
    static function CountedAs(before: Report, status: Status, facts: Option<Facts>, expected: Option<Facts>): Report {
      var counted := before.(iterations := before.iterations + 1);
      match status
      case Failed => counted.(failures := before.failures + 1)
      case Unchanged => counted.(noChange := before.noChange + 1)
      case Changed =>
        if expected == facts then counted.(noChange := before.noChange + 1) else counted.(published := before.published + 1)
    }

    /** A lost request dropped the worker; the third in a row ends the run. */
    method CountLoss() returns (ending: Ending)
      requires Valid() && session == None
      modifies this`report, this`transportFailures
      ensures ending == Continue ==> Valid()
      ensures report == old(report).(iterations := old(report).iterations + 1, failures := old(report).failures + 1)
      ensures ending == Continue || ending == Aborted
      ensures transportFailures == old(transportFailures) + 1
      ensures ending == Aborted <==> transportFailures >= MAX_TRANSPORT_FAILURES
    {
      report := report.(iterations := report.iterations + 1, failures := report.failures + 1);
      transportFailures := transportFailures + 1;
      return if transportFailures >= MAX_TRANSPORT_FAILURES then Aborted else Continue;
    }

    /** Rounds until the requested number is reached or one ends the run; surroundings tells what each
        round finds. A run succeeds unless it aborts, which takes a fault or a foreign head, or every
        round failed without a cancellation. After a successful run with a successful round the head
        holds the last analysed capture; without faults no request is ever lost, and if the last round
        could analyse, the head holds facts of the key captured there. */
    method Run(surroundings: seq<Surroundings>, rounds: Option<nat>, cancel: Control, fault: Control) returns (ok: bool)
      requires Valid() && report == FRESH_REPORT && transportFailures == 0 && head == expected
      requires cancel !in Repr && fault !in Repr && cancel != fault
      modifies Repr, cancel, fault
      ensures report.cancelled ==> cancel.fired
      ensures ok && report.published + report.noChange > 0 ==> UpToDate()
      ensures ok ==> report.cancelled || report.failures == 0 || report.published + report.noChange > 0
      ensures !ok && !fault.fired && Undisturbed(surroundings) ==>
        !report.cancelled && report.failures > 0 && report.published + report.noChange == 0
      ensures !fault.fired ==> transportFailures == 0
      ensures ok && !report.cancelled ==>
        report.iterations == if rounds.Some? && rounds.value < |surroundings| then rounds.value else |surroundings|
      ensures ok && !report.cancelled && !fault.fired && report.iterations > 0
              && surroundings[report.iterations - 1].attempt.Analyses? ==>
        UpToDate() && head.value.key == surroundings[report.iterations - 1].attempt.facts.key
    {
      var i := 0;
      while i < |surroundings| && (rounds.None? || report.iterations < rounds.value)
        invariant Valid() && fresh(Repr - old(Repr)) && cancel !in Repr && fault !in Repr
        invariant i <= |surroundings| && report.iterations == i && !report.cancelled && head == expected
        invariant rounds.Some? ==> i <= rounds.value
        invariant report.published + report.noChange > 0 ==> UpToDate()
        invariant !fault.fired ==> transportFailures == 0
        invariant i > 0 && !fault.fired && surroundings[i - 1].attempt.Analyses? ==>
          UpToDate() && head.value.key == surroundings[i - 1].attempt.facts.key
      {
        var ending := Round(surroundings[i], cancel, fault);
        if ending == Aborted { return false; }
        if ending == Finished { break; }
        i := i + 1;
      }
      return report.cancelled || report.failures == 0 || report.published + report.noChange > 0;
    }
  }

  /** Nobody else wrote the head. */
  ghost predicate Undisturbed(surroundings: seq<Surroundings>) {
    forall i :: 0 <= i < |surroundings| ==> surroundings[i].foreign.None?
  }
}
