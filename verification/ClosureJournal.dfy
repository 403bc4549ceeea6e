/** The durable journal of browser closures: one record per session, rewritten whole by one
    atomic write per operation, read again by every later operation and after every restart. */
module ClosureJournal {
  import opened Wrappers

  type SessionId = nat
  type Time = int

  datatype Epoch = Epoch(session: SessionId, lease: string, fencing: string)
  datatype Process = Process(host: nat, daemon: nat)
  datatype Launch = Launch(process: Process, id: nat, marker: string)

  datatype Method = LIVE_SESSION_TERMINATED | IDENTIFIED_PROCESS_SET_TERMINATED | LAUNCH_PREVENTED

  /** The audit of the writes of one browser launch, sealed together with its closure. */
  datatype WriteAudit = WriteAudit(launchId: nat, writes: seq<string>)
  datatype Closed = Closed(how: Method, completedAt: Time, audit: Option<WriteAudit>)

  datatype Evidence = Evidence(
    evidenceId: nat, recoveryId: nat, requestId: nat, epoch: Epoch, process: Process, how: Method,
    completedAt: Time)

  datatype Record = Record(
    epoch: Epoch, revokedAt: Option<Time>, launch: Option<Launch>, browser: Option<nat>,
    closed: Option<Closed>, evidence: seq<Evidence>)

  type Disk = map<SessionId, Record>

  datatype Recovery = Recovery(recoveryId: nat, requestId: nat, epoch: Epoch, expectedLaunch: Option<nat>)

  datatype Operation =
    | RecordLaunch(epoch: Epoch, process: Process, marker: string, launchId: nat)
    | PreventLaunch(epoch: Epoch, process: Process, launchId: nat)
    | Revoke(epoch: Epoch)
    | AttachProcess(epoch: Epoch, browser: nat)
    | RecordAbortedLaunch(epoch: Epoch, process: Process, marker: string, launchId: nat)
    | Complete(epoch: Epoch, process: Process, how: Method, audit: Option<WriteAudit>)
    | Prove(request: Recovery, process: Process)
  {
    function Target(): Epoch { if Prove? then request.epoch else epoch }
  }

  datatype Code = SESSION_LOST | SESSION_PERMIT_EXPIRED | CLOSURE_UNVERIFIED
  datatype Answer = Done | Launched(launch: Launch) | Proven(proof: Evidence) | Rejected(code: Code) | Died

  /** What an operation decides from the record it read: the record to write, if any, and what
      it answers once that is durable. */
  datatype Decision = Decision(write: Option<Record>, answer: Answer)

  function Refuse(code: Code): Decision { Decision(None, Rejected(code)) }

  function LaunchedRecord(epoch: Epoch, launch: Launch): Record
  {
    Record(epoch, None, Some(launch), None, None, [])
  }

  function PreventedRecord(epoch: Epoch, process: Process, launchId: nat, now: Time): Record
  {
    Record(epoch, Some(now), Some(Launch(process, launchId, "unlaunched")), None,
           Some(Closed(LAUNCH_PREVENTED, now, None)), [])
  }

  /** The proof already given to this request by this daemon. */
  function Previous(evidence: seq<Evidence>, requestId: nat, daemon: nat): (found: Option<Evidence>)
    ensures found.Some? ==> found.value in evidence && found.value.requestId == requestId
                            && found.value.process.daemon == daemon
    ensures found.None? ==> forall e :: e in evidence ==> e.requestId != requestId || e.process.daemon != daemon
  {
    if evidence == [] then None
    else if evidence[0].requestId == requestId && evidence[0].process.daemon == daemon then Some(evidence[0])
    else Previous(evidence[1..], requestId, daemon)
  }

  function NewProof(record: Record, request: Recovery, process: Process, id: nat): Evidence
    requires record.closed.Some?
  {
    Evidence(id, request.recoveryId, request.requestId, record.epoch, process, record.closed.value.how,
             record.closed.value.completedAt)
  }

  function DecideProof(record: Record, request: Recovery, process: Process, id: nat): Decision
    requires record.closed.Some?
  {
    var previous := Previous(record.evidence, request.requestId, process.daemon);
    if previous.Some? then
      if previous.value.recoveryId != request.recoveryId then Refuse(SESSION_LOST)
      else Decision(None, Proven(previous.value))
    else
      var proof := NewProof(record, request, process, id);
      Decision(Some(record.(evidence := record.evidence + [proof])), Proven(proof))
  }

  /** The decision of every operation, with its checks in the order they are made. `now` is the
      wall clock and `id` the fresh identity at hand. */
  function Decide(found: Option<Record>, op: Operation, now: Time, id: nat): Decision
  {
    match op
    case RecordLaunch(epoch, process, marker, launchId) =>
      if found.None? then
        var launch := Launch(process, launchId, marker);
        Decision(Some(LaunchedRecord(epoch, launch)), Launched(launch))
      else if found.value.epoch != epoch then Refuse(SESSION_LOST)
      else if found.value.revokedAt.Some? || found.value.closed.Some? then Refuse(SESSION_PERMIT_EXPIRED)
      else Refuse(CLOSURE_UNVERIFIED)
    case PreventLaunch(epoch, process, launchId) =>
      if found.Some? && found.value.epoch != epoch then Refuse(SESSION_LOST)
      else if found.Some? && found.value.launch.Some? then Refuse(CLOSURE_UNVERIFIED)
      else Decision(Some(PreventedRecord(epoch, process, launchId, now)), Done)
    case Revoke(epoch) =>
      var record := if found.Some? then found.value else Record(epoch, None, None, None, None, []);
      if record.epoch != epoch then Refuse(SESSION_LOST)
      else Decision(Some(if record.revokedAt.Some? then record else record.(revokedAt := Some(now))), Done)
    case AttachProcess(epoch, browser) =>
      if found.None? || found.value.launch.None? || found.value.closed.Some? then Refuse(SESSION_PERMIT_EXPIRED)
      else if found.value.epoch != epoch then Refuse(SESSION_LOST)
      else Decision(Some(found.value.(browser := Some(browser))), Done)
    case RecordAbortedLaunch(epoch, process, marker, launchId) =>
      if found.None? || found.value.revokedAt.None? || found.value.launch.Some? then Decision(None, Done)
      else if found.value.epoch != epoch then Refuse(SESSION_LOST)
      else Decision(Some(found.value.(launch := Some(Launch(process, launchId, marker)),
                                      closed := Some(Closed(IDENTIFIED_PROCESS_SET_TERMINATED, now, None)))), Done)
    case Complete(epoch, process, how, audit) =>
      if found.None? || found.value.launch.None? || found.value.launch.value.process.host != process.host
         || found.value.revokedAt.None? then Refuse(CLOSURE_UNVERIFIED)
      else if found.value.epoch != epoch then Refuse(SESSION_LOST)
      else if audit.Some? && (how != LIVE_SESSION_TERMINATED || audit.value.launchId != found.value.launch.value.id)
        then Refuse(CLOSURE_UNVERIFIED)
      else Decision(Some(if found.value.closed.Some? then found.value
                         else found.value.(closed := Some(Closed(how, now, audit)))), Done)
    case Prove(request, process) =>
      if found.None? || found.value.closed.None? || found.value.launch.None?
         || found.value.launch.value.process.host != process.host then Refuse(CLOSURE_UNVERIFIED)
      else if found.value.epoch != request.epoch then Refuse(SESSION_LOST)
      else if request.expectedLaunch.Some? && request.expectedLaunch.value != found.value.launch.value.id
        then Refuse(SESSION_LOST)
      else DecideProof(found.value, request, process, id)
  }

  function Lookup(disk: Disk, session: SessionId): Option<Record>
  {
    if session in disk then Some(disk[session]) else None
  }

  // ---------------------------------------------------------------------------------------
  // Runs over restarts

  /** Where the process dies relative to the one atomic write of an operation. */
  datatype Crash = Never | BeforeWrite | AfterWrite

  datatype Event = Event(op: Operation, now: Time, id: nat, crash: Crash)

  function Commit(disk: Disk, session: SessionId, decision: Decision, crash: Crash): (Disk, Answer)
  {
    if decision.write.None? then (disk, decision.answer)
    else if crash == BeforeWrite then (disk, Died)
    else (disk[session := decision.write.value], if crash == AfterWrite then Died else decision.answer)
  }

  function Step(disk: Disk, e: Event): (Disk, Answer)
  {
    var session := e.op.Target().session;
    Commit(disk, session, Decide(Lookup(disk, session), e.op, e.now, e.id), e.crash)
  }

  function Run(disk: Disk, events: seq<Event>): Disk
    decreases |events|
  {
    if events == [] then disk else Run(Step(disk, events[0]).0, events[1..])
  }

  /** What holds of every record: closed means launched and revoked; an audit belongs to the
      recorded launch; evidence exists only of a closed session, once per request and daemon, and
      all of it agrees with the closure, the epoch and the host. */
  ghost predicate Sound(r: Record)
  {
    && (r.closed.Some? ==> r.launch.Some? && r.revokedAt.Some?)
    && (r.launch.None? ==> r.browser.None?)
    && (r.closed.Some? && r.closed.value.audit.Some? ==>
          r.closed.value.how == LIVE_SESSION_TERMINATED && r.closed.value.audit.value.launchId == r.launch.value.id)
    && (r.evidence != [] ==> r.closed.Some?)
    && (forall e :: e in r.evidence ==> Testifies(r, e))
    && (forall i, j :: 0 <= i < j < |r.evidence| ==>
          r.evidence[i].requestId != r.evidence[j].requestId
          || r.evidence[i].process.daemon != r.evidence[j].process.daemon)
  }

  ghost predicate Testifies(r: Record, e: Evidence)
  {
    r.closed.Some? && r.launch.Some?
    && e.how == r.closed.value.how && e.completedAt == r.closed.value.completedAt
    && e.epoch == r.epoch && e.process.host == r.launch.value.process.host
  }

  ghost predicate Valid(disk: Disk)
  {
    forall s :: s in disk ==> disk[s].epoch.session == s && Sound(disk[s])
  }

  /** What no operation undoes. A launch that first appears after revocation is born closed. */
  ghost predicate Grows(r: Record, t: Record)
  {
    && t.epoch == r.epoch
    && (r.launch.Some? ==> t.launch == r.launch)
    && (r.revokedAt.Some? ==> t.revokedAt.Some?)
    && (r.revokedAt.Some? && r.launch.Some? ==> t.revokedAt == r.revokedAt)
    && (r.closed.Some? ==> t.closed == r.closed && t.browser == r.browser)
    && r.evidence <= t.evidence
    && (r.revokedAt.Some? && r.launch.None? && t.launch.Some? ==> t.closed.Some? && t.browser == r.browser)
  }

  ghost predicate Advances(disk: Disk, next: Disk)
  {
    forall s :: s in disk ==> s in next && Grows(disk[s], next[s])
  }

  lemma DecisionIsSound(found: Option<Record>, op: Operation, now: Time, id: nat)
    requires found.Some? ==> Sound(found.value) && found.value.epoch.session == op.Target().session
    ensures var write := Decide(found, op, now, id).write;
      write.Some? ==> Sound(write.value) && write.value.epoch.session == op.Target().session
                      && (found.Some? ==> Grows(found.value, write.value))
  {
  }

  lemma GrowsReflexive(r: Record)
    ensures Grows(r, r)
  {
  }

  /** One operation, wherever it dies, keeps every record sound and undoes nothing. */
  lemma StepAdvances(disk: Disk, e: Event)
    requires Valid(disk)
    ensures Valid(Step(disk, e).0) && Advances(disk, Step(disk, e).0)
  {
    hide Decide, Sound, Grows;
    DecisionIsSound(Lookup(disk, e.op.Target().session), e.op, e.now, e.id);
    forall s | s in disk ensures Grows(disk[s], disk[s]) {
      GrowsReflexive(disk[s]);
    }
  }

  /** Over any run with crashes and restarts: one epoch and at most one launch identity for a
      session, closure written once, evidence only appended, revocation absorbing. */
  lemma {:induction false} RunAdvances(disk: Disk, events: seq<Event>)
    requires Valid(disk)
    ensures Valid(Run(disk, events)) && Advances(disk, Run(disk, events))
    decreases |events|
  {
    if events != [] {
      var next := Step(disk, events[0]).0;
      StepAdvances(disk, events[0]);
      RunAdvances(next, events[1..]);
    }
  }

  /** A record that one operation leaves has only grown at the end of any run after it. */
  lemma RecordAfterRun(disk: Disk, first: Event, events: seq<Event>, session: SessionId)
    requires Valid(disk) && session in Step(disk, first).0
    ensures var next := Step(disk, first).0;
      var end := Run(next, events);
      Valid(end) && session in end && Sound(end[session]) && Grows(next[session], end[session])
  {
    hide Decide, Sound, Grows;
    StepAdvances(disk, first);
    RunAdvances(Step(disk, first).0, events);
  }

  /** A launch may start a live browser only for a session without a record, so after one answer
      with a launch, or after a revocation, no later attempt for the session answers with one. */
  lemma LaunchesAtMostOnce(disk: Disk, first: Event, events: seq<Event>, later: Event)
    requires Valid(disk)
    requires first.op.RecordLaunch? || first.op.Revoke? || first.op.PreventLaunch?
    requires Step(disk, first).1.Launched? || Step(disk, first).1.Done?
    requires later.op.RecordLaunch? && later.op.epoch.session == first.op.epoch.session
    ensures var end := Run(Step(disk, first).0, events);
      Step(end, later).1.Rejected? && Step(end, later).0 == end
  {
    RecordAfterRun(disk, first, events, first.op.epoch.session);
    hide Run, Sound, Valid;
  }

  /** A write that became durable although the process died before answering still bars the
      session from launching. */
  lemma UnansweredLaunchStillCounts(disk: Disk, first: Event, events: seq<Event>, later: Event)
    requires Valid(disk)
    requires first.op.RecordLaunch? && first.op.epoch.session !in disk && first.crash != BeforeWrite
    requires later.op.RecordLaunch? && later.op.epoch.session == first.op.epoch.session
    ensures var end := Run(Step(disk, first).0, events);
      first.op.epoch.session in end
      && Step(end, later).1 == (if later.op.epoch != first.op.epoch then Rejected(SESSION_LOST)
                                else if end[later.op.epoch.session].revokedAt.Some? then Rejected(SESSION_PERMIT_EXPIRED)
                                else Rejected(CLOSURE_UNVERIFIED))
  {
    RecordAfterRun(disk, first, events, first.op.epoch.session);
    hide Run, Sound, Valid;
  }

  lemma ProofIsRecorded(disk: Disk, first: Event)
    requires Valid(disk) && first.op.Prove? && Step(disk, first).1.Proven?
    ensures var next := Step(disk, first).0;
      var session := first.op.request.epoch.session;
      var proof := Step(disk, first).1.proof;
      && session in next && proof in next[session].evidence && next[session].epoch == first.op.request.epoch
      && proof.requestId == first.op.request.requestId && proof.recoveryId == first.op.request.recoveryId
      && proof.process.daemon == first.op.process.daemon
      && next[session].launch.Some? && next[session].launch.value.process.host == first.op.process.host
      && (first.op.request.expectedLaunch.Some? ==>
            first.op.request.expectedLaunch.value == next[session].launch.value.id)
  {
  }

  /** The proof answered to a request is in the record for good, and the record testifies to it. */
  lemma ProofIsKept(disk: Disk, first: Event, events: seq<Event>)
    requires Valid(disk) && first.op.Prove? && Step(disk, first).1.Proven?
    ensures var end := Run(Step(disk, first).0, events);
      var session := first.op.request.epoch.session;
      var proof := Step(disk, first).1.proof;
      && session in end && Sound(end[session]) && proof in end[session].evidence
      && Testifies(end[session], proof) && end[session].epoch == first.op.request.epoch
      && proof.requestId == first.op.request.requestId && proof.recoveryId == first.op.request.recoveryId
      && proof.process.daemon == first.op.process.daemon
      && end[session].launch.value.process.host == first.op.process.host
      && (first.op.request.expectedLaunch.Some? ==>
            first.op.request.expectedLaunch.value == end[session].launch.value.id)
  {
    var session := first.op.request.epoch.session;
    ProofIsRecorded(disk, first);
    RecordAfterRun(disk, first, events, session);
    hide Step, Run, Valid;
    var end := Run(Step(disk, first).0, events);
    assert Testifies(end[session], Step(disk, first).1.proof);
  }

  /** A challenge is replay-proof: repeated by the same daemon after any run it gets the very same
      proof and writes nothing, and for another recovery it is refused. */
  lemma ProofIsReplayed(disk: Disk, first: Event, events: seq<Event>, again: Event)
    requires Valid(disk) && first.op.Prove? && Step(disk, first).1.Proven?
    requires again.op.Prove? && again.op.process == first.op.process
    requires again.op.request.(recoveryId := first.op.request.recoveryId) == first.op.request
    ensures var end := Run(Step(disk, first).0, events);
      Step(end, again) == (end, if again.op.request.recoveryId == first.op.request.recoveryId
                                then Step(disk, first).1 else Rejected(SESSION_LOST))
  {
    ProofIsKept(disk, first, events);
    var record := Run(Step(disk, first).0, events)[first.op.request.epoch.session];
    hide Run, Valid;
  }

  /** Any two proofs given for a session, by whatever daemons and however far apart, name the same
      method, the same closing time, the same epoch and the same host. */
  lemma ProofsAgree(disk: Disk, first: Event, events: seq<Event>, later: Event)
    requires Valid(disk) && first.op.Prove? && Step(disk, first).1.Proven?
    requires var end := Run(Step(disk, first).0, events);
      later.op.Prove? && Step(end, later).1.Proven?
    requires later.op.request.epoch.session == first.op.request.epoch.session
    ensures var p := Step(disk, first).1.proof;
      var q := Step(Run(Step(disk, first).0, events), later).1.proof;
      p.how == q.how && p.completedAt == q.completedAt && p.epoch == q.epoch && p.process.host == q.process.host
  {
    hide Decide, Commit, Sound;
    var end := Run(Step(disk, first).0, events);
    var session := first.op.request.epoch.session;
    ProofIsKept(disk, first, events);
    ProofIsRecorded(disk, first);
    RecordAfterRun(disk, first, events, session);
    ProofIsKept(end, later, []);
    StepAdvances(end, later);
    assert Grows(end[session], Step(end, later).0[session]);
  }

  /** The moment of revocation is fixed for good with one exception: it moves exactly when a
      revoked but never launched session has its launch prevented at another moment. */
  lemma RevocationMovesExactlyWhen(disk: Disk, e: Event)
    requires Valid(disk)
    requires var session := e.op.Target().session; session in disk && disk[session].revokedAt.Some?
    ensures var session := e.op.Target().session;
      Step(disk, e).0[session].revokedAt != disk[session].revokedAt
      <==> e.op.PreventLaunch? && e.crash != BeforeWrite && disk[session].launch.None?
           && e.op.epoch == disk[session].epoch && disk[session].revokedAt != Some(e.now)
  {
  }

  // ---------------------------------------------------------------------------------------
  // What each operation asks for

  /** The session has a record of this epoch. */
  predicate InEpoch(disk: Disk, epoch: Epoch) { epoch.session in disk && disk[epoch.session].epoch == epoch }

  predicate Revoked(disk: Disk, session: SessionId) { session in disk && disk[session].revokedAt.Some? }

  predicate HasLaunch(disk: Disk, session: SessionId) { session in disk && disk[session].launch.Some? }

  predicate IsClosed(disk: Disk, session: SessionId) { session in disk && disk[session].closed.Some? }

  predicate LaunchedOn(disk: Disk, session: SessionId, host: nat)
  {
    HasLaunch(disk, session) && disk[session].launch.value.process.host == host
  }

  predicate LaunchedAs(disk: Disk, session: SessionId, id: nat)
  {
    HasLaunch(disk, session) && disk[session].launch.value.id == id
  }

  /** The daemon has already given a proof to this request, for another recovery. */
  predicate Reused(disk: Disk, request: Recovery, daemon: nat)
  {
    request.epoch.session in disk
    && exists e :: e in disk[request.epoch.session].evidence && e.requestId == request.requestId
                   && e.process.daemon == daemon && e.recoveryId != request.recoveryId
  }

  /** Exactly when an operation that does not die is carried out. */
  lemma CarriedOutExactlyWhen(disk: Disk, e: Event)
    requires Valid(disk) && e.crash == Never
    ensures !Step(disk, e).1.Rejected? <==>
      var session := e.op.Target().session;
      match e.op
      case RecordLaunch(_, _, _, _) => session !in disk
      case PreventLaunch(epoch, _, _) => session !in disk || (InEpoch(disk, epoch) && !HasLaunch(disk, session))
      case Revoke(epoch) => session !in disk || InEpoch(disk, epoch)
      case AttachProcess(epoch, _) => InEpoch(disk, epoch) && HasLaunch(disk, session) && !IsClosed(disk, session)
      case RecordAbortedLaunch(epoch, _, _, _) =>
        !Revoked(disk, session) || HasLaunch(disk, session) || InEpoch(disk, epoch)
      case Complete(epoch, process, how, audit) =>
        InEpoch(disk, epoch) && LaunchedOn(disk, session, process.host) && Revoked(disk, session)
        && (audit.Some? ==> how == LIVE_SESSION_TERMINATED && LaunchedAs(disk, session, audit.value.launchId))
      case Prove(request, process) =>
        InEpoch(disk, request.epoch) && LaunchedOn(disk, session, process.host) && IsClosed(disk, session)
        && (request.expectedLaunch.Some? ==> LaunchedAs(disk, session, request.expectedLaunch.value))
        && !Reused(disk, request, process.daemon)
    ensures !Step(disk, e).1.Rejected? ==>
      match e.op
      case RecordLaunch(epoch, process, marker, launchId) => Step(disk, e).1 == Launched(Launch(process, launchId, marker))
      case Prove(_, _) => Step(disk, e).1.Proven?
      case _ => Step(disk, e).1 == Done
  {
    hide NewProof, LaunchedRecord, PreventedRecord;
    if e.op.Prove? && e.op.request.epoch.session in disk {
      PreviousExactlyWhen(disk[e.op.request.epoch.session].evidence, e.op.request, e.op.process.daemon);
    }
  }

  lemma PreviousExactlyWhen(evidence: seq<Evidence>, request: Recovery, daemon: nat)
    requires forall i, j :: 0 <= i < j < |evidence| ==>
               evidence[i].requestId != evidence[j].requestId || evidence[i].process.daemon != evidence[j].process.daemon
    ensures var found := Previous(evidence, request.requestId, daemon);
      (found.Some? && found.value.recoveryId != request.recoveryId)
      <==> exists e :: e in evidence && e.requestId == request.requestId && e.process.daemon == daemon
                       && e.recoveryId != request.recoveryId
  {
  }

  /** Of the reasons for a refusal a foreign epoch, launch or recovery comes second for operations on
      a launched session, and first for the others. */
  lemma RefusedBecause(disk: Disk, e: Event)
    requires Valid(disk) && e.crash == Never && Step(disk, e).1.Rejected?
    ensures var session, code := e.op.Target().session, Step(disk, e).1.code;
      match e.op
      case RecordLaunch(epoch, _, _, _) =>
        code == if !InEpoch(disk, epoch) then SESSION_LOST
                else if Revoked(disk, session) then SESSION_PERMIT_EXPIRED else CLOSURE_UNVERIFIED
      case PreventLaunch(epoch, _, _) => code == if !InEpoch(disk, epoch) then SESSION_LOST else CLOSURE_UNVERIFIED
      case Revoke(_) => code == SESSION_LOST
      case AttachProcess(_, _) =>
        code == if HasLaunch(disk, session) && !IsClosed(disk, session) then SESSION_LOST else SESSION_PERMIT_EXPIRED
      case RecordAbortedLaunch(_, _, _, _) => code == SESSION_LOST
      case Complete(epoch, process, _, _) =>
        code == if LaunchedOn(disk, session, process.host) && Revoked(disk, session) && !InEpoch(disk, epoch)
                then SESSION_LOST else CLOSURE_UNVERIFIED
      case Prove(_, process) =>
        code == if LaunchedOn(disk, session, process.host) && IsClosed(disk, session)
                then SESSION_LOST else CLOSURE_UNVERIFIED
    ensures Step(disk, e).0 == disk
  {
    hide NewProof, LaunchedRecord, PreventedRecord;
  }

  /** An operation that dies before its write leaves the disk as it was; one that dies after it leaves
      what it would have left. */
  lemma DyingIsAllOrNothing(disk: Disk, e: Event)
    ensures Step(disk, e).0 == if e.crash == BeforeWrite then disk else Step(disk, e.(crash := Never)).0
    ensures Step(disk, e).1 == Died || Step(disk, e) == Step(disk, e.(crash := Never))
    ensures e.crash != Never && Step(disk, e.(crash := Never)).0 != disk ==> Step(disk, e).1 == Died
  {
  }

  // ---------------------------------------------------------------------------------------
  // What a record says was done

  /** The closure that an operation at this time writes. */
  function ClosureOf(op: Operation, now: Time): Option<Closed>
  {
    match op
    case Complete(_, _, how, audit) => Some(Closed(how, now, audit))
    case PreventLaunch(_, _, _) => Some(Closed(LAUNCH_PREVENTED, now, None))
    case RecordAbortedLaunch(_, _, _, _) => Some(Closed(IDENTIFIED_PROCESS_SET_TERMINATED, now, None))
    case _ => None
  }

  /** The operation closes the session, if it is carried out: it is not closed yet, and an aborted
      launch is one of a revoked session that was never launched. */
  predicate WouldClose(disk: Disk, op: Operation)
  {
    var session := op.Target().session;
    !IsClosed(disk, session)
    && (op.Complete? || op.PreventLaunch? || (op.RecordAbortedLaunch? && Revoked(disk, session) && !HasLaunch(disk, session)))
  }

  /** A closure is recorded with its method, time and audit, for good: every record of the session
      after any run has it, and every proof names its method and time. */
  lemma ClosureIsKept(disk: Disk, first: Event, events: seq<Event>, later: Event)
    requires Valid(disk) && first.crash != BeforeWrite && WouldClose(disk, first.op)
    requires !Step(disk, first.(crash := Never)).1.Rejected?
    ensures var end := Run(Step(disk, first).0, events);
      var session := first.op.Target().session;
      && InEpoch(end, first.op.Target()) && end[session].closed == ClosureOf(first.op, first.now)
      && (later.op.Prove? && later.op.request.epoch.session == session && Step(end, later).1.Proven? ==>
            && Step(end, later).1.proof.how == ClosureOf(first.op, first.now).value.how
            && Step(end, later).1.proof.completedAt == first.now)
  {
    var session := first.op.Target().session;
    ClosureIsWritten(disk, first);
    RecordAfterRun(disk, first, events, session);
    var end := Run(Step(disk, first).0, events);
    hide Run, Decide, Commit, Sound, Valid;
    if later.op.Prove? && later.op.request.epoch.session == session && Step(end, later).1.Proven? {
      ProofIsRecorded(end, later);
      StepAdvances(end, later);
      NewestTestifies(end, later);
    }
  }

  /** What an operation that is carried out leaves in the record of its session, even if it dies after
      its write. */
  lemma OperationIsDurable(disk: Disk, first: Event)
    requires Valid(disk) && first.crash != BeforeWrite && !Step(disk, first.(crash := Never)).1.Rejected?
    ensures var session := first.op.Target().session;
      var next := Step(disk, first).0;
      match first.op
      case RecordLaunch(epoch, process, marker, launchId) =>
        InEpoch(next, epoch) && next[session].launch == Some(Launch(process, launchId, marker))
        && !Revoked(next, session) && !IsClosed(next, session)
      case PreventLaunch(epoch, process, launchId) =>
        InEpoch(next, epoch) && next[session].launch == Some(Launch(process, launchId, "unlaunched"))
        && next[session].revokedAt == Some(first.now)
      case Revoke(epoch) =>
        InEpoch(next, epoch)
        && next[session].revokedAt == if Revoked(disk, session) then disk[session].revokedAt else Some(first.now)
      case AttachProcess(epoch, browser) => InEpoch(next, epoch) && next[session].browser == Some(browser)
      case RecordAbortedLaunch(epoch, process, marker, launchId) =>
        if Revoked(disk, session) && !HasLaunch(disk, session)
        then InEpoch(next, epoch) && next[session].launch == Some(Launch(process, launchId, marker))
        else next == disk
      case Complete(epoch, _, _, _) => InEpoch(next, epoch) && IsClosed(next, session)
      case Prove(request, _) => InEpoch(next, request.epoch)
  {
    hide NewProof;
  }

  /** A launch, once recorded, is the launch of its session for good, and a revocation stays one. */
  lemma LaunchAndRevocationAreKept(disk: Disk, first: Event, events: seq<Event>)
    requires Valid(disk) && first.crash != BeforeWrite && !Step(disk, first.(crash := Never)).1.Rejected?
    ensures var session := first.op.Target().session;
      var next, end := Step(disk, first).0, Run(Step(disk, first).0, events);
      && (HasLaunch(next, session) ==> HasLaunch(end, session) && end[session].launch == next[session].launch)
      && (first.op.Revoke? || first.op.PreventLaunch? ==> Revoked(end, session))
  {
    OperationIsDurable(disk, first);
    var session := first.op.Target().session;
    hide Decide, Run, Commit;
    if session in Step(disk, first).0 {
      RecordAfterRun(disk, first, events, session);
    }
  }

  lemma ClosureIsWritten(disk: Disk, first: Event)
    requires Valid(disk) && first.crash != BeforeWrite && WouldClose(disk, first.op)
    requires !Step(disk, first.(crash := Never)).1.Rejected?
    ensures InEpoch(Step(disk, first).0, first.op.Target())
    ensures Step(disk, first).0[first.op.Target().session].closed == ClosureOf(first.op, first.now)
  {
  }

  lemma NewestTestifies(disk: Disk, e: Event)
    requires Valid(disk) && e.op.Prove? && Step(disk, e).1.Proven?
    requires var session := e.op.request.epoch.session;
      session in disk && session in Step(disk, e).0 && Valid(Step(disk, e).0) && Grows(disk[session], Step(disk, e).0[session])
      && disk[session].closed.Some? && Step(disk, e).1.proof in Step(disk, e).0[session].evidence
    ensures Step(disk, e).1.proof.how == disk[e.op.request.epoch.session].closed.value.how
    ensures Step(disk, e).1.proof.completedAt == disk[e.op.request.epoch.session].closed.value.completedAt
  {
    hide Decide, Commit;
  }

  /** The disk after the first `n` events from an empty one. */
  function After(events: seq<Event>, n: nat): Disk
    requires n <= |events|
  {
    if n == 0 then map[] else Step(After(events, n - 1), events[n - 1]).0
  }

  /** What the k-th event has written into its session's record. */
  ghost predicate Wrote(events: seq<Event>, k: nat, epoch: Epoch)
    requires k < |events|
  {
    events[k].crash != BeforeWrite && events[k].op.Target() == epoch
  }

  ghost predicate LaunchCause(events: seq<Event>, k: nat, epoch: Epoch, launch: Launch)
    requires k < |events|
  {
    Wrote(events, k, epoch)
    && match events[k].op
       case RecordLaunch(_, process, marker, launchId) =>
         launch == Launch(process, launchId, marker) && epoch.session !in After(events, k)
       case PreventLaunch(_, process, launchId) =>
         launch == Launch(process, launchId, "unlaunched") && !HasLaunch(After(events, k), epoch.session)
       case RecordAbortedLaunch(_, process, marker, launchId) =>
         launch == Launch(process, launchId, marker) && Revoked(After(events, k), epoch.session)
         && !HasLaunch(After(events, k), epoch.session)
       case _ => false
  }

  ghost predicate RevocationCause(events: seq<Event>, k: nat, epoch: Epoch, at: Time)
    requires k < |events|
  {
    Wrote(events, k, epoch) && events[k].now == at && (events[k].op.Revoke? || events[k].op.PreventLaunch?)
  }

  ghost predicate ClosureCause(events: seq<Event>, k: nat, epoch: Epoch, closed: Closed)
    requires k < |events|
  {
    Wrote(events, k, epoch) && WouldClose(After(events, k), events[k].op) && ClosureOf(events[k].op, events[k].now) == Some(closed)
    && (events[k].op.Complete? ==>
          Revoked(After(events, k), epoch.session) && LaunchedOn(After(events, k), epoch.session, events[k].op.process.host))
  }

  ghost predicate BrowserCause(events: seq<Event>, k: nat, epoch: Epoch, browser: nat)
    requires k < |events|
  {
    Wrote(events, k, epoch) && events[k].op.AttachProcess? && events[k].op.browser == browser
    && HasLaunch(After(events, k), epoch.session) && !IsClosed(After(events, k), epoch.session)
  }

  ghost predicate ProofCause(events: seq<Event>, k: nat, epoch: Epoch, proof: Evidence)
    requires k < |events|
  {
    Wrote(events, k, epoch) && events[k].op.Prove?
    && var request := events[k].op.request;
    && proof.evidenceId == events[k].id && proof.recoveryId == request.recoveryId && proof.requestId == request.requestId
    && proof.epoch == request.epoch && proof.process == events[k].op.process
    && IsClosed(After(events, k), epoch.session) && LaunchedOn(After(events, k), epoch.session, proof.process.host)
    && (request.expectedLaunch.Some? ==> LaunchedAs(After(events, k), epoch.session, request.expectedLaunch.value))
  }

  /** Everything a record says was written by an operation of its own epoch that was entitled to. */
  ghost predicate Caused(events: seq<Event>, n: nat, r: Record)
    requires n <= |events|
  {
    && (r.launch.Some? ==> exists k: nat :: k < n && LaunchCause(events, k, r.epoch, r.launch.value))
    && (r.revokedAt.Some? ==> exists k: nat :: k < n && RevocationCause(events, k, r.epoch, r.revokedAt.value))
    && (r.browser.Some? ==> exists k: nat :: k < n && BrowserCause(events, k, r.epoch, r.browser.value))
    && (r.closed.Some? ==> exists k: nat :: k < n && ClosureCause(events, k, r.epoch, r.closed.value))
    && (forall e :: e in r.evidence ==> exists k: nat :: k < n && ProofCause(events, k, r.epoch, e))
  }

  /** Over any run from an empty disk, whatever dies: launch, revocation, attached process, closure and
      proofs of every record have been written by operations of its epoch. */
  lemma {:induction false} RecordsAreCaused(events: seq<Event>, n: nat, session: SessionId)
    requires n <= |events| && session in After(events, n)
    ensures Caused(events, n, After(events, n)[session])
  {
    hide Caused, Step;
    if n > 0 {
      var before, e := After(events, n - 1), events[n - 1];
      AfterIsValid(events, n - 1);
      if session in before {
        RecordsAreCaused(events, n - 1, session);
        CausedLater(events, n - 1, before[session]);
      }
      if session == e.op.Target().session {
        WrittenIsCaused(events, n - 1);
      } else {
        OthersUntouched(before, e, session);
      }
    }
  }

  lemma CausedLater(events: seq<Event>, n: nat, r: Record)
    requires n < |events| && Caused(events, n, r)
    ensures Caused(events, n + 1, r)
  {
    hide LaunchCause, RevocationCause, BrowserCause, ClosureCause, ProofCause;
  }

  lemma OthersUntouched(disk: Disk, e: Event, session: SessionId)
    requires session != e.op.Target().session && session in Step(disk, e).0
    ensures session in disk && Step(disk, e).0[session] == disk[session]
  {
    hide Decide;
  }

  lemma {:induction false} AfterIsValid(events: seq<Event>, n: nat)
    requires n <= |events|
    ensures Valid(After(events, n))
  {
    hide Step;
    if n > 0 {
      AfterIsValid(events, n - 1);
      StepAdvances(After(events, n - 1), events[n - 1]);
    } else {
      NothingIsValid();
    }
  }

  lemma NothingIsValid()
    ensures Valid(map[])
  {
  }

  /** The record that one event leaves: what is new in it that event wrote. */
  lemma WrittenIsCaused(events: seq<Event>, n: nat)
    requires n < |events| && Valid(After(events, n))
    requires var session := events[n].op.Target().session;
      session in Step(After(events, n), events[n]).0
      && (session in After(events, n) ==> Caused(events, n + 1, After(events, n)[session]))
    ensures Caused(events, n + 1, Step(After(events, n), events[n]).0[events[n].op.Target().session])
  {
    var disk, e := After(events, n), events[n];
    var session := e.op.Target().session;
    var r := Step(disk, e).0[session];
    WrittenLaunchIsCaused(events, n);
    WrittenTimesAreCaused(events, n);
    WrittenProofsAreCaused(events, n);
    if session in disk {
      StepAdvances(disk, e);
      assert Grows(disk[session], r);
    }
    hide Step, After, Valid, LaunchCause, RevocationCause, BrowserCause, ClosureCause, ProofCause, Grows;
  }

  lemma WrittenLaunchIsCaused(events: seq<Event>, n: nat)
    requires n < |events| && Valid(After(events, n)) && events[n].op.Target().session in Step(After(events, n), events[n]).0
    ensures var session := events[n].op.Target().session;
      var r := Step(After(events, n), events[n]).0[session];
      && (session in After(events, n) ==> r.epoch == After(events, n)[session].epoch)
      && (r.launch.Some? ==>
            (session in After(events, n) && After(events, n)[session].launch == r.launch) || LaunchCause(events, n, r.epoch, r.launch.value))
      && (r.browser.Some? ==>
            (session in After(events, n) && After(events, n)[session].browser == r.browser) || BrowserCause(events, n, r.epoch, r.browser.value))
  {
    hide After, Previous;
  }

  lemma WrittenTimesAreCaused(events: seq<Event>, n: nat)
    requires n < |events| && Valid(After(events, n)) && events[n].op.Target().session in Step(After(events, n), events[n]).0
    ensures var session := events[n].op.Target().session;
      var r := Step(After(events, n), events[n]).0[session];
      && (r.revokedAt.Some? ==>
            (session in After(events, n) && After(events, n)[session].revokedAt == r.revokedAt)
            || RevocationCause(events, n, r.epoch, r.revokedAt.value))
      && (r.closed.Some? ==>
            (session in After(events, n) && After(events, n)[session].closed == r.closed)
            || ClosureCause(events, n, r.epoch, r.closed.value))
  {
    hide After, Previous;
  }

  lemma WrittenProofsAreCaused(events: seq<Event>, n: nat)
    requires n < |events| && Valid(After(events, n)) && events[n].op.Target().session in Step(After(events, n), events[n]).0
    ensures var session := events[n].op.Target().session;
      var r := Step(After(events, n), events[n]).0[session];
      forall p :: p in r.evidence ==>
        (session in After(events, n) && p in After(events, n)[session].evidence) || ProofCause(events, n, r.epoch, p)
  {
    hide After, Previous;
  }

  // ---------------------------------------------------------------------------------------
  // The journal itself

  class SessionClosureJournal {
    var disk: Disk

    constructor (found: Disk)
      ensures disk == found
    {
      disk := found;
    }

    /** One atomic durable write, or none when the process dies first. */
    method DurableWrite(session: SessionId, record: Record, answer: Answer, crash: Crash) returns (given: Answer)
      modifies this
      ensures (disk, given) == Commit(old(disk), session, Decision(Some(record), answer), crash)
    {
      if crash == BeforeWrite {
        return Died;
      }
      disk := disk[session := record];
      given := if crash == AfterWrite then Died else answer;
    }

    method RecordLaunch(epoch: Epoch, process: Process, marker: string, launchId: nat, now: Time, id: nat, crash: Crash)
      returns (answer: Answer)
      modifies this
      ensures (disk, answer)
           == Step(old(disk), Event(Operation.RecordLaunch(epoch, process, marker, launchId), now, id, crash))
    {
      if epoch.session in disk {
        var existing := disk[epoch.session];
        if existing.epoch != epoch {
          return Rejected(SESSION_LOST);
        }
        if existing.revokedAt.Some? || existing.closed.Some? {
          return Rejected(SESSION_PERMIT_EXPIRED);
        }
        return Rejected(CLOSURE_UNVERIFIED);
      }
      var launch := Launch(process, launchId, marker);
      answer := DurableWrite(epoch.session, LaunchedRecord(epoch, launch), Launched(launch), crash);
    }

    method PreventLaunch(epoch: Epoch, process: Process, launchId: nat, now: Time, id: nat, crash: Crash)
      returns (answer: Answer)
      modifies this
      ensures (disk, answer)
           == Step(old(disk), Event(Operation.PreventLaunch(epoch, process, launchId), now, id, crash))
    {
      if epoch.session in disk {
        var existing := disk[epoch.session];
        if existing.epoch != epoch {
          return Rejected(SESSION_LOST);
        }
        if existing.launch.Some? {
          return Rejected(CLOSURE_UNVERIFIED);
        }
      }
      answer := DurableWrite(epoch.session, PreventedRecord(epoch, process, launchId, now), Done, crash);
    }

    method Revoke(epoch: Epoch, now: Time, id: nat, crash: Crash) returns (answer: Answer)
      modifies this
      ensures (disk, answer) == Step(old(disk), Event(Operation.Revoke(epoch), now, id, crash))
    {
      var record := Record(epoch, None, None, None, None, []);
      if epoch.session in disk {
        record := disk[epoch.session];
      }
      if record.epoch != epoch {
        return Rejected(SESSION_LOST);
      }
      if record.revokedAt.None? {
        record := record.(revokedAt := Some(now));
      }
      answer := DurableWrite(epoch.session, record, Done, crash);
    }

    method AttachProcess(epoch: Epoch, browser: nat, now: Time, id: nat, crash: Crash) returns (answer: Answer)
      modifies this
      ensures (disk, answer) == Step(old(disk), Event(Operation.AttachProcess(epoch, browser), now, id, crash))
    {
      if epoch.session !in disk || disk[epoch.session].launch.None? || disk[epoch.session].closed.Some? {
        return Rejected(SESSION_PERMIT_EXPIRED);
      }
      var record := disk[epoch.session];
      if record.epoch != epoch {
        return Rejected(SESSION_LOST);
      }
      record := record.(browser := Some(browser));
      answer := DurableWrite(epoch.session, record, Done, crash);
    }

    method RecordAbortedLaunch(epoch: Epoch, process: Process, marker: string, launchId: nat, now: Time, id: nat,
                               crash: Crash)
      returns (answer: Answer)
      modifies this
      ensures (disk, answer)
           == Step(old(disk), Event(Operation.RecordAbortedLaunch(epoch, process, marker, launchId), now, id, crash))
    {
      if epoch.session !in disk || disk[epoch.session].revokedAt.None? || disk[epoch.session].launch.Some? {
        return Done;
      }
      var record := disk[epoch.session];
      if record.epoch != epoch {
        return Rejected(SESSION_LOST);
      }
      record := record.(launch := Some(Launch(process, launchId, marker)));
      record := record.(closed := Some(Closed(IDENTIFIED_PROCESS_SET_TERMINATED, now, None)));
      answer := DurableWrite(epoch.session, record, Done, crash);
    }

    method Complete(epoch: Epoch, process: Process, how: Method, audit: Option<WriteAudit>, now: Time, id: nat,
                    crash: Crash)
      returns (answer: Answer)
      modifies this
      ensures (disk, answer)
           == Step(old(disk), Event(Operation.Complete(epoch, process, how, audit), now, id, crash))
    {
      if epoch.session !in disk || disk[epoch.session].launch.None?
         || disk[epoch.session].launch.value.process.host != process.host
         || disk[epoch.session].revokedAt.None? {
        return Rejected(CLOSURE_UNVERIFIED);
      }
      var record := disk[epoch.session];
      if record.epoch != epoch {
        return Rejected(SESSION_LOST);
      }
      if audit.Some? && (how != LIVE_SESSION_TERMINATED || audit.value.launchId != record.launch.value.id) {
        return Rejected(CLOSURE_UNVERIFIED);
      }
      if record.closed.None? {
        record := record.(closed := Some(Closed(how, now, audit)));
      }
      answer := DurableWrite(epoch.session, record, Done, crash);
    }

    method Prove(request: Recovery, process: Process, now: Time, id: nat, crash: Crash) returns (answer: Answer)
      modifies this
      ensures (disk, answer) == Step(old(disk), Event(Operation.Prove(request, process), now, id, crash))
    {
      var session := request.epoch.session;
      if session !in disk || disk[session].closed.None? || disk[session].launch.None?
         || disk[session].launch.value.process.host != process.host {
        return Rejected(CLOSURE_UNVERIFIED);
      }
      var record := disk[session];
      if record.epoch != request.epoch {
        return Rejected(SESSION_LOST);
      }
      if request.expectedLaunch.Some? && request.expectedLaunch.value != record.launch.value.id {
        return Rejected(SESSION_LOST);
      }
      var previous := Previous(record.evidence, request.requestId, process.daemon);
      if previous.Some? {
        if previous.value.recoveryId != request.recoveryId {
          return Rejected(SESSION_LOST);
        }
        return Proven(previous.value);
      }
      var proof := NewProof(record, request, process, id);
      record := record.(evidence := record.evidence + [proof]);
      answer := DurableWrite(session, record, Proven(proof), crash);
    }
  }
}
