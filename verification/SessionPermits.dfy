/** The browser runtime's register of session permits: which owner may act on a session, until
    when, and with which executor fencing token. */
module SessionPermits {
  import opened Wrappers
  import Numerals

  type SessionId = nat
  type TaskId = nat

  /** Fencing tokens are decimal strings: equality compares the text, order the number. */
  type Token = string

  function Number(token: Token): nat
  {
    if token == [] then 0
    else
      var digit := token[|token| - 1] as int - '0' as int;
      10 * Number(token[..|token| - 1]) + if 0 <= digit <= 9 then digit else 0
  }

  /** A token is the numeral of its number. */
  lemma {:induction false} NumberOfDecimal(n: nat)
    ensures Number(Numerals.Decimal(n)) == n
  {
    var s := Numerals.Decimal(n);
    if n < 10 {
      assert s[..0] == [];
    } else {
      NumberOfDecimal(n / 10);
      assert s[..|s| - 1] == Numerals.Decimal(n / 10);
    }
  }

  datatype OwnerKind = STARTUP | AGENT | HUMAN | SYSTEM

  /** A permit that passed its schema: an AGENT permit names its executor. */
  datatype PermitFields = Permit(
    sessionId: SessionId, leaseToken: nat, fencingToken: nat,
    ownerKind: OwnerKind, ownerTaskId: Option<TaskId>, ownerFencingToken: Option<Token>,
    controlGeneration: Option<nat>, expiresAt: real)
  {
    predicate NamesExecutor() { ownerTaskId.Some? && ownerFencingToken.Some? }

    function Generation(): nat { if controlGeneration.Some? then controlGeneration.value else 0 }
  }

  type RuntimePermit = p: PermitFields | p.ownerKind == AGENT ==> p.NamesExecutor()
    witness Permit(0, 0, 0, STARTUP, None, None, None, 0.0)

  datatype Identity = Identity(sessionId: SessionId, leaseToken: nat, fencingToken: nat)

  datatype Owner = Owner(
    ownerKind: Option<OwnerKind>, ownerTaskId: Option<TaskId>, ownerFencingToken: Option<Token>,
    controlGeneration: Option<nat>)

  datatype Registered = Registered(permit: RuntimePermit, deadline: real)
  datatype Executor = Executor(taskId: TaskId, token: nat)

  /** A parsed server time; unparsable text gives no finite number. */
  datatype Stamp = Absent | Unparsable | At(time: real)

  datatype State = State(
    permits: map<SessionId, Registered>,
    revoked: set<SessionId>,
    executors: map<SessionId, Executor>,
    connected: bool,
    timestamp: real,
    monotonicAt: real)

  datatype Outcome = Denied | Ignored | Granted

  /** The readings of the monotonic clock that one `accept` takes, in this order: when it looks
      at the previous deadline, when it computes what remains, and when it sets the deadline. */
  datatype Readings = Readings(checked: real, computed: real, registered: real)

  function AtLeastZero(x: real): (r: real)
    ensures r >= 0.0 && r >= x && (r == 0.0 || r == x)
  {
    if x < 0.0 then 0.0 else x
  }

  function Revoke(s: State, id: SessionId): State
  {
    s.(revoked := s.revoked + {id}, permits := s.permits - {id})
  }

  function SynchronizeClock(s: State, server: Stamp, roundTrip: real, now: real): State
  {
    if server.At? then s.(timestamp := server.time + AtLeastZero(roundTrip), monotonicAt := now) else s
  }

  /** The permit comes from an executor other than the recorded one, or an older run of it. */
  predicate StaleExecutor(s: State, id: SessionId, permit: RuntimePermit)
  {
    id in s.executors && permit.NamesExecutor()
    && (s.executors[id].taskId != permit.ownerTaskId.value
        || Number(permit.ownerFencingToken.value) < s.executors[id].token)
  }

  /** Why a permit is refused in view of the one already registered. */
  predicate ConflictsWith(s: State, id: SessionId, existing: RuntimePermit, permit: RuntimePermit)
  {
    || permit.Generation() < existing.Generation()
    || (existing.ownerKind == HUMAN && permit.ownerKind == AGENT && id in s.executors
        && Number(permit.ownerFencingToken.value) <= s.executors[id].token
        && permit.Generation() <= existing.Generation())
    || (existing.ownerKind == AGENT && permit.ownerKind == STARTUP)
    || (existing.ownerFencingToken.Some? && permit.ownerFencingToken.Some?
        && (existing.ownerTaskId != permit.ownerTaskId
            || Number(permit.ownerFencingToken.value) < Number(existing.ownerFencingToken.value)))
  }

  predicate SameOwner(a: RuntimePermit, b: RuntimePermit)
  {
    a.ownerKind == b.ownerKind && a.ownerTaskId == b.ownerTaskId
    && a.ownerFencingToken == b.ownerFencingToken && a.Generation() == b.Generation()
  }

  /** What is left of the permit, if that is a number at all. */
  function Remaining(s: State, permit: RuntimePermit, server: Stamp, roundTrip: real, computed: real): Option<real>
  {
    match server
    case Unparsable => None
    case At(time) => Some(permit.expiresAt - (time + AtLeastZero(roundTrip)))
    case Absent => Some(permit.expiresAt - (s.timestamp + computed - s.monotonicAt))
  }

  function Accept(s: State, identity: Identity, permit: RuntimePermit, server: Stamp, roundTrip: real,
                  now: Readings): (result: (State, Outcome))
  {
    var id := identity.sessionId;
    if id in s.revoked then (s, Denied)
    else if identity != Identity(permit.sessionId, permit.leaseToken, permit.fencingToken) then (s, Denied)
    else if StaleExecutor(s, id, permit) then (s, Denied)
    else if id in s.permits && s.permits[id].deadline <= now.checked then (Revoke(s, id), Denied)
    else if id in s.permits && ConflictsWith(s, id, s.permits[id].permit, permit) then (s, Denied)
    else if id in s.permits && SameOwner(s.permits[id].permit, permit)
            && permit.expiresAt <= s.permits[id].permit.expiresAt then (s, Ignored)
    else
      var remaining := Remaining(s, permit, server, roundTrip, now.computed);
      if remaining.None? || remaining.value <= 0.0 then (Revoke(s, id), Denied)
      else
        var executors :=
          if permit.NamesExecutor()
          then s.executors[id := Executor(permit.ownerTaskId.value, Number(permit.ownerFencingToken.value))]
          else s.executors;
        (s.(executors := executors,
            permits := s.permits[id := Registered(permit, now.registered + remaining.value)]), Granted)
  }

  /** The command speaks for an agent: it says so, or it names an executor and no other kind. */
  predicate SpeaksForAgent(owner: Owner)
  {
    owner.ownerKind == Some(AGENT)
    || (owner.ownerKind.None? && (owner.ownerTaskId.Some? || owner.ownerFencingToken.Some?))
  }

  function Assert(s: State, identity: Identity, owner: Option<Owner>, allowStartup: bool, now: real)
    : (result: (State, Outcome))
  {
    var id := identity.sessionId;
    if id in s.revoked || id !in s.permits then (s, Denied)
    else if s.permits[id].deadline <= now then (Revoke(s, id), Denied)
    else
      var permit := s.permits[id].permit;
      var generation := if owner.Some? && owner.value.controlGeneration.Some?
                        then owner.value.controlGeneration.value else 0;
      if !s.connected then (s, Denied)
      else if owner.Some? && generation != permit.Generation() then (s, Denied)
      else if permit.leaseToken != identity.leaseToken || permit.fencingToken != identity.fencingToken
        then (s, Denied)
      else if permit.ownerKind == STARTUP && !allowStartup then (s, Denied)
      else if (permit.ownerKind == HUMAN || permit.ownerKind == SYSTEM)
              && owner.Some? && SpeaksForAgent(owner.value) then (s, Denied)
      else if permit.ownerKind == AGENT && owner.Some?
              && (owner.value.ownerTaskId != permit.ownerTaskId
                  || owner.value.ownerFencingToken != permit.ownerFencingToken) then (s, Denied)
      else (s, Granted)
  }

  // ---------------------------------------------------------------------------------------
  // Runs

  datatype Event =
    | Accepting(identity: Identity, permit: RuntimePermit, server: Stamp, roundTrip: real, now: Readings)
    | Asserting(identity: Identity, owner: Option<Owner>, allowStartup: bool, time: real)
    | Revoking(id: SessionId)
    | Connecting(connected: bool)
    | Synchronizing(server: Stamp, roundTrip: real, time: real)

  function Step(s: State, e: Event): State
  {
    match e
    case Accepting(identity, permit, server, roundTrip, now) =>
      Accept(s, identity, permit, server, roundTrip, now).0
    case Asserting(identity, owner, allowStartup, time) => Assert(s, identity, owner, allowStartup, time).0
    case Revoking(id) => Revoke(s, id)
    case Connecting(connected) => s.(connected := connected)
    case Synchronizing(server, roundTrip, time) => SynchronizeClock(s, server, roundTrip, time)
  }

  function Run(s: State, events: seq<Event>): State
    decreases |events|
  {
    if events == [] then s else Run(Step(s, events[0]), events[1..])
  }

  /** Which permits a register may hold: none of a revoked session, and an agent's only if its
      executor is the recorded one. */
  predicate Valid(s: State)
  {
    && (forall id :: id in s.permits ==> id !in s.revoked && s.permits[id].permit.sessionId == id)
    && (forall id :: id in s.permits && s.permits[id].permit.ownerKind == AGENT ==>
          id in s.executors
          && s.executors[id] == Executor(s.permits[id].permit.ownerTaskId.value,
                                         Number(s.permits[id].permit.ownerFencingToken.value)))
  }

  /** What one step never undoes: revocation, and the executor of a session except for a
      higher token of the same task. */
  predicate Advances(s: State, t: State)
  {
    && s.revoked <= t.revoked
    && (forall id :: id in s.executors ==>
          id in t.executors && t.executors[id].taskId == s.executors[id].taskId
          && t.executors[id].token >= s.executors[id].token)
  }

  lemma StepAdvances(s: State, e: Event)
    requires Valid(s)
    ensures Valid(Step(s, e)) && Advances(s, Step(s, e))
  {
    hide Accept, Assert, Valid, Advances;
    match e
    case Accepting(identity, permit, server, roundTrip, now) =>
      AcceptAdvances(s, identity, permit, server, roundTrip, now);
    case Asserting(identity, owner, allowStartup, time) => AssertAdvances(s, identity, owner, allowStartup, time);
    case _ => OthersAdvance(s, e);
  }

  lemma AcceptAdvances(s: State, identity: Identity, permit: RuntimePermit, server: Stamp, roundTrip: real, now: Readings)
    requires Valid(s)
    ensures var t := Accept(s, identity, permit, server, roundTrip, now).0; Valid(t) && Advances(s, t)
  {
    hide Number, Remaining, SameOwner, ConflictsWith;
  }

  lemma AssertAdvances(s: State, identity: Identity, owner: Option<Owner>, allowStartup: bool, now: real)
    requires Valid(s)
    ensures var t := Assert(s, identity, owner, allowStartup, now).0; Valid(t) && Advances(s, t)
  {
    hide Number;
  }

  lemma OthersAdvance(s: State, e: Event)
    requires Valid(s) && !e.Accepting? && !e.Asserting?
    ensures Valid(Step(s, e)) && Advances(s, Step(s, e))
  {
  }

  /** Over any run the register stays valid, revocation is absorbing, no executor task is ever
      replaced and no executor token ever decreases. */
  lemma {:induction false} RunAdvances(s: State, events: seq<Event>)
    requires Valid(s)
    ensures Valid(Run(s, events)) && Advances(s, Run(s, events))
    decreases |events|
  {
    if events != [] {
      StepAdvances(s, events[0]);
      RunAdvances(Step(s, events[0]), events[1..]);
    }
  }

  /** A revoked session stays without a permit: nothing is accepted or asserted for it again. */
  lemma RevokedForever(s: State, events: seq<Event>, identity: Identity, permit: RuntimePermit, server: Stamp,
                       roundTrip: real, now: Readings, owner: Option<Owner>, allowStartup: bool)
    requires Valid(s) && identity.sessionId in s.revoked
    ensures var t := Run(s, events);
      && identity.sessionId !in t.permits
      && Accept(t, identity, permit, server, roundTrip, now) == (t, Denied)
      && Assert(t, identity, owner, allowStartup, now.checked) == (t, Denied)
  {
    RunAdvances(s, events);
  }

  /** Fencing. Once an agent's permit with some token is accepted, no later assertion for an
      agent with a smaller token succeeds, whatever happens in between. */
  lemma AgentFenced(s: State, identity: Identity, permit: RuntimePermit, server: Stamp, roundTrip: real,
                    now: Readings, events: seq<Event>, later: Identity, owner: Owner, time: real)
    requires Valid(s) && permit.ownerKind == AGENT
    requires Accept(s, identity, permit, server, roundTrip, now).1 != Denied
    requires later.sessionId == identity.sessionId && SpeaksForAgent(owner)
    requires owner.ownerFencingToken.Some?
    requires Number(owner.ownerFencingToken.value) < Number(permit.ownerFencingToken.value)
    ensures var t := Run(Accept(s, identity, permit, server, roundTrip, now).0, events);
      Assert(t, later, Some(owner), false, time).1 == Denied
  {
    StepAdvances(s, Accepting(identity, permit, server, roundTrip, now));
    RunAdvances(Accept(s, identity, permit, server, roundTrip, now).0, events);
  }

  /** The owner of the last accepted agent permit itself passes until the deadline. */
  lemma CurrentAgentPasses(s: State, identity: Identity, permit: RuntimePermit, server: Stamp, roundTrip: real,
                           now: Readings, time: real)
    requires Valid(s) && permit.ownerKind == AGENT && s.connected
    requires Accept(s, identity, permit, server, roundTrip, now).1 == Granted
    ensures var t := Accept(s, identity, permit, server, roundTrip, now).0;
      var owner := Owner(Some(AGENT), permit.ownerTaskId, permit.ownerFencingToken, permit.controlGeneration);
      Assert(t, identity, Some(owner), false, time).1 == Granted <==> time < t.permits[identity.sessionId].deadline
  {
  }

  // ---------------------------------------------------------------------------------------
  // Whom a permit lets pass

  /** An assertion passes exactly for the holder of an unexpired permit: for the same lease and
      fencing token, at the same control generation, with the executor of an agent's permit, not for
      an agent while a human or the system is in control, and at startup only where that is allowed. */
  lemma PassesExactlyWhen(s: State, identity: Identity, owner: Option<Owner>, allowStartup: bool, time: real)
    ensures Assert(s, identity, owner, allowStartup, time).1 == Granted
       <==> && s.connected && identity.sessionId in s.permits && identity.sessionId !in s.revoked
            && var r := s.permits[identity.sessionId];
            && time < r.deadline
            && identity.leaseToken == r.permit.leaseToken && identity.fencingToken == r.permit.fencingToken
            && (r.permit.ownerKind == STARTUP ==> allowStartup)
            && (owner.Some? ==>
                  && (if owner.value.controlGeneration.Some? then owner.value.controlGeneration.value else 0)
                     == r.permit.Generation()
                  && match r.permit.ownerKind
                     case AGENT => owner.value.ownerTaskId == r.permit.ownerTaskId
                                   && owner.value.ownerFencingToken == r.permit.ownerFencingToken
                     case STARTUP => true
                     case _ =>
                       owner.value.ownerKind != Some(AGENT)
                       && (owner.value.ownerKind.None? ==>
                             owner.value.ownerTaskId.None? && owner.value.ownerFencingToken.None?))
  {
  }

  /** What a new permit may not do to the one it follows: fall behind its control generation, resume an
      agent under a human without a newer executor or generation, go back to startup, replace the
      agent's task, fall behind its token, or renew it without a later expiry. */
  predicate MayFollow(s: State, existing: RuntimePermit, permit: RuntimePermit)
  {
    && existing.Generation() <= permit.Generation()
    && (existing.ownerKind == HUMAN && permit.ownerKind == AGENT && existing.sessionId in s.executors ==>
          s.executors[existing.sessionId].token < Number(permit.ownerFencingToken.value)
          || existing.Generation() < permit.Generation())
    && !(existing.ownerKind == AGENT && permit.ownerKind == STARTUP)
    && (existing.ownerFencingToken.Some? && permit.ownerFencingToken.Some? ==>
          existing.ownerTaskId == permit.ownerTaskId
          && Number(existing.ownerFencingToken.value) <= Number(permit.ownerFencingToken.value))
  }

  predicate Renews(existing: RuntimePermit, permit: RuntimePermit)
  {
    (permit.ownerKind, permit.ownerTaskId, permit.ownerFencingToken, permit.Generation())
    == (existing.ownerKind, existing.ownerTaskId, existing.ownerFencingToken, existing.Generation())
  }

  /** What the accepted permit's time is counted from: the stamp and the bound of its round trip, or the
      register's own estimate. */
  function ServerTime(s: State, server: Stamp, roundTrip: real, computed: real): real
    requires !server.Unparsable?
  {
    if server.At? then (if roundTrip > 0.0 then server.time + roundTrip else server.time)
    else s.timestamp + (computed - s.monotonicAt)
  }

  /** Nothing in the register speaks against the permit, apart from its time. */
  predicate Eligible(s: State, identity: Identity, permit: RuntimePermit, checked: real)
  {
    var id := identity.sessionId;
    && id !in s.revoked
    && permit.sessionId == id && permit.leaseToken == identity.leaseToken && permit.fencingToken == identity.fencingToken
    && (id in s.executors && permit.ownerTaskId.Some? && permit.ownerFencingToken.Some? ==>
          permit.ownerTaskId == Some(s.executors[id].taskId) && s.executors[id].token <= Number(permit.ownerFencingToken.value))
    && (id in s.permits ==> checked < s.permits[id].deadline && MayFollow(s, s.permits[id].permit, permit))
  }

  /** A permit is granted exactly if it is eligible, is no stale copy of the one it renews, and has time
      left; a stale copy is ignored, and everything else is denied. */
  lemma GrantsExactlyWhen(s: State, identity: Identity, permit: RuntimePermit, server: Stamp, roundTrip: real, now: Readings)
    requires Valid(s)
    ensures var id := identity.sessionId;
      var outcome := Accept(s, identity, permit, server, roundTrip, now).1;
      var stale := id in s.permits && Renews(s.permits[id].permit, permit) && permit.expiresAt <= s.permits[id].permit.expiresAt;
      && (outcome == Granted <==> Eligible(s, identity, permit, now.checked) && !stale && !server.Unparsable?
                                  && ServerTime(s, server, roundTrip, now.computed) < permit.expiresAt)
      && (outcome == Ignored <==> Eligible(s, identity, permit, now.checked) && stale)
  {
    hide Number;
  }

  /** What a decision about a permit does to the register: a granted one is registered until its time is
      over, with its executor; a denied one costs the session only if the permit before it had expired,
      or it has no time left itself. */
  lemma AcceptChanges(s: State, identity: Identity, permit: RuntimePermit, server: Stamp, roundTrip: real, now: Readings)
    requires Valid(s)
    ensures var id := identity.sessionId;
      var (t, outcome) := Accept(s, identity, permit, server, roundTrip, now);
      && (outcome == Granted ==>
            && t.permits == s.permits[id := Registered(permit, now.registered + permit.expiresAt
                                                               - ServerTime(s, server, roundTrip, now.computed))]
            && t.executors == (if permit.ownerTaskId.Some? && permit.ownerFencingToken.Some?
                               then s.executors[id := Executor(permit.ownerTaskId.value, Number(permit.ownerFencingToken.value))]
                               else s.executors)
            && t.revoked == s.revoked)
      && (outcome == Ignored ==> t == s)
      && (outcome == Denied ==>
            (t != s ==> t == s.(revoked := s.revoked + {id}, permits := s.permits - {id}))
            && (id in t.revoked <==>
                  || id in s.revoked
                  || (identity == Identity(permit.sessionId, permit.leaseToken, permit.fencingToken)
                      && !StaleExecutor(s, id, permit)
                      && ((id in s.permits && s.permits[id].deadline <= now.checked) || Eligible(s, identity, permit, now.checked)))))
      && t.connected == s.connected && t.timestamp == s.timestamp && t.monotonicAt == s.monotonicAt
  {
    hide Number;
  }

  /** The k-th event granted this permit. */
  predicate GrantedAt(s: State, events: seq<Event>, k: nat, identity: Identity, permit: RuntimePermit)
    requires k < |events|
  {
    var e := events[k];
    e.Accepting? && e.identity == identity && e.permit == permit
    && Accept(Run(s, events[..k]), identity, permit, e.server, e.roundTrip, e.now).1 == Granted
  }

  lemma {:induction false} RunInParts(s: State, events: seq<Event>, n: nat)
    requires n <= |events|
    ensures Run(s, events) == Run(Run(s, events[..n]), events[n..])
    decreases |events|
  {
    hide Step;
    if n > 0 {
      assert events[..n][0] == events[0] && events[..n][1..] == events[1..][..n - 1] && events[1..][n - 1..] == events[n..];
      RunInParts(Step(s, events[0]), events[1..], n - 1);
    } else {
      assert events[..0] == [] && events[0..] == events;
    }
  }

  /** The registered permit is the last one that an event granted for its session, to this identity. */
  ghost predicate LastGrantedAt(s: State, events: seq<Event>, k: nat, identity: Identity, permit: RuntimePermit)
    requires k < |events|
  {
    GrantedAt(s, events, k, identity, permit)
    && forall j, i, p :: k < j < |events| && GrantedAt(s, events, j, i, p) ==> i.sessionId != identity.sessionId
  }

  lemma StepRegisters(s: State, e: Event, id: SessionId)
    requires id in Step(s, e).permits
    ensures if e.Accepting? && e.identity.sessionId == id && Accept(s, e.identity, e.permit, e.server, e.roundTrip, e.now).1 == Granted
            then Step(s, e).permits[id].permit == e.permit
                 && e.identity == Identity(id, e.permit.leaseToken, e.permit.fencingToken)
            else id in s.permits && Step(s, e).permits[id] == s.permits[id]
  {
    hide StaleExecutor, ConflictsWith, SameOwner, Remaining;
  }

  /** Over any run the permit of a session is the last one granted for it. */
  lemma {:induction false} PermitIsLastGranted(s: State, events: seq<Event>, id: SessionId)
    requires s.permits == map[] && id in Run(s, events).permits
    ensures var permit := Run(s, events).permits[id].permit;
      exists k: nat :: k < |events|
        && LastGrantedAt(s, events, k, Identity(id, permit.leaseToken, permit.fencingToken), permit)
    decreases |events|
  {
    hide Step, Accept;
    if events != [] {
      var n := |events| - 1;
      var before, e := events[..n], events[n];
      RunInParts(s, events, n);
      assert events[n..] == [e];
      assert Run(Run(s, before), [e]) == Step(Run(s, before), e) by { assert [e][1..] == []; }
      StepRegisters(Run(s, before), e, id);
      var permit := Run(s, events).permits[id].permit;
      var identity := Identity(id, permit.leaseToken, permit.fencingToken);
      if GrantedAt(s, events, n, identity, permit) {
        assert LastGrantedAt(s, events, n, identity, permit);
      } else {
        PermitIsLastGranted(s, before, id);
        var k: nat :| k < |before| && LastGrantedAt(s, before, k, identity, permit);
        StillLastGranted(s, events, k, identity, permit);
      }
    }
  }

  lemma StillLastGranted(s: State, events: seq<Event>, k: nat, identity: Identity, permit: RuntimePermit)
    requires k < |events| - 1 && LastGrantedAt(s, events[..|events| - 1], k, identity, permit)
    requires var e := events[|events| - 1];
      e.Accepting? && e.identity.sessionId == identity.sessionId ==>
        Accept(Run(s, events[..|events| - 1]), e.identity, e.permit, e.server, e.roundTrip, e.now).1 != Granted
    ensures LastGrantedAt(s, events, k, identity, permit)
  {
    hide Run, Accept;
    var before := events[..|events| - 1];
    forall j | 0 <= j < |before| ensures before[..j] == events[..j] && before[j] == events[j] {
    }
    forall j, i, p | k < j < |events| && GrantedAt(s, events, j, i, p) ensures i.sessionId != identity.sessionId {
      if j < |before| {
        assert GrantedAt(s, before, j, i, p);
      }
    }
  }

  /** Whoever passes over any run carries the lease and fencing token of the last permit granted for
      the session: an earlier lease of the same session has lost it. */
  lemma PassingIsLastGranted(wallNow: real, monotonicNow: real, events: seq<Event>, identity: Identity,
                             owner: Option<Owner>, allowStartup: bool, time: real)
    requires Assert(Run(Fresh(wallNow, monotonicNow), events), identity, owner, allowStartup, time).1 == Granted
    ensures exists k: nat, permit :: k < |events| && LastGrantedAt(Fresh(wallNow, monotonicNow), events, k, identity, permit)
  {
    var s := Fresh(wallNow, monotonicNow);
    PassesExactlyWhen(Run(s, events), identity, owner, allowStartup, time);
    PermitIsLastGranted(s, events, identity.sessionId);
  }

  /** Once a permit of another lease or fencing token is granted, the earlier one neither passes an
      assertion nor reaches the network, unless a permit of its own is granted again. */
  lemma SupersededLeaseIsDenied(wallNow: real, monotonicNow: real, events: seq<Event>, k: nat, granted: Identity,
                                permit: RuntimePermit, earlier: Identity, owner: Option<Owner>, allowStartup: bool, time: real)
    requires k < |events| && GrantedAt(Fresh(wallNow, monotonicNow), events, k, granted, permit)
    requires earlier.sessionId == granted.sessionId && earlier != granted
    requires forall j :: k < j < |events| && events[j].Accepting? ==> events[j].identity != earlier
    ensures Assert(Run(Fresh(wallNow, monotonicNow), events), earlier, owner, allowStartup, time).1 == Denied
  {
    var s, id := Fresh(wallNow, monotonicNow), earlier.sessionId;
    var t := Run(s, events);
    PassesExactlyWhen(t, earlier, owner, allowStartup, time);
    if id in t.permits {
      var current := t.permits[id].permit;
      PermitIsLastGranted(s, events, id);
      hide Run, Accept, Assert;
      var j: nat :| j < |events|
                    && LastGrantedAt(s, events, j, Identity(id, current.leaseToken, current.fencingToken), current);
      assert k <= j;
    }
  }

  lemma StepKeepsGeneration(s: State, e: Event, id: SessionId)
    requires id in s.permits && id in Step(s, e).permits
    ensures s.permits[id].permit.Generation() <= Step(s, e).permits[id].permit.Generation()
  {
    hide StaleExecutor, SameOwner, Remaining, Number;
  }

  /** As long as a session is not revoked its control generation never decreases. */
  lemma {:induction false} GenerationNeverDecreases(s: State, events: seq<Event>, id: SessionId)
    requires Valid(s) && id in s.permits && id in Run(s, events).permits
    ensures s.permits[id].permit.Generation() <= Run(s, events).permits[id].permit.Generation()
    decreases |events|
  {
    hide Step, Valid;
    if events != [] {
      var t := Step(s, events[0]);
      StepAdvances(s, events[0]);
      RunAdvances(t, events[1..]);
      LostForGood(s, events[0], id, Run(t, events[1..]));
      StepKeepsGeneration(s, events[0], id);
      GenerationNeverDecreases(t, events[1..], id);
    }
  }

  /** A session loses its permit only by being revoked. */
  lemma LostForGood(s: State, e: Event, id: SessionId, end: State)
    requires id in s.permits && Valid(end) && Step(s, e).revoked <= end.revoked && id in end.permits
    ensures id in Step(s, e).permits
  {
    hide StaleExecutor, ConflictsWith, SameOwner, Remaining, Number;
  }

  /** Whoever comes with an earlier control generation than one that was granted never passes again. */
  lemma EarlierGenerationIsDenied(s: State, identity: Identity, permit: RuntimePermit, server: Stamp, roundTrip: real,
                                  now: Readings, events: seq<Event>, later: Identity, owner: Owner, time: real)
    requires Valid(s) && Accept(s, identity, permit, server, roundTrip, now).1 == Granted
    requires later.sessionId == identity.sessionId
    requires (if owner.controlGeneration.Some? then owner.controlGeneration.value else 0) < permit.Generation()
    ensures Assert(Run(Accept(s, identity, permit, server, roundTrip, now).0, events), later, Some(owner), true, time).1 == Denied
  {
    var first := Accept(s, identity, permit, server, roundTrip, now).0;
    StepAdvances(s, Accepting(identity, permit, server, roundTrip, now));
    PassesExactlyWhen(Run(first, events), later, Some(owner), true, time);
    StepRegisters(s, Accepting(identity, permit, server, roundTrip, now), identity.sessionId);
    hide Run, Accept, Assert;
    if later.sessionId in Run(first, events).permits {
      GenerationNeverDecreases(first, events, identity.sessionId) by { assert identity.sessionId in first.permits by { AcceptRegisters(s, identity, permit, server, roundTrip, now); } }
    }
  }

  lemma AcceptRegisters(s: State, identity: Identity, permit: RuntimePermit, server: Stamp, roundTrip: real, now: Readings)
    requires Accept(s, identity, permit, server, roundTrip, now).1 == Granted
    ensures identity.sessionId in Accept(s, identity, permit, server, roundTrip, now).0.permits
  {
  }

  /** While the connection is down nothing passes. */
  lemma {:induction false} DisconnectedNeverPasses(s: State, events: seq<Event>, k: nat, identity: Identity,
                                                   owner: Option<Owner>, allowStartup: bool, time: real)
    requires k < |events| && events[k] == Connecting(false)
    requires forall j :: k < j < |events| ==> events[j] != Connecting(true)
    ensures Assert(Run(s, events), identity, owner, allowStartup, time).1 == Denied
  {
    RunInParts(s, events, k);
    StaysDown(Step(Run(s, events[..k]), events[k]), events[k + 1..]);
    assert events[k..][0] == events[k] && events[k..][1..] == events[k + 1..];
    PassesExactlyWhen(Run(s, events), identity, owner, allowStartup, time);
    hide Assert;
  }

  lemma {:induction false} StaysDown(s: State, events: seq<Event>)
    requires !s.connected && forall j :: 0 <= j < |events| ==> events[j] != Connecting(true)
    ensures !Run(s, events).connected
    decreases |events|
  {
    if events != [] {
      StaysDown(Step(s, events[0]), events[1..]);
    }
  }

  // ---------------------------------------------------------------------------------------
  // Deadlines

  /** The server clock runs at the rate of the monotonic clock, `offset` ahead of it. */
  function ServerClock(offset: real, monotonic: real): real { monotonic + offset }

  /** The stamp and the round-trip bound are true, and used at most `lag` after the round trip was
      measured: then the server clock had not run past the stamped time by more than the bound. */
  ghost predicate TrueStamp(offset: real, lag: real, server: Stamp, roundTrip: real, reading: real)
  {
    server.At? ==>
      exists measured: real :: reading - lag <= measured && ServerClock(offset, measured) <= server.time + AtLeastZero(roundTrip)
  }

  /** Every stamp in the event is true, and a deadline without a stamp of its own is set at
      most `drift` after the remaining time was computed. */
  ghost predicate TrueEvent(offset: real, lag: real, drift: real, e: Event)
  {
    match e
    case Accepting(_, _, server, roundTrip, now) =>
      TrueStamp(offset, lag, server, roundTrip, now.registered)
      && (server.Absent? ==> now.registered - now.computed <= drift)
    case Synchronizing(server, roundTrip, time) => TrueStamp(offset, lag, server, roundTrip, time)
    case _ => true
  }

  /** The event accepts a permit by the register's own estimate of the server clock. */
  predicate Unstamped(e: Event) { e.Accepting? && e.server.Absent? }

  predicate Synchronizes(e: Event) { e.Synchronizing? && e.server.At? }

  /** A stamped synchronization is among the first `n` events. */
  predicate SynchronizedBefore(events: seq<Event>, n: nat)
    requires n <= |events|
  {
    exists j :: 0 <= j < n && Synchronizes(events[j])
  }

  /** The register's estimate is used only once a stamp has set it. */
  predicate EstimateIsStamped(events: seq<Event>)
  {
    forall k :: 0 <= k < |events| && Unstamped(events[k]) ==> SynchronizedBefore(events, k)
  }

  /** No permit outlives its expiry on the server by more than the slack. */
  predicate Conservative(offset: real, slack: real, s: State)
  {
    forall id :: id in s.permits ==>
      ServerClock(offset, s.permits[id].deadline) <= s.permits[id].permit.expiresAt + slack
  }

  /** The estimate of the server clock is behind it by no more than the lag. */
  predicate GoodEstimate(offset: real, lag: real, s: State) { offset <= s.timestamp - s.monotonicAt + lag }

  lemma StepIsConservative(offset: real, lag: real, drift: real, s: State, e: Event)
    requires drift >= 0.0 && Conservative(offset, lag + drift, s) && TrueEvent(offset, lag, drift, e)
    requires Unstamped(e) ==> GoodEstimate(offset, lag, s)
    ensures Conservative(offset, lag + drift, Step(s, e))
  {
    hide StaleExecutor, ConflictsWith, SameOwner, SpeaksForAgent;
  }

  lemma StepKeepsEstimate(offset: real, lag: real, drift: real, s: State, e: Event)
    requires TrueEvent(offset, lag, drift, e) && (GoodEstimate(offset, lag, s) || Synchronizes(e))
    ensures GoodEstimate(offset, lag, Step(s, e))
  {
    hide StaleExecutor, ConflictsWith, SameOwner, SpeaksForAgent, Remaining;
  }

  /** Over any run from a register without late permits, whatever its own clock says: no permit is
      ever late by more than lag and drift, as long as its estimate is used only where it is good,
      be it from the start or by a stamped synchronization. */
  lemma {:induction false} RunIsConservative(offset: real, lag: real, drift: real, s: State, events: seq<Event>)
    requires drift >= 0.0 && Conservative(offset, lag + drift, s)
    requires forall e :: e in events ==> TrueEvent(offset, lag, drift, e)
    requires GoodEstimate(offset, lag, s) || EstimateIsStamped(events)
    ensures Conservative(offset, lag + drift, Run(s, events))
    decreases |events|
  {
    hide Step, Conservative, TrueEvent, GoodEstimate;
    if events != [] {
      var t, rest := Step(s, events[0]), events[1..];
      assert Unstamped(events[0]) ==> GoodEstimate(offset, lag, s);
      StepIsConservative(offset, lag, drift, s, events[0]);
      if GoodEstimate(offset, lag, s) || Synchronizes(events[0]) {
        StepKeepsEstimate(offset, lag, drift, s, events[0]);
      } else {
        RestIsStamped(events);
      }
      RunIsConservative(offset, lag, drift, t, rest);
    }
  }

  lemma RestIsStamped(events: seq<Event>)
    requires events != [] && !Synchronizes(events[0]) && EstimateIsStamped(events)
    ensures EstimateIsStamped(events[1..])
  {
    var rest := events[1..];
    forall k | 0 <= k < |rest| && Unstamped(rest[k]) ensures SynchronizedBefore(rest, k) {
      assert rest[k] == events[k + 1];
      var j :| 0 <= j < k + 1 && Synchronizes(events[j]);
      assert rest[j - 1] == events[j];
    }
  }

  /** A register as it is made, with whatever the local clocks read. */
  function Fresh(wallNow: real, monotonicNow: real): State { State(map[], {}, map[], true, wallNow, monotonicNow) }

  /** Whenever an assertion passes, the server clock is before the permit's expiry, plus at most
      the lag and the drift between clock readings. A permit without a stamp of its own has to come
      after a stamped synchronization, unless the register's first reading of the local wall clock
      was already good; of that clock nothing else is supposed. */
  lemma PassingMeansUnexpired(offset: real, lag: real, drift: real, wallNow: real, monotonicNow: real,
                              events: seq<Event>, identity: Identity, owner: Option<Owner>, allowStartup: bool, time: real)
    requires drift >= 0.0 && (EstimateIsStamped(events) || GoodEstimate(offset, lag, Fresh(wallNow, monotonicNow)))
    requires forall e :: e in events ==> TrueEvent(offset, lag, drift, e)
    requires Assert(Run(Fresh(wallNow, monotonicNow), events), identity, owner, allowStartup, time).1 == Granted
    ensures ServerClock(offset, time)
          < Run(Fresh(wallNow, monotonicNow), events).permits[identity.sessionId].permit.expiresAt + lag + drift
  {
    RunIsConservative(offset, lag, drift, Fresh(wallNow, monotonicNow), events);
  }

  /** With a stamp on every permit the drift between the readings does not matter, nor does any
      local clock. */
  lemma StampedPassingMeansUnexpired(offset: real, lag: real, wallNow: real, monotonicNow: real, events: seq<Event>,
                                     identity: Identity, owner: Option<Owner>, allowStartup: bool, time: real)
    requires forall e :: e in events ==> TrueEvent(offset, lag, 0.0, e) && !Unstamped(e)
    requires Assert(Run(Fresh(wallNow, monotonicNow), events), identity, owner, allowStartup, time).1 == Granted
    ensures ServerClock(offset, time)
          < Run(Fresh(wallNow, monotonicNow), events).permits[identity.sessionId].permit.expiresAt + lag
  {
    PassingMeansUnexpired(offset, lag, 0.0, wallNow, monotonicNow, events, identity, owner, allowStartup, time);
  }

  /** An unstamped permit before any stamped synchronization passes after its expiry on the server
      exactly when the local wall clock was behind the server's when the register was made: it does
      at some later reading of the clock, and at none otherwise. */
  lemma UnsynchronizedPassesLateExactlyWhen(offset: real, wallNow: real, monotonicNow: real, identity: Identity,
                                            permit: RuntimePermit, now: real)
    requires Accept(Fresh(wallNow, monotonicNow), identity, permit, Absent, 0.0, Readings(now, now, now)).1 == Granted
    ensures var t := Accept(Fresh(wallNow, monotonicNow), identity, permit, Absent, 0.0, Readings(now, now, now)).0;
      (exists time: real :: now <= time && Assert(t, identity, None, true, time).1 == Granted
                            && ServerClock(offset, time) >= permit.expiresAt)
      <==> wallNow < ServerClock(offset, monotonicNow)
  {
    var s := Fresh(wallNow, monotonicNow);
    var t := Accept(s, identity, permit, Absent, 0.0, Readings(now, now, now)).0;
    var deadline := t.permits[identity.sessionId].deadline;
    assert deadline == permit.expiresAt - wallNow + monotonicNow;
    if wallNow < ServerClock(offset, monotonicNow) {
      var time := if now <= permit.expiresAt - offset then permit.expiresAt - offset else now;
      assert Assert(t, identity, None, true, time).1 == Granted;
    }
  }

  /** Without a stamp of its own a new deadline is conservative exactly when the clock moved no
      further between its two readings than the estimate of the server clock is ahead. */
  lemma UnstampedDeadlineConservativeExactlyWhen(offset: real, s: State, identity: Identity, permit: RuntimePermit,
                                                 roundTrip: real, now: Readings)
    requires Accept(s, identity, permit, Absent, roundTrip, now).1 == Granted
    ensures var t := Accept(s, identity, permit, Absent, roundTrip, now).0;
      ServerClock(offset, t.permits[identity.sessionId].deadline) <= permit.expiresAt
      <==> now.registered - now.computed <= s.timestamp - s.monotonicAt - offset
  {
  }

  // ---------------------------------------------------------------------------------------
  // The register itself

  class SessionPermits {
    var permits: map<SessionId, Registered>
    var revoked: set<SessionId>
    var executorEpochs: map<SessionId, Executor>
    var connected: bool
    var timestamp: real
    var monotonicAt: real

    ghost function Now(): State
      reads this
    {
      State(permits, revoked, executorEpochs, connected, timestamp, monotonicAt)
    }

    constructor (wallNow: real, monotonicNow: real)
      ensures Now() == Fresh(wallNow, monotonicNow) && Valid(Now())
    {
      permits, revoked, executorEpochs, connected := map[], {}, map[], true;
      timestamp, monotonicAt := wallNow, monotonicNow;
    }

    method Synchronize(server: Stamp, roundTrip: real, now: real)
      modifies this
      ensures Now() == Step(old(Now()), Synchronizing(server, roundTrip, now))
    {
      if server.At? {
        timestamp := server.time + AtLeastZero(roundTrip);
        monotonicAt := now;
      }
    }

    method SetConnected(value: bool)
      modifies this
      ensures Now() == Step(old(Now()), Connecting(value))
    {
      connected := value;
    }

    method RevokeSession(id: SessionId)
      modifies this
      ensures Now() == Step(old(Now()), Revoking(id))
    {
      revoked := revoked + {id};
      permits := permits - {id};
    }

    method AcceptPermit(identity: Identity, permit: RuntimePermit, server: Stamp, roundTrip: real, now: Readings)
      returns (outcome: Outcome)
      requires Valid(Now())
      modifies this
      ensures (Now(), outcome) == Accept(old(Now()), identity, permit, server, roundTrip, now)
      ensures Valid(Now()) && Advances(old(Now()), Now())
    {
      StepAdvances(Now(), Accepting(identity, permit, server, roundTrip, now));
      var id := identity.sessionId;
      if id in revoked {
        return Denied;
      }
      if identity.sessionId != permit.sessionId || identity.fencingToken != permit.fencingToken
         || identity.leaseToken != permit.leaseToken {
        return Denied;
      }
      if id in executorEpochs && permit.NamesExecutor()
         && (executorEpochs[id].taskId != permit.ownerTaskId.value
             || Number(permit.ownerFencingToken.value) < executorEpochs[id].token) {
        return Denied;
      }
      if id in permits {
        var existing := permits[id];
        if existing.deadline <= now.checked {
          RevokeSession(id);
          return Denied;
        }
        if ConflictsWith(State(permits, revoked, executorEpochs, connected, timestamp, monotonicAt),
                         id, existing.permit, permit) {
          return Denied;
        }
        if SameOwner(existing.permit, permit) && permit.expiresAt <= existing.permit.expiresAt {
          return Ignored;
        }
      }
      var remaining := Remaining(State(permits, revoked, executorEpochs, connected, timestamp, monotonicAt),
                                 permit, server, roundTrip, now.computed);
      if remaining.None? || remaining.value <= 0.0 {
        RevokeSession(id);
        return Denied;
      }
      if permit.NamesExecutor() {
        executorEpochs := executorEpochs[id := Executor(permit.ownerTaskId.value, Number(permit.ownerFencingToken.value))];
      }
      permits := permits[id := Registered(permit, now.registered + remaining.value)];
      outcome := Granted;
    }

    method AssertPermit(identity: Identity, owner: Option<Owner>, allowStartup: bool, now: real)
      returns (outcome: Outcome)
      modifies this
      ensures (Now(), outcome) == Assert(old(Now()), identity, owner, allowStartup, now)
    {
      var id := identity.sessionId;
      if id in revoked || id !in permits {
        return Denied;
      }
      if permits[id].deadline <= now {
        RevokeSession(id);
        return Denied;
      }
      if !connected {
        return Denied;
      }
      var permit := permits[id].permit;
      if owner.Some? {
        var generation := if owner.value.controlGeneration.Some? then owner.value.controlGeneration.value else 0;
        if generation != permit.Generation() {
          return Denied;
        }
      }
      if permit.leaseToken != identity.leaseToken || permit.fencingToken != identity.fencingToken {
        return Denied;
      }
      if permit.ownerKind == STARTUP && !allowStartup {
        return Denied;
      }
      if (permit.ownerKind == HUMAN || permit.ownerKind == SYSTEM) && owner.Some? && SpeaksForAgent(owner.value) {
        return Denied;
      }
      if permit.ownerKind == AGENT && owner.Some?
         && (owner.value.ownerTaskId != permit.ownerTaskId
             || owner.value.ownerFencingToken != permit.ownerFencingToken) {
        return Denied;
      }
      outcome := Granted;
    }

    /** Network access is allowed exactly when an assertion without an owner passes. */
    method NetworkAllowed(identity: Identity, now: real) returns (allowed: bool)
      modifies this
      ensures allowed == (Assert(old(Now()), identity, None, false, now).1 == Granted)
      ensures Now() == Assert(old(Now()), identity, None, false, now).0
    {
      var outcome := AssertPermit(identity, None, false, now);
      allowed := outcome == Granted;
    }
  }
}
