/** Renewal of a runtime lease: a timer for the next renewal, one for the local deadline, and at
    most one renewal in flight. Everything that happens is an event; a timer fires at or after
    its due time. Times are milliseconds of the monotonic clock. */
module LeaseSupervisor {
  import opened Wrappers

  /** The result of date arithmetic, which unparsable text turns into no number. */
  datatype Millis = NotANumber | Ms(value: real)

  function Minus(a: Millis, b: Millis): Millis
  {
    if a.Ms? && b.Ms? then Ms(a.value - b.value) else NotANumber
  }

  function AtLeastZero(a: Millis): (r: Millis)
    ensures a.NotANumber? <==> r.NotANumber?
    ensures a.Ms? ==> r.value >= 0.0 && r.value >= a.value && (r == a || r == Ms(0.0))
  {
    if a.Ms? && a.value < 0.0 then Ms(0.0) else a
  }

  function Min(a: real, b: real): (r: real)
    ensures r <= a && r <= b && (r == a || r == b)
  {
    if a <= b then a else b
  }

  function Max(a: real, b: real): (r: real)
    ensures r >= a && r >= b && (r == a || r == b)
  {
    if a >= b then a else b
  }

  datatype Lease = Lease(expiresAt: Millis, serverTime: Option<Millis>, duration: Option<Millis>)

  /** What the client makes of a lease it received `elapsed` after asking for it. */
  function WithConservativeDuration(lease: Lease, elapsed: real): Lease
  {
    if lease.serverTime.None? then lease
    else lease.(duration := Some(AtLeastZero(Minus(Minus(lease.expiresAt, lease.serverTime.value), Ms(elapsed)))))
  }

  function Duration(lease: Lease, wallNow: real): Millis
  {
    if lease.duration.Some? then lease.duration.value
    else if lease.serverTime.Some? then Minus(lease.expiresAt, lease.serverTime.value)
    else
      var left := Minus(lease.expiresAt, Ms(wallNow));
      if left.Ms? then Ms(Min(60_000.0, left.value)) else left
  }

  datatype OptionFields = Settings(interval: real, timeout: real, safety: real)
  type Options = o: OptionFields | o.interval > 0.0 && o.timeout > 0.0 && o.safety >= 0.0
    witness Settings(15_000.0, 5_000.0, 10_000.0)

  /** `expiry` and `timer` are due times of pending timers; `leaseEnd` is when the lease confirmed
      last expires on the server. */
  datatype State = State(
    stopped: bool, aborted: bool, safeUntil: real, failures: nat, timer: Option<real>, expiry: Option<real>,
    inFlight: nat, leaseEnd: Millis)

  /** The clock readings of one response, in this order: when its age is measured, when the safe
      time is computed, when the deadline timer is set, when the next renewal is scheduled. */
  datatype Readings = Readings(measured: real, confirmed: real, armed: real, scheduled: real)

  datatype Event =
    | TimerFires(now: real)
    | ExpiryFires(now: real)
    | Responds(cancel: bool, lease: Lease, elapsed: real, wallNow: real, at: Readings)
    | Breaks(lease: Lease, elapsed: real, wallNow: real, at: Readings, terminal: bool, random: real)
    | Fails(terminal: bool, random: real, now: real)
    | ExecutionAborts
    | Stops

  function Stop(s: State): State { s.(stopped := true, timer := None, expiry := None) }

  function Lose(s: State): State { if s.stopped then s else Stop(s.(aborted := true)) }

  function Confirm(s: State, o: Options, lease: Lease, wallNow: real, at: Readings): State
  {
    var duration := Duration(lease, wallNow);
    var t := s.(expiry := None, leaseEnd := lease.expiresAt);
    if duration.NotANumber? then Lose(t)
    else
      var left := duration.value - o.safety;
      var u := t.(safeUntil := at.confirmed + Max(0.0, left));
      if left <= 0.0 then Lose(u) else u.(expiry := Some(at.armed + left))
  }

  function Schedule(s: State, delay: real, now: real): State
  {
    if s.stopped || s.aborted then s else s.(timer := Some(now + Min(delay, Max(0.0, s.safeUntil - now))))
  }

  function RetryDelay(failures: nat, random: real): real
  {
    (if failures <= 1 then 1_000.0 else if failures == 2 then 2_000.0 else 4_000.0) * (0.8 + random * 0.4)
  }

  /** The supervisor as its constructor leaves it. */
  function Start(o: Options, aborted: bool, lease: Lease, elapsed: real, wallNow: real, at: Readings): State
  {
    var s := State(false, aborted, 0.0, 0, None, None, 0, NotANumber);
    if aborted then Stop(s)
    else Schedule(Confirm(s, o, WithConservativeDuration(lease, elapsed), wallNow, at), o.interval, at.scheduled)
  }

  /** A renewal begins, unless the safe time is over. */
  function Tick(s: State, now: real): State
  {
    if s.stopped || s.aborted then s
    else if s.safeUntil - now <= 0.0 then Lose(s)
    else s.(inFlight := s.inFlight + 1)
  }

  /** What a failed renewal leads to, once it is over. */
  function Failed(s: State, terminal: bool, random: real, now: real): State
  {
    if s.stopped then s
    else
      var failed := s.(failures := s.failures + 1);
      if terminal then Lose(failed) else Schedule(failed, RetryDelay(failed.failures, random), now)
  }

  function Renewed(s: State, o: Options, lease: Lease, elapsed: real, wallNow: real, at: Readings): State
  {
    Confirm(s.(failures := 0), o, WithConservativeDuration(lease, elapsed), wallNow, at)
  }

  function Respond(s: State, o: Options, cancel: bool, lease: Lease, elapsed: real, wallNow: real, at: Readings): State
    requires s.inFlight > 0
  {
    var done := s.(inFlight := s.inFlight - 1);
    if s.stopped then done
    else if cancel then Lose(done)
    else
      var confirmed := Renewed(done, o, lease, elapsed, wallNow, at);
      if confirmed.stopped then confirmed else Schedule(confirmed, o.interval, at.scheduled)
  }

  /** The renewal is confirmed, and then the receiver of the new lease throws: the lease holds, and
      the renewal counts as the first failure since. */
  function Break(s: State, o: Options, lease: Lease, elapsed: real, wallNow: real, at: Readings, terminal: bool, random: real): State
    requires s.inFlight > 0
  {
    var done := s.(inFlight := s.inFlight - 1);
    if s.stopped then done else Failed(Renewed(done, o, lease, elapsed, wallNow, at), terminal, random, at.scheduled)
  }

  function Fail(s: State, terminal: bool, random: real, now: real): State
    requires s.inFlight > 0
  {
    Failed(s.(inFlight := s.inFlight - 1), terminal, random, now)
  }

  /** The state after an event; one that cannot happen changes nothing. */
  function Step(s: State, o: Options, e: Event): State
  {
    match e
    case TimerFires(now) => if s.timer.None? || now < s.timer.value then s else Tick(s.(timer := None), now)
    case ExpiryFires(now) => if s.expiry.None? || now < s.expiry.value then s else Lose(s.(expiry := None))
    case Responds(cancel, lease, elapsed, wallNow, at) =>
      if s.inFlight == 0 then s else Respond(s, o, cancel, lease, elapsed, wallNow, at)
    case Breaks(lease, elapsed, wallNow, at, terminal, random) =>
      if s.inFlight == 0 then s else Break(s, o, lease, elapsed, wallNow, at, terminal, random)
    case Fails(terminal, random, now) => if s.inFlight == 0 then s else Fail(s, terminal, random, now)
    case ExecutionAborts => Stop(s.(aborted := true))
    case Stops => Stop(s)
  }

  function Run(s: State, o: Options, events: seq<Event>): State
    decreases |events|
  {
    if events == [] then s else Run(Step(s, o, events[0]), o, events[1..])
  }

  // ---------------------------------------------------------------------------------------
  // Never idle, never two renewals

  /** While it runs, the deadline is armed and either the next renewal is scheduled or exactly
      one is in flight; once stopped, nothing is pending but a renewal that was in flight. */
  predicate Valid(s: State)
  {
    && s.inFlight <= 1
    && (s.aborted ==> s.stopped)
    && (!s.stopped ==> s.expiry.Some? && (s.timer.Some? <==> s.inFlight == 0))
    && (s.stopped ==> s.timer.None? && s.expiry.None?)
  }

  lemma {:induction false} RunIsValid(s: State, o: Options, events: seq<Event>)
    requires Valid(s)
    ensures Valid(Run(s, o, events))
    ensures s.stopped ==> Run(s, o, events).stopped
    ensures s.aborted ==> Run(s, o, events).aborted
    decreases |events|
  {
    if events != [] {
      StepIsValid(s, o, events[0]);
      RunIsValid(Step(s, o, events[0]), o, events[1..]);
    }
  }

  lemma StepIsValid(s: State, o: Options, e: Event)
    requires Valid(s)
    ensures var t := Step(s, o, e); Valid(t) && (s.stopped ==> t.stopped) && (s.aborted ==> t.aborted)
  {
  }

  // ---------------------------------------------------------------------------------------
  // Conservative deadlines

  /** The server clock runs at the rate of the monotonic clock, `offset` ahead of it. */
  function ServerClock(offset: real, monotonic: real): real { monotonic + offset }

  /** The response is stamped, its age is a true bound, and its deadline is armed at most `drift`
      after its age was measured. */
  predicate TrueStamp(offset: real, drift: real, lease: Lease, elapsed: real, at: Readings)
  {
    && lease.expiresAt.Ms? && lease.serverTime.Some? && lease.serverTime.value.Ms?
    && ServerClock(offset, at.measured) <= lease.serverTime.value.value + elapsed
    && at.armed - at.measured <= drift
  }

  predicate TrueEvent(offset: real, drift: real, e: Event)
  {
    (e.Responds? && !e.cancel) || e.Breaks? ==> TrueStamp(offset, drift, e.lease, e.elapsed, e.at)
  }

  /** The armed deadline comes at the latest the safety margin before the lease ends, up to the drift. */
  predicate Conservative(offset: real, drift: real, o: Options, s: State)
  {
    !s.stopped ==> s.expiry.Some? && s.leaseEnd.Ms?
                   && ServerClock(offset, s.expiry.value) <= s.leaseEnd.value - o.safety + drift
  }

  lemma StartIsConservative(offset: real, drift: real, o: Options, aborted: bool, lease: Lease, elapsed: real,
                            wallNow: real, at: Readings)
    requires TrueStamp(offset, drift, lease, elapsed, at)
    ensures Conservative(offset, drift, o, Start(o, aborted, lease, elapsed, wallNow, at))
  {
  }

  lemma StepIsConservative(offset: real, drift: real, o: Options, s: State, e: Event)
    requires Valid(s) && Conservative(offset, drift, o, s) && TrueEvent(offset, drift, e)
    ensures Conservative(offset, drift, o, Step(s, o, e))
  {
  }

  lemma {:induction false} RunIsConservative(offset: real, drift: real, o: Options, s: State, events: seq<Event>)
    requires Valid(s) && Conservative(offset, drift, o, s)
    requires forall e :: e in events ==> TrueEvent(offset, drift, e)
    ensures Conservative(offset, drift, o, Run(s, o, events))
    decreases |events|
  {
    if events != [] {
      StepIsValid(s, o, events[0]);
      StepIsConservative(offset, drift, o, s, events[0]);
      RunIsConservative(offset, drift, o, Step(s, o, events[0]), events[1..]);
    }
  }

  // ---------------------------------------------------------------------------------------
  // Losing the lease aborts the execution

  lemma {:induction false} RunStopsExactlyWhen(s: State, o: Options, events: seq<Event>)
    requires Valid(s)
    ensures Run(s, o, events).stopped && !s.stopped ==> Run(s, o, events).aborted || Stops in events
    ensures Stops in events ==> Run(s, o, events).stopped
    decreases |events|
  {
    if events != [] {
      StepIsValid(s, o, events[0]);
      RunStopsExactlyWhen(Step(s, o, events[0]), o, events[1..]);
      RunIsValid(Step(s, o, events[0]), o, events[1..]);
    }
  }

  /** From its construction on and over any run: a supervisor that has stopped has aborted the
      execution, unless it was told to stop; and one that has aborted it has stopped. */
  lemma StoppedMeansAborted(o: Options, aborted: bool, lease: Lease, elapsed: real, wallNow: real, at: Readings,
                            events: seq<Event>)
    ensures var s := Run(Start(o, aborted, lease, elapsed, wallNow, at), o, events);
      s.stopped <==> s.aborted || Stops in events
  {
    var first := Start(o, aborted, lease, elapsed, wallNow, at);
    RunStopsExactlyWhen(first, o, events);
    RunIsValid(first, o, events);
  }

  /** A lease that is confirmed with less than the safety margin left, or with no number. */
  predicate TooShort(o: Options, lease: Lease, elapsed: real, wallNow: real)
  {
    var left := Duration(WithConservativeDuration(lease, elapsed), wallNow);
    left.NotANumber? || left.value <= o.safety
  }

  /** A running execution is aborted exactly by a due deadline, a renewal begun when the safe time is
      over, a cancellation, a terminal failure, a lease that is too short, or from outside. */
  lemma AbortsExactlyWhen(s: State, o: Options, e: Event)
    requires Valid(s) && !s.stopped
    ensures Step(s, o, e).aborted <==> match e
      case TimerFires(now) => s.inFlight == 0 && s.timer.value <= now && s.safeUntil <= now
      case ExpiryFires(now) => s.expiry.value <= now
      case Responds(cancel, lease, elapsed, wallNow, at) =>
        s.inFlight == 1 && (cancel || TooShort(o, lease, elapsed, wallNow))
      case Breaks(lease, elapsed, wallNow, at, terminal, random) =>
        s.inFlight == 1 && (terminal || TooShort(o, lease, elapsed, wallNow))
      case Fails(terminal, random, now) => s.inFlight == 1 && terminal
      case ExecutionAborts => true
      case Stops => false
  {
  }

  /** From its construction on and over any run: as long as the execution has not been aborted, the
      supervisor was not told to stop, and its due timers have fired, the server clock is before the
      end of the confirmed lease by more than the safety margin, give or take the drift between the
      clock readings. */
  lemma RunningMeansUnexpired(offset: real, drift: real, o: Options, lease: Lease, elapsed: real, wallNow: real,
                              at: Readings, events: seq<Event>, now: real)
    requires TrueStamp(offset, drift, lease, elapsed, at)
    requires forall e :: e in events ==> TrueEvent(offset, drift, e)
    requires var s := Run(Start(o, false, lease, elapsed, wallNow, at), o, events);
      !s.aborted && Stops !in events && (s.expiry.Some? ==> now < s.expiry.value)
    ensures var s := Run(Start(o, false, lease, elapsed, wallNow, at), o, events);
      && s.leaseEnd.Ms? && ServerClock(offset, now) < s.leaseEnd.value - o.safety + drift
      && s.expiry.Some? && s.inFlight <= 1 && (s.timer.Some? <==> s.inFlight == 0)
  {
    var first := Start(o, false, lease, elapsed, wallNow, at);
    StartIsConservative(offset, drift, o, false, lease, elapsed, wallNow, at);
    StoppedMeansAborted(o, false, lease, elapsed, wallNow, at, events);
    RunIsValid(first, o, events);
    RunIsConservative(offset, drift, o, first, events);
  }

  /** Without a server stamp the deadline rests on the local wall clock: it is conservative exactly
      when that clock is not behind the server, or a whole minute of the lease is left. */
  lemma UnstampedDeadlineConservativeExactlyWhen(offset: real, o: Options, s: State, lease: Lease, wallNow: real,
                                                 at: Readings)
    requires !s.stopped && lease.serverTime.None? && lease.duration.None? && lease.expiresAt.Ms?
    requires !Confirm(s, o, lease, wallNow, at).stopped
    ensures Conservative(offset, 0.0, o, Confirm(s, o, lease, wallNow, at))
       <==> ServerClock(offset, at.armed) <= wallNow || ServerClock(offset, at.armed) + 60_000.0 <= lease.expiresAt.value
  {
  }

  /** The deadline of a confirmed lease: what is left of it on arrival (as the client worked out, else
      from its stamp, else by the wall clock and at most a minute), less the safety margin. */
  lemma ConfirmedUntil(s: State, o: Options, lease: Lease, wallNow: real, at: Readings)
    requires !s.stopped && lease.expiresAt.Ms?
    requires lease.duration.Some? ==> lease.duration.value.Ms?
    requires lease.serverTime.Some? ==> lease.serverTime.value.Ms?
    ensures var left := if lease.duration.Some? then lease.duration.value.value
                        else if lease.serverTime.Some? then lease.expiresAt.value - lease.serverTime.value.value
                        else if lease.expiresAt.value < wallNow + 60_000.0 then lease.expiresAt.value - wallNow
                        else 60_000.0;
      var t := Confirm(s, o, lease, wallNow, at);
      if left <= o.safety then t.stopped && t.aborted
      else t == s.(safeUntil := at.confirmed + (left - o.safety), expiry := Some(at.armed + (left - o.safety)),
                   leaseEnd := lease.expiresAt)
  {
  }

  /** How the renewals follow each other: after a confirmed one comes the next after the interval, or
      at once when the safe time would be over before. */
  lemma NextAfterInterval(s: State, o: Options, lease: Lease, elapsed: real, wallNow: real, at: Readings)
    requires Valid(s) && s.inFlight == 1 && !s.stopped
    ensures var t := Respond(s, o, false, lease, elapsed, wallNow, at);
      !t.stopped ==>
        && t.failures == 0 && t.inFlight == 0
        && t.timer == Some(if at.scheduled + o.interval <= t.safeUntil then at.scheduled + o.interval
                           else if at.scheduled <= t.safeUntil then t.safeUntil else at.scheduled)
  {
  }

  /** The delay of a retry doubles with each failure in a row, from one second to four, give or take a
      fifth. */
  lemma RetryDelayDoubles(failures: nat, random: real)
    requires failures > 0
    ensures RetryDelay(1, random) == 800.0 + 400.0 * random
    ensures RetryDelay(failures + 1, random)
         == if failures < 3 then 2.0 * RetryDelay(failures, random) else RetryDelay(failures, random)
  {
  }

  /** What counts as a failure in a row: each one since the last confirmed renewal. */
  lemma FailuresInARow(s: State, o: Options, e: Event)
    requires Valid(s) && !s.stopped && !Step(s, o, e).stopped
    ensures Step(s, o, e).failures == match e
      case Responds(_, _, _, _, _) => if s.inFlight == 1 then 0 else s.failures
      case Breaks(_, _, _, _, _, _) => if s.inFlight == 1 then 1 else s.failures
      case Fails(_, _, _) => if s.inFlight == 1 then s.failures + 1 else s.failures
      case _ => s.failures
  {
  }

  lemma StartsWithoutFailures(o: Options, aborted: bool, lease: Lease, elapsed: real, wallNow: real, at: Readings)
    ensures Start(o, aborted, lease, elapsed, wallNow, at).failures == 0
  {
  }

  /** A stopped supervisor only waits for a renewal in flight: it does not abort an execution that was
      not aborted, and counts nothing. */
  lemma StoppedIsInert(s: State, o: Options, e: Event)
    requires Valid(s) && s.stopped
    ensures Step(s, o, e) == s.(aborted := s.aborted || e.ExecutionAborts?,
                                inFlight := if e.Responds? || e.Breaks? || e.Fails? then 0 else s.inFlight)
  {
  }

  /** A failed renewal is tried again after 0.8 to 4.8 seconds, and not past the safe time. */
  lemma RetriesSoon(s: State, random: real, now: real)
    requires Valid(s) && !s.stopped && s.inFlight == 1 && 0.0 <= random < 1.0 && now <= s.safeUntil
    ensures var t := Fail(s, false, random, now);
      && t.timer.Some? && Min(now + 800.0, s.safeUntil) <= t.timer.value <= Min(now + 4_800.0, s.safeUntil)
  {
  }

  /** A receiver that throws does not undo the renewal: the confirmed lease ends as it would have,
      and the next renewal comes at most 1.2 seconds later, and not past the safe time. */
  lemma BreakingKeepsLease(s: State, o: Options, lease: Lease, elapsed: real, wallNow: real, at: Readings, random: real)
    requires Valid(s) && !s.stopped && s.inFlight == 1 && 0.0 <= random < 1.0
    ensures var t := Break(s, o, lease, elapsed, wallNow, at, false, random);
      var u := Respond(s, o, false, lease, elapsed, wallNow, at);
      && t.stopped == u.stopped && t.aborted == u.aborted && t.expiry == u.expiry && t.safeUntil == u.safeUntil
      && t.leaseEnd == u.leaseEnd && t.inFlight == u.inFlight
      && (!t.stopped && at.scheduled <= t.safeUntil ==>
            t.timer.Some? && t.timer.value < at.scheduled + 1_200.0 && t.timer.value <= t.safeUntil)
  {
  }

  // ---------------------------------------------------------------------------------------
  // The supervisor itself

  class LeaseSupervisor {
    var stopped: bool
    var aborted: bool
    var safeUntil: real
    var failures: nat
    var timer: Option<real>
    var expiryTimer: Option<real>
    var inFlight: nat
    ghost var leaseEnd: Millis
    const options: Options

    ghost function Now(): State
      reads this
    {
      State(stopped, aborted, safeUntil, failures, timer, expiryTimer, inFlight, leaseEnd)
    }

    constructor (options: Options, aborted: bool, lease: Lease, elapsed: real, wallNow: real, at: Readings)
      ensures this.options == options
      ensures Now() == Start(options, aborted, lease, elapsed, wallNow, at)
    {
      this.options, this.aborted := options, aborted;
      stopped, safeUntil, failures, timer, expiryTimer, inFlight, leaseEnd := false, 0.0, 0, None, None, 0, NotANumber;
      new;
      if aborted {
        StopNow();
        return;
      }
      ConfirmLease(WithConservativeDuration(lease, elapsed), wallNow, at);
      if !this.aborted {
        ScheduleRenewal(options.interval, at.scheduled);
      }
    }

    method StopNow()
      modifies this
      ensures Now() == Stop(old(Now()))
    {
      stopped := true;
      timer := None;
      expiryTimer := None;
    }

    method LoseLease()
      modifies this
      ensures Now() == Lose(old(Now()))
    {
      if stopped {
        return;
      }
      aborted := true;
      StopNow();
    }

    method ConfirmLease(lease: Lease, wallNow: real, at: Readings)
      modifies this
      ensures Now() == Confirm(old(Now()), options, lease, wallNow, at)
    {
      leaseEnd := lease.expiresAt;
      var duration := Duration(lease, wallNow);
      expiryTimer := None;
      if duration.NotANumber? {
        LoseLease();
        return;
      }
      safeUntil := at.confirmed + Max(0.0, duration.value - options.safety);
      if duration.value <= options.safety {
        LoseLease();
        return;
      }
      expiryTimer := Some(at.armed + (duration.value - options.safety));
    }

    method ScheduleRenewal(delay: real, now: real)
      modifies this
      ensures Now() == Schedule(old(Now()), delay, now)
    {
      if stopped || aborted {
        return;
      }
      timer := Some(now + Min(delay, Max(0.0, safeUntil - now)));
    }

    /** The renewal timer fires. */
    method OnTimer(now: real)
      requires timer.Some? && timer.value <= now
      modifies this
      ensures Now() == Step(old(Now()), options, TimerFires(now))
    {
      timer := None;
      if stopped || aborted {
        return;
      }
      if safeUntil - now <= 0.0 {
        LoseLease();
        return;
      }
      inFlight := inFlight + 1;
    }

    method OnExpiry(now: real)
      requires expiryTimer.Some? && expiryTimer.value <= now
      modifies this
      ensures Now() == Step(old(Now()), options, ExpiryFires(now))
    {
      expiryTimer := None;
      LoseLease();
    }

    method OnResponse(cancel: bool, lease: Lease, elapsed: real, wallNow: real, at: Readings)
      requires inFlight > 0
      modifies this
      ensures Now() == Step(old(Now()), options, Responds(cancel, lease, elapsed, wallNow, at))
    {
      inFlight := inFlight - 1;
      if stopped {
        return;
      }
      if cancel {
        LoseLease();
        return;
      }
      failures := 0;
      ConfirmLease(WithConservativeDuration(lease, elapsed), wallNow, at);
      if stopped {
        return;
      }
      ScheduleRenewal(options.interval, at.scheduled);
    }

    /** The renewal succeeds, but the receiver of the new lease throws. */
    method OnBrokenResponse(lease: Lease, elapsed: real, wallNow: real, at: Readings, terminal: bool, random: real)
      requires inFlight > 0
      modifies this
      ensures Now() == Step(old(Now()), options, Breaks(lease, elapsed, wallNow, at, terminal, random))
    {
      inFlight := inFlight - 1;
      if stopped {
        return;
      }
      failures := 0;
      ConfirmLease(WithConservativeDuration(lease, elapsed), wallNow, at);
      if stopped {
        return;
      }
      failures := failures + 1;
      if terminal {
        LoseLease();
        return;
      }
      ScheduleRenewal(RetryDelay(failures, random), at.scheduled);
    }

    /** The renewal is refused, breaks, or times out. */
    method OnFailure(terminal: bool, random: real, now: real)
      requires inFlight > 0
      modifies this
      ensures Now() == Step(old(Now()), options, Fails(terminal, random, now))
    {
      inFlight := inFlight - 1;
      if stopped {
        return;
      }
      failures := failures + 1;
      if terminal {
        LoseLease();
        return;
      }
      ScheduleRenewal(RetryDelay(failures, random), now);
    }
  }
}
