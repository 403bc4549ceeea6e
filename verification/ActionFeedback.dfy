/** The bounded log of network requests after an action: what a snapshot reports, and when it may
    call its report complete. */
module ActionFeedback {
  import opened Wrappers

  type PageId = nat
  type RequestObject = nat

  const LOG_LIMIT := 200
  const LISTED := 8
  const MAX_BYTES := 12 * 1024

  /** What matters of a response: whether its body is still awaited, cut or left out. */
  datatype Response = Response(bodyPending: bool, truncated: bool, responseOmitted: bool, requestOmitted: bool)

  datatype Entry = Entry(sequence: nat, page: PageId, longMetadata: bool, response: Option<Response>)
  {
    predicate Clean()
    {
      response.Some? && !response.value.bodyPending && !longMetadata && !response.value.truncated
      && !response.value.responseOmitted && !response.value.requestOmitted
    }
  }

  datatype Action = Action(commandId: nat, page: PageId, after: nat, inputCompleted: bool)

  /** `all` is every request ever, with its response; the tracker itself keeps only `entries`. */
  datatype State = State(
    sequence: nat, requests: map<RequestObject, nat>, entries: seq<Entry>, action: Option<Action>, all: seq<Entry>)

  datatype Event =
    | Begins(commandId: nat, page: PageId)
    | Completes(commandId: nat)
    | Requests(request: RequestObject, page: PageId, longMetadata: bool)
    | Answers(request: RequestObject, response: Response)

  const EMPTY := State(0, map[], [], None, [])

  /** The log after one more entry: the oldest goes beyond the limit. */
  function Append(entries: seq<Entry>, e: Entry): seq<Entry>
  {
    var longer := entries + [e];
    if |longer| > LOG_LIMIT then longer[1..] else longer
  }

  function Answered(entries: seq<Entry>, sequence: nat, response: Response): (r: seq<Entry>)
    ensures |r| == |entries|
    ensures forall i :: 0 <= i < |r| ==>
              r[i] == if entries[i].sequence == sequence then entries[i].(response := Some(response)) else entries[i]
  {
    seq(|entries|, i requires 0 <= i < |entries| =>
      if entries[i].sequence == sequence then entries[i].(response := Some(response)) else entries[i])
  }

  function Step(s: State, e: Event): State
  {
    match e
    case Begins(commandId, page) => s.(action := Some(Action(commandId, page, s.sequence, false)))
    case Completes(commandId) =>
      if s.action.Some? && s.action.value.commandId == commandId
      then s.(action := Some(s.action.value.(inputCompleted := true))) else s
    case Requests(request, page, longMetadata) =>
      var entry := Entry(s.sequence + 1, page, longMetadata, None);
      s.(sequence := s.sequence + 1, requests := s.requests[request := s.sequence + 1],
         entries := Append(s.entries, entry), all := s.all + [entry])
    case Answers(request, response) =>
      if request !in s.requests then s
      else s.(entries := Answered(s.entries, s.requests[request], response),
              all := Answered(s.all, s.requests[request], response))
  }

  function Run(s: State, events: seq<Event>): State
    decreases |events|
  {
    if events == [] then s else Run(Step(s, events[0]), events[1..])
  }

  /** Requests are numbered without gaps, and the log is the latest of them. */
  ghost predicate Valid(s: State)
  {
    && |s.all| == s.sequence
    && (forall i :: 0 <= i < |s.all| ==> s.all[i].sequence == i + 1)
    && |s.entries| == (if s.sequence <= LOG_LIMIT then s.sequence else LOG_LIMIT)
    && (forall i :: 0 <= i < |s.entries| ==> s.entries[i] == s.all[s.sequence - |s.entries| + i])
    && (s.action.Some? ==> s.action.value.after <= s.sequence)
    && (forall r :: r in s.requests ==> 1 <= s.requests[r] <= s.sequence)
    && (forall q, r :: q in s.requests && r in s.requests && s.requests[q] == s.requests[r] ==> q == r)
  }

  lemma StepIsValid(s: State, e: Event)
    requires Valid(s)
    ensures Valid(Step(s, e))
  {
    if e.Requests? {
      RequestIsValid(s, e);
    } else {
      hide Append;
    }
  }

  lemma RequestIsValid(s: State, e: Event)
    requires Valid(s) && e.Requests?
    ensures Valid(Step(s, e))
  {
    var t := Step(s, e);
    assert forall i :: 0 <= i < |t.entries| ==> t.entries[i] == t.all[t.sequence - |t.entries| + i];
  }

  lemma {:induction false} RunIsValid(s: State, events: seq<Event>)
    requires Valid(s)
    ensures Valid(Run(s, events))
    decreases |events|
  {
    if events != [] {
      StepIsValid(s, events[0]);
      RunIsValid(Step(s, events[0]), events[1..]);
    }
  }

  // ---------------------------------------------------------------------------------------
  // Snapshots

  /** The entries of the page after a sequence number, among the first `n`. */
  function Since(entries: seq<Entry>, page: PageId, after: nat, n: nat): (r: seq<Entry>)
    requires n <= |entries|
    ensures |r| <= n
  {
    if n == 0 then []
    else
      var before := Since(entries, page, after, n - 1);
      if entries[n - 1].page == page && entries[n - 1].sequence > after then before + [entries[n - 1]] else before
  }

  function Last(entries: seq<Entry>, n: nat): seq<Entry>
  {
    if |entries| <= n then entries else entries[|entries| - n..]
  }

  datatype Feedback = Feedback(action: Action, requests: seq<Entry>, incomplete: bool, pending: bool)

  type Size = Feedback -> nat

  predicate Flawed(requests: seq<Entry>) { exists i :: 0 <= i < |requests| && !requests[i].Clean() }

  predicate Pending(requests: seq<Entry>)
  {
    exists i :: 0 <= i < |requests| && (requests[i].response.None? || requests[i].response.value.bodyPending)
  }

  /** The oldest listed requests go until the feedback fits. */
  function Fitted(f: Feedback, size: Size): (r: Feedback)
    ensures size(r) <= MAX_BYTES || r.requests == []
    ensures r == f || r.incomplete
    decreases |f.requests|
  {
    if size(f) > MAX_BYTES && f.requests != []
    then Fitted(f.(requests := f.requests[1..], incomplete := true), size)
    else f
  }

  function FirstFeedback(s: State, action: Action): Feedback
  {
    var since := Since(s.entries, action.page, action.after, |s.entries|);
    var listed := Last(since, LISTED);
    var first := if s.entries == [] then 0 else s.entries[0].sequence;
    Feedback(action, listed,
             since == [] || |since| > LISTED || first > action.after + 1 || Flawed(listed), Pending(listed))
  }

  function Snapshot(s: State, page: PageId, size: Size): Option<Feedback>
  {
    if s.action.None? || s.action.value.page != page then None
    else Some(Fitted(FirstFeedback(s, s.action.value), size))
  }

  /** The log misses nothing after a number it still reaches back to. */
  lemma {:induction false} LogReachesBack(s: State, page: PageId, after: nat, n: nat)
    requires Valid(s) && s.sequence - |s.entries| <= after && n <= |s.entries|
    ensures var lost := s.sequence - |s.entries|;
      Since(s.entries, page, after, n) == Since(s.all, page, after, lost + n)
  {
    var lost := s.sequence - |s.entries|;
    if n == 0 {
      NothingBefore(s.all, page, after, lost);
    } else {
      LogReachesBack(s, page, after, n - 1);
    }
  }

  lemma {:induction false} NothingBefore(entries: seq<Entry>, page: PageId, after: nat, n: nat)
    requires n <= |entries| && forall i :: 0 <= i < n ==> entries[i].sequence <= after
    ensures Since(entries, page, after, n) == []
  {
    if n > 0 {
      NothingBefore(entries, page, after, n - 1);
    }
  }

  /** A snapshot claims complete coverage exactly when, of all requests ever made on the page since
      the action, there are one to eight, each has its full response, no request since the action
      has left the log, and the whole report fits; it then lists exactly those requests. */
  lemma CompleteExactlyWhen(s: State, page: PageId, size: Size)
    requires Valid(s) && Snapshot(s, page, size).Some?
    ensures var f := Snapshot(s, page, size).value;
      var action := s.action.value;
      var since := Since(s.all, page, action.after, |s.all|);
      && (!f.incomplete <==>
          (1 <= |since| <= LISTED && s.sequence - action.after <= LOG_LIMIT
           && (forall i :: 0 <= i < |since| ==>
                 since[i].response.Some? && !since[i].longMetadata
                 && var r := since[i].response.value;
                    !r.bodyPending && !r.truncated && !r.responseOmitted && !r.requestOmitted)
           && size(Feedback(action, since, false, false)) <= MAX_BYTES))
      && (!f.incomplete ==> f.requests == since && !f.pending && f.action == action)
  {
    var action := s.action.value;
    var first := FirstFeedback(s, action);
    var kept := s.sequence - |s.entries| <= action.after;
    if kept {
      LogReachesBack(s, page, action.after, |s.entries|);
    }
    assert s.sequence - action.after <= LOG_LIMIT <==> kept;
  }

  /** From an empty tracker, over any run of events. */
  lemma CompleteOverAnyRun(events: seq<Event>, page: PageId, size: Size)
    requires var s := Run(EMPTY, events);
      Snapshot(s, page, size).Some? && !Snapshot(s, page, size).value.incomplete
    ensures var s := Run(EMPTY, events);
      var f := Snapshot(s, page, size).value;
      && f.requests == Since(s.all, page, s.action.value.after, |s.all|) && f.requests != []
      && forall i :: 0 <= i < |f.requests| ==>
           f.requests[i].page == page && f.requests[i].sequence > s.action.value.after
           && f.requests[i].response == Some(Response(false, false, false, false)) && !f.requests[i].longMetadata
  {
    RunIsValid(EMPTY, events);
    var s := Run(EMPTY, events);
    CompleteExactlyWhen(s, page, size);
    SinceMeans(s.all, page, s.action.value.after, |s.all|);
  }

  lemma {:induction false} SinceMeans(entries: seq<Entry>, page: PageId, after: nat, n: nat)
    requires n <= |entries|
    ensures var r := Since(entries, page, after, n);
      && (forall i :: 0 <= i < |r| ==> r[i].page == page && r[i].sequence > after)
      && forall i :: 0 <= i < n && entries[i].page == page && entries[i].sequence > after ==> entries[i] in r
  {
    if n > 0 {
      SinceMeans(entries, page, after, n - 1);
    }
  }

  /** There is a report for the page of the last action only. It lists the latest of the requests that
      the log still has, at most eight and fewer only to fit, and says that something is pending if one
      of the latest eight has no response or an unfinished body. */
  lemma ReportsLatest(s: State, page: PageId, size: Size)
    ensures Snapshot(s, page, size).Some? <==> s.action.Some? && s.action.value.page == page
    ensures Snapshot(s, page, size).Some? ==>
      var f := Snapshot(s, page, size).value;
      var since := Since(s.entries, page, s.action.value.after, |s.entries|);
      var most := if |since| < 8 then |since| else 8;
      && f.action == s.action.value
      && |f.requests| <= most && f.requests == since[|since| - |f.requests|..]
      && ((forall g: Feedback :: size(g) <= MAX_BYTES) ==> |f.requests| == most)
      && (f.pending <==> exists i :: |since| - most <= i < |since|
                                     && (since[i].response.None? || since[i].response.value.bodyPending))
  {
    if Snapshot(s, page, size).Some? {
      FittedIsSuffix(FirstFeedback(s, s.action.value), size);
      var since := Since(s.entries, page, s.action.value.after, |s.entries|);
      assert Last(since, LISTED) == since[|since| - |Last(since, LISTED)|..];
    }
  }

  lemma {:induction false} FittedIsSuffix(f: Feedback, size: Size)
    ensures var r := Fitted(f, size);
      && |r.requests| <= |f.requests| && r.requests == f.requests[|f.requests| - |r.requests|..]
      && r.pending == f.pending && r.action == f.action && (size(f) <= MAX_BYTES ==> r == f)
    decreases |f.requests|
  {
    if size(f) > MAX_BYTES && f.requests != [] {
      FittedIsSuffix(f.(requests := f.requests[1..], incomplete := true), size);
    }
  }

  // ---------------------------------------------------------------------------------------
  // What a report is about

  function RequestCount(events: seq<Event>): nat
  {
    if events == [] then 0 else RequestCount(events[..|events| - 1]) + if events[|events| - 1].Requests? then 1 else 0
  }

  lemma {:induction false} RunInParts(s: State, events: seq<Event>, n: nat)
    requires n <= |events|
    ensures Run(s, events) == Run(Run(s, events[..n]), events[n..])
    decreases |events|
  {
    hide Step;
    if n > 0 {
      assert events[..n][0] == events[0] && events[..n][1..] == events[1..][..n - 1] && events[1..][n - 1..] == events[n..];
      RunInParts(Step(s, events[0]), events[1..], n - 1);
    } else {
      assert events[..0] == [] && events[0..] == events;
    }
  }

  lemma RunLast(s: State, events: seq<Event>)
    requires events != []
    ensures Run(s, events) == Step(Run(s, events[..|events| - 1]), events[|events| - 1])
  {
    var n := |events| - 1;
    RunInParts(s, events, n);
    assert events[n..] == [events[n]] && [events[n]][1..] == [];
  }

  lemma {:induction false} RunCounts(events: seq<Event>)
    ensures Run(EMPTY, events).sequence == RequestCount(events)
    decreases |events|
  {
    if events != [] {
      RunCounts(events[..|events| - 1]);
      RunLast(EMPTY, events);
    }
  }

  /** The action reported on is the last that began, with the requests made before it, and its input
      counts as completed exactly if that was said of its command since then. */
  lemma {:induction false} ActionIsLastBegun(events: seq<Event>, k: nat)
    requires k < |events| && events[k].Begins? && forall j :: k < j < |events| ==> !events[j].Begins?
    ensures var b := events[k];
      Run(EMPTY, events).action
      == Some(Action(b.commandId, b.page, RequestCount(events[..k]),
                     exists j :: k < j < |events| && events[j] == Completes(b.commandId)))
    decreases |events|
  {
    RunLast(EMPTY, events);
    var n := |events| - 1;
    var before := events[..n];
    assert before[..if k < n then k else n] == events[..k];
    if k < n {
      ActionIsLastBegun(before, k);
      assert forall j :: k < j < n ==> before[j] == events[j];
    } else {
      RunCounts(before);
    }
  }

  /** The request object still stands for request number `q`, whose entry this is. */
  predicate Stands(s: State, request: RequestObject, q: nat, e: Entry)
  {
    1 <= q <= |s.all| && request in s.requests && s.requests[request] == q && s.all[q - 1] == e
  }

  /** A response reaches the entry of the latest request made with its object, and stays there until
      there is another for it. */
  lemma ResponseReachesRequest(events: seq<Event>, k: nat, m: nat)
    requires k < m < |events| && events[k].Requests? && events[m].Answers? && events[m].request == events[k].request
    requires forall j :: k < j < |events| ==> !(events[j].Requests? && events[j].request == events[k].request)
    requires forall j :: m < j < |events| ==> !(events[j].Answers? && events[j].request == events[k].request)
    ensures var q := RequestCount(events[..k]);
      var s := Run(EMPTY, events);
      q < |s.all| && s.all[q] == Entry(q + 1, events[k].page, events[k].longMetadata, Some(events[m].response))
  {
    var q := RequestCount(events[..k]) + 1;
    StandsSince(events, k, m);
    StandsAnswered(events, k, m, |events|);
    assert events[..|events|] == events;
  }

  lemma StaysStanding(s: State, e: Event, request: RequestObject, q: nat)
    requires Valid(s) && 1 <= q <= |s.all| && Stands(s, request, q, s.all[q - 1])
    requires !(e.Requests? && e.request == request)
    ensures var t := Step(s, e);
      q <= |t.all|
      && Stands(t, request, q, s.all[q - 1].(response := if e.Answers? && e.request == request then Some(e.response)
                                                         else s.all[q - 1].response))
  {
  }

  lemma StandsAtOnce(s: State, e: Event)
    requires Valid(s) && e.Requests?
    ensures Stands(Step(s, e), e.request, s.sequence + 1, Entry(s.sequence + 1, e.page, e.longMetadata, None))
  {
  }

  lemma {:induction false} StandsSince(events: seq<Event>, k: nat, n: nat)
    requires k < n <= |events| && events[k].Requests?
    requires forall j :: k < j < n ==> !(events[j].Requests? && events[j].request == events[k].request)
    ensures var q := RequestCount(events[..k]) + 1;
      var s := Run(EMPTY, events[..n]);
      && Valid(s) && q <= |s.all|
      && Stands(s, events[k].request, q, Entry(q, events[k].page, events[k].longMetadata, s.all[q - 1].response))
    decreases n
  {
    hide Run, Step, Valid, RequestCount, Stands;
    EmptyIsValid();
    RunIsValid(EMPTY, events[..n]);
    RunIsValid(EMPTY, events[..n - 1]);
    RunLast(EMPTY, events[..n]);
    assert events[..n][..n - 1] == events[..n - 1] && events[..n][n - 1] == events[n - 1];
    var before := Run(EMPTY, events[..n - 1]);
    if k < n - 1 {
      StandsSince(events, k, n - 1);
      var q := RequestCount(events[..k]) + 1;
      StandingEntry(before, events[k].request, q,
                    Entry(q, events[k].page, events[k].longMetadata, before.all[q - 1].response));
      StaysStanding(before, events[n - 1], events[k].request, q);
      StandingEntry(Run(EMPTY, events[..n]), events[k].request, q,
                    before.all[q - 1].(response := if events[n - 1].Answers? && events[n - 1].request == events[k].request
                                                   then Some(events[n - 1].response) else before.all[q - 1].response));
    } else {
      RunCounts(events[..k]);
      StandsAtOnce(before, events[k]);
      StandingEntry(Run(EMPTY, events[..n]), events[k].request, RequestCount(events[..k]) + 1,
                    Entry(RequestCount(events[..k]) + 1, events[k].page, events[k].longMetadata, None));
    }
  }

  lemma EmptyIsValid()
    ensures Valid(EMPTY)
  {
  }

  lemma StandingEntry(s: State, request: RequestObject, q: nat, e: Entry)
    requires Stands(s, request, q, e)
    ensures 1 <= q <= |s.all| && s.all[q - 1] == e
  {
  }

  lemma {:induction false} StandsAnswered(events: seq<Event>, k: nat, m: nat, n: nat)
    requires k < m < n <= |events| && events[k].Requests? && events[m].Answers? && events[m].request == events[k].request
    requires forall j :: k < j < n ==> !(events[j].Requests? && events[j].request == events[k].request)
    requires forall j :: m < j < n ==> !(events[j].Answers? && events[j].request == events[k].request)
    ensures var q := RequestCount(events[..k]) + 1;
      Stands(Run(EMPTY, events[..n]), events[k].request, q,
             Entry(q, events[k].page, events[k].longMetadata, Some(events[m].response)))
    decreases n
  {
    hide Run, Step, Valid, RequestCount, Stands;
    var q := RequestCount(events[..k]) + 1;
    RunLast(EMPTY, events[..n]);
    StandsSince(events, k, n - 1);
    assert events[..n][..n - 1] == events[..n - 1] && events[..n][n - 1] == events[n - 1];
    var before := Run(EMPTY, events[..n - 1]);
    if m < n - 1 {
      StandsAnswered(events, k, m, n - 1);
      StandingEntry(before, events[k].request, q,
                    Entry(q, events[k].page, events[k].longMetadata, Some(events[m].response)));
    } else {
      StandingEntry(before, events[k].request, q,
                    Entry(q, events[k].page, events[k].longMetadata, before.all[q - 1].response));
    }
    StaysStanding(before, events[n - 1], events[k].request, q);
  }

  // ---------------------------------------------------------------------------------------
  // The tracker itself

  class ActionFeedbackTracker {
    var sequence: nat
    var requests: map<RequestObject, nat>
    var entries: seq<Entry>
    var action: Option<Action>
    ghost var all: seq<Entry>

    ghost function Now(): State
      reads this
    {
      State(sequence, requests, entries, action, all)
    }

    constructor ()
      ensures Now() == EMPTY && Valid(Now())
    {
      sequence, requests, entries, action, all := 0, map[], [], None, [];
    }

    method Begin(commandId: nat, page: PageId)
      modifies this
      ensures Now() == Step(old(Now()), Begins(commandId, page))
    {
      action := Some(Action(commandId, page, sequence, false));
    }

    method Completed(commandId: nat)
      modifies this
      ensures Now() == Step(old(Now()), Completes(commandId))
    {
      if action.Some? && action.value.commandId == commandId {
        action := Some(action.value.(inputCompleted := true));
      }
    }

    method OnRequest(request: RequestObject, page: PageId, longMetadata: bool)
      modifies this
      ensures Now() == Step(old(Now()), Requests(request, page, longMetadata))
    {
      sequence := sequence + 1;
      var entry := Entry(sequence, page, longMetadata, None);
      requests := requests[request := sequence];
      entries := entries + [entry];
      all := all + [entry];
      if |entries| > LOG_LIMIT {
        entries := entries[1..];
      }
    }

    method OnResponse(request: RequestObject, response: Response)
      requires Valid(Now())
      modifies this
      ensures Now() == Step(old(Now()), Answers(request, response))
    {
      if request !in requests {
        return;
      }
      var answered := requests[request];
      all := Answered(all, answered, response);
      for i := 0 to |entries|
        invariant sequence == old(sequence) && requests == old(requests) && action == old(action)
        invariant all == Answered(old(all), answered, response) && |entries| == |old(entries)|
        invariant forall k :: 0 <= k < i ==> entries[k] == Answered(old(entries), answered, response)[k]
        invariant forall k :: i <= k < |entries| ==> entries[k] == old(entries)[k]
      {
        if entries[i].sequence == answered {
          entries := entries[i := entries[i].(response := Some(response))];
        }
      }
      assert entries == Answered(old(entries), answered, response);
    }

    method TakeSnapshot(page: PageId, size: Size) returns (feedback: Option<Feedback>)
      ensures feedback == Snapshot(Now(), page, size)
    {
      if action.None? || action.value.page != page {
        return None;
      }
      var since := Since(entries, action.value.page, action.value.after, |entries|);
      var listed := Last(since, LISTED);
      var first := if entries == [] then 0 else entries[0].sequence;
      var f := Feedback(action.value, listed,
                        since == [] || |since| > LISTED || first > action.value.after + 1 || Flawed(listed),
                        Pending(listed));
      ghost var initial := f;
      while size(f) > MAX_BYTES && f.requests != []
        invariant Fitted(f, size) == Fitted(initial, size)
        decreases |f.requests|
      {
        f := f.(requests := f.requests[1..], incomplete := true);
      }
      feedback := Some(f);
    }
  }
}
