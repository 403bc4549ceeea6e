/** The bounded prompt of a model decision: stored turn summaries, and the projection of one
    request trimmed until it fits. A turn is known by its number in the order of completion. */
module ModelContext {
  import opened Wrappers
  import opened ContextPolicy

  type Turn = nat
  type Item = nat
  type Page = Option<nat>
  type CallId = string

  /** Retention that passed its schema. */
  datatype RetentionFields = Retention(detailedTurns: nat, summaryTurns: nat)
  type Retention = r: RetentionFields | 1 <= r.detailedTurns <= 8 && r.summaryTurns <= 32 witness Retention(2, 12)

  // ---------------------------------------------------------------------------------------
  // Stored history

  datatype History = History(summaries: seq<Turn>, detailed: set<Turn>, compacted: nat)

  function Count<T(==)>(s: seq<T>, x: T): nat
  {
    if s == [] then 0 else Count(s[..|s| - 1], x) + if s[|s| - 1] == x then 1 else 0
  }

  predicate Distinct<T(==)>(s: seq<T>) { forall i, j :: 0 <= i < j < |s| ==> s[i] != s[j] }

  /** The calls of a message and the replies form one complete group. */
  predicate CompleteGroup(calls: seq<CallId>, replies: seq<CallId>)
  {
    Distinct(calls) && |calls| == |replies| && forall i :: 0 <= i < |calls| ==> Count(replies, calls[i]) == 1
  }

  /** Forget the details of all but the latest turns, then the oldest summaries. */
  function Complete(h: History, turn: Turn, retention: Retention): History
  {
    var summaries := h.summaries + [turn];
    var detailed := h.detailed + {turn};
    var undetailed := if |summaries| > retention.detailedTurns then summaries[..|summaries| - retention.detailedTurns] else [];
    var kept := retention.detailedTurns + retention.summaryTurns;
    var excess := if |summaries| > kept then |summaries| - kept else 0;
    History(summaries[excess..], (set t | t in detailed && t !in undetailed), h.compacted + excess)
  }

  function Recovered(h: History): History
  {
    var excess := if |h.summaries| > 1 then |h.summaries| - 1 else 0;
    History(h.summaries[excess..], (set t | t in h.detailed && t !in h.summaries[..excess]), h.compacted + excess)
  }

  /** Kept plus compacted turns are all turns completed; the kept ones are the latest, and the
      detailed ones the latest of those. */
  ghost predicate Stored(h: History, retention: Retention, completed: nat)
  {
    && h.compacted + |h.summaries| == completed
    && |h.summaries| <= retention.detailedTurns + retention.summaryTurns
    && (forall i :: 0 <= i < |h.summaries| ==> h.summaries[i] == h.compacted + i)
    && (forall t :: t in h.detailed <==> h.compacted <= t < completed && t >= completed - retention.detailedTurns)
  }

  datatype Event = Completing(calls: seq<CallId>, replies: seq<CallId>) | Recovering

  function Step(h: History, completed: nat, e: Event, retention: Retention): (History, nat)
  {
    match e
    case Completing(calls, replies) =>
      if CompleteGroup(calls, replies) then (Complete(h, completed, retention), completed + 1) else (h, completed)
    case Recovering => (Recovered(h), completed)
  }

  function Run(h: History, completed: nat, events: seq<Event>, retention: Retention): (History, nat)
    decreases |events|
  {
    if events == [] then (h, completed)
    else
      var next := Step(h, completed, events[0], retention);
      Run(next.0, next.1, events[1..], retention)
  }

  lemma StepStores(h: History, completed: nat, e: Event, retention: Retention)
    requires Stored(h, retention, completed)
    ensures var next := Step(h, completed, e, retention); Stored(next.0, retention, next.1)
  {
    hide CompleteGroup;
    if e.Recovering? {
      RecoveryStores(h, completed, retention);
    } else {
      CompletionStores(h, completed, retention);
    }
  }

  lemma RecoveryStores(h: History, completed: nat, retention: Retention)
    requires Stored(h, retention, completed)
    ensures Stored(Recovered(h), retention, completed)
  {
    var excess := if |h.summaries| > 1 then |h.summaries| - 1 else 0;
    forall t ensures t in h.summaries[..excess] <==> h.compacted <= t < h.compacted + excess {
      if h.compacted <= t < h.compacted + excess {
        assert h.summaries[..excess][t - h.compacted] == t;
      }
    }
  }

  lemma CompletionStores(h: History, completed: nat, retention: Retention)
    requires Stored(h, retention, completed)
    ensures Stored(Complete(h, completed, retention), retention, completed + 1)
  {
    var summaries := h.summaries + [completed];
    assert forall i :: 0 <= i < |summaries| ==> summaries[i] == h.compacted + i;
    var undetailed := if |summaries| > retention.detailedTurns then summaries[..|summaries| - retention.detailedTurns] else [];
    forall t ensures t in undetailed <==> h.compacted <= t < h.compacted + |undetailed| {
      if h.compacted <= t < h.compacted + |undetailed| {
        assert undetailed[t - h.compacted] == t;
      }
    }
  }

  /** The events that complete a turn: with distinct calls, and exactly their replies in some order. */
  function TurnsIn(events: seq<Event>): nat
  {
    if events == [] then 0
    else
      TurnsIn(events[1..])
      + if events[0].Completing? && multiset(events[0].calls) == multiset(events[0].replies)
           && forall i, j :: 0 <= i < j < |events[0].calls| ==> events[0].calls[i] != events[0].calls[j]
        then 1 else 0
  }

  /** Over any run: turns are neither lost uncounted nor reordered. */
  lemma {:induction false} RunStores(h: History, completed: nat, events: seq<Event>, retention: Retention)
    requires Stored(h, retention, completed)
    ensures var end := Run(h, completed, events, retention);
      Stored(end.0, retention, end.1) && end.1 == completed + TurnsIn(events)
    decreases |events|
  {
    hide Stored, Complete, Recovered;
    if events != [] && events[0].Completing? {
      CompleteGroupExactlyWhen(events[0].calls, events[0].replies);
    }
    if events != [] {
      var next := Step(h, completed, events[0], retention);
      StepStores(h, completed, events[0], retention);
      RunStores(next.0, next.1, events[1..], retention);
    }
  }

  /** Recovery keeps the latest turn only, with its details if it had them, and counts the others. */
  lemma RecoveryKeepsLatest(h: History, completed: nat, retention: Retention)
    requires Stored(h, retention, completed) && h.summaries != []
    ensures Recovered(h) == History([completed - 1], {completed - 1}, completed - 1)
  {
    RecoveryStores(h, completed, retention);
    var r := Recovered(h);
    assert r.summaries == [completed - 1];
    assert forall t :: t in r.detailed <==> t == completed - 1;
  }

  lemma {:induction false} CountIsMultiplicity<T>(s: seq<T>, x: T)
    ensures Count(s, x) == multiset(s)[x]
  {
    if s != [] {
      CountIsMultiplicity(s[..|s| - 1], x);
      assert s == s[..|s| - 1] + [s[|s| - 1]];
    }
  }

  /** A turn is retained exactly when its calls are distinct and the replies are those calls in
      some order. */
  lemma CompleteGroupExactlyWhen(calls: seq<CallId>, replies: seq<CallId>)
    ensures CompleteGroup(calls, replies)
       <==> (forall i, j :: 0 <= i < j < |calls| ==> calls[i] != calls[j]) && multiset(calls) == multiset(replies)
  {
    if CompleteGroup(calls, replies) {
      forall x ensures multiset(calls)[x] <= multiset(replies)[x] {
        CountIsMultiplicity(replies, x);
        DistinctMultiplicity(calls, x);
      }
      SubMultisetOfSameSize(multiset(calls), multiset(replies));
    }
    if Distinct(calls) && multiset(calls) == multiset(replies) {
      assert |calls| == |multiset(calls)| == |replies|;
      forall i | 0 <= i < |calls| ensures Count(replies, calls[i]) == 1 {
        CountIsMultiplicity(replies, calls[i]);
        DistinctMultiplicity(calls, calls[i]);
      }
    }
  }

  lemma {:induction false} DistinctMultiplicity<T>(s: seq<T>, x: T)
    requires Distinct(s)
    ensures multiset(s)[x] == if x in s then 1 else 0
  {
    if s != [] {
      DistinctMultiplicity(s[..|s| - 1], x);
      assert s == s[..|s| - 1] + [s[|s| - 1]];
    }
  }

  lemma SubMultisetOfSameSize<T>(a: multiset<T>, b: multiset<T>)
    requires |a| == |b| && forall x :: a[x] <= b[x]
    ensures a == b
  {
    var rest := b - a;
    assert b == a + rest;
    assert |rest| == 0;
  }

  // ---------------------------------------------------------------------------------------
  // The projection of one request

  /** The part of the working state the projection may shorten; a list that is absent, or not a
      list, is never shortened. */
  datatype Listing = Listing(values: Option<seq<Item>>, omitted: nat)
  datatype Objects = Objects(comparisons: Listing, bindings: Listing, coverage: Listing)

  /** What one request shows. Its text size is a function of this view: everything else in the
      request is fixed. */
  datatype View = View(history: seq<Turn>, detailed: set<Turn>, page: Page, saved: Listing, objects: Objects)

  type Size = View -> nat

  datatype Budget = Budget(size: Size, max: nat, retention: Retention)
  {
    predicate Fits(v: View) { size(v) <= max }
  }

  predicate Suffix<T(==)>(a: seq<T>, b: seq<T>) { |a| <= |b| && a == b[|b| - |a|..] }

  /** Part of the list is still shown, from its start, and the rest is counted. */
  predicate Shortens(b: Listing, a: Listing)
  {
    && (a.values.None? <==> b.values.None?)
    && (a.values.None? ==> b == a)
    && (a.values.Some? ==> b.values.value <= a.values.value && b.omitted + |b.values.value| == a.omitted + |a.values.value|)
  }

  predicate Emptied(l: Listing) { l.values.None? || l.values.value == [] }

  function Popped(l: Listing): Listing
    requires !Emptied(l)
  {
    Listing(Some(l.values.value[..|l.values.value| - 1]), l.omitted + 1)
  }

  /** The oldest summaries go until the request fits or only `keep` turns are left. */
  function DropOlder(b: Budget, v: View, keep: nat): (r: View)
    ensures r == v.(history := r.history) && Suffix(r.history, v.history)
    ensures b.Fits(r) || |r.history| <= keep
    ensures r != v ==> !b.Fits(v) && |r.history| >= keep
    decreases |v.history|
  {
    if !b.Fits(v) && |v.history| > keep then DropOlder(b, v.(history := v.history[1..]), keep) else v
  }

  /** From the i-th turn on, details of all turns but the last become summaries. */
  function Summarize(b: Budget, v: View, i: nat): (r: View)
    ensures r == v.(detailed := r.detailed) && r.detailed <= v.detailed
    ensures forall t :: t in v.detailed && t !in r.detailed ==> t in v.history
    ensures b.Fits(r) || forall j :: i <= j < |v.history| - 1 ==> v.history[j] !in r.detailed
    ensures r != v ==> !b.Fits(v)
    decreases |v.history| - i
  {
    if i >= |v.history| - 1 || b.Fits(v) then v
    else Summarize(b, v.(detailed := v.detailed - {v.history[i]}), i + 1)
  }

  function ChoosePage(b: Budget, v: View, fallback: Page): View
  {
    if !b.Fits(v) && fallback.Some? then v.(page := fallback) else v
  }

  function PopSaved(b: Budget, v: View): (r: View)
    ensures r == v.(saved := r.saved) && Shortens(r.saved, v.saved)
    ensures b.Fits(r) || Emptied(r.saved)
    ensures r != v ==> !b.Fits(v)
    decreases if v.saved.values.Some? then |v.saved.values.value| else 0
  {
    if !b.Fits(v) && !Emptied(v.saved) then PopSaved(b, v.(saved := Popped(v.saved))) else v
  }

  datatype Which = Comparisons | Bindings | Coverage

  function Of(o: Objects, w: Which): Listing
  {
    match w
    case Comparisons => o.comparisons
    case Bindings => o.bindings
    case Coverage => o.coverage
  }

  function With(o: Objects, w: Which, l: Listing): (r: Objects)
    ensures Of(r, w) == l && forall x :: x != w ==> Of(r, x) == Of(o, x)
  {
    match w
    case Comparisons => o.(comparisons := l)
    case Bindings => o.(bindings := l)
    case Coverage => o.(coverage := l)
  }

  function PopObjects(b: Budget, v: View, w: Which): (r: View)
    ensures r == v.(objects := With(v.objects, w, Of(r.objects, w))) && Shortens(Of(r.objects, w), Of(v.objects, w))
    ensures b.Fits(r) || Emptied(Of(r.objects, w))
    ensures r != v ==> !b.Fits(v)
    decreases if Of(v.objects, w).values.Some? then |Of(v.objects, w).values.value| else 0
  {
    if !b.Fits(v) && !Emptied(Of(v.objects, w))
    then PopObjects(b, v.(objects := With(v.objects, w, Popped(Of(v.objects, w)))), w)
    else v
  }

  function SummarizeLast(b: Budget, v: View): View
  {
    if !b.Fits(v) && v.history != [] then v.(detailed := v.detailed - {v.history[0]}) else v
  }

  /** The views between the stages of trimming, in order. */
  datatype Stages = Stages(
    start: View, older: View, summarized: View, paged: View, single: View, saved: View, comparisons: View,
    bindings: View, coverage: View, last: View)

  function Trim(b: Budget, v: View, fallback: Page): (s: Stages)
    ensures s.start == v
  {
    var older := DropOlder(b, v, b.retention.detailedTurns);
    var summarized := Summarize(b, older, 0);
    var paged := ChoosePage(b, summarized, fallback);
    var single := DropOlder(b, paged, 1);
    var saved := PopSaved(b, single);
    var comparisons := PopObjects(b, saved, Comparisons);
    var bindings := PopObjects(b, comparisons, Bindings);
    var coverage := PopObjects(b, bindings, Coverage);
    Stages(v, older, summarized, paged, single, saved, comparisons, bindings, coverage, SummarizeLast(b, coverage))
  }

  /** Nothing is left to trim. */
  predicate Minimal(v: View, fallback: Page)
  {
    && |v.history| <= 1
    && (v.history != [] ==> v.history[0] !in v.detailed)
    && (fallback.Some? ==> v.page == fallback)
    && Emptied(v.saved) && Emptied(v.objects.comparisons) && Emptied(v.objects.bindings) && Emptied(v.objects.coverage)
  }

  /** What is shown is part of what is stored, and all that is not shown is counted. */
  predicate Conserves(v: View, r: View, fallback: Page)
  {
    && Suffix(r.history, v.history)
    && r.detailed <= v.detailed
    && (r.page == v.page || (fallback.Some? && r.page == fallback))
    && Shortens(r.saved, v.saved)
    && (forall w :: Shortens(Of(r.objects, w), Of(v.objects, w)))
  }

  /** What goes first: nothing is removed while something of lower value is still shown. */
  predicate InOrder(v: View, r: View, fallback: Page, retention: Retention)
  {
    && (r.detailed != v.detailed ==> |r.history| <= retention.detailedTurns)
    && (|r.history| < retention.detailedTurns && r.history != v.history ==>
          (fallback.Some? ==> r.page == fallback)
          && forall i :: 0 <= i < |r.history| - 1 ==> r.history[i] !in r.detailed)
    && (r.saved != v.saved ==> |r.history| <= 1 && (fallback.Some? ==> r.page == fallback))
    && (r.objects != v.objects ==> Emptied(r.saved) && |r.history| <= 1 && (fallback.Some? ==> r.page == fallback))
    && (r.objects.bindings != v.objects.bindings ==> Emptied(r.objects.comparisons))
    && (r.objects.coverage != v.objects.coverage ==> Emptied(r.objects.bindings))
  }

  /** A request that fits is not touched, and one that does not fit in the end never did. */
  lemma TrimOnlyWhileTooLarge(b: Budget, v: View, fallback: Page)
    ensures var s := Trim(b, v, fallback);
      && (b.Fits(v) ==> s.last == v)
      && (!b.Fits(s.last) ==> !b.Fits(s.older) && !b.Fits(s.summarized) && !b.Fits(s.paged) && !b.Fits(s.single)
                              && !b.Fits(s.saved) && !b.Fits(s.comparisons) && !b.Fits(s.bindings) && !b.Fits(s.coverage))
  {
  }

  lemma TrimIsMinimal(b: Budget, v: View, fallback: Page)
    requires !b.Fits(Trim(b, v, fallback).last)
    ensures Minimal(Trim(b, v, fallback).last, fallback)
  {
  }

  lemma SuffixTransitive(a: seq<Turn>, b: seq<Turn>, c: seq<Turn>)
    requires Suffix(a, b) && Suffix(b, c)
    ensures Suffix(a, c)
  {
  }

  lemma TrimConserves(b: Budget, v: View, fallback: Page)
    ensures Conserves(v, Trim(b, v, fallback).last, fallback)
  {
    hide DropOlder, Summarize, PopSaved, PopObjects, Suffix, Shortens;
    var s := Trim(b, v, fallback);
    SuffixTransitive(s.single.history, s.older.history, v.history);
    assert s.saved.objects == v.objects;
    forall w ensures Shortens(Of(s.last.objects, w), Of(v.objects, w)) {
      match w
      case Comparisons =>
        assert Of(s.coverage.objects, w) == Of(s.comparisons.objects, w);
      case Bindings =>
        assert Of(s.coverage.objects, w) == Of(s.bindings.objects, w) && Of(s.comparisons.objects, w) == Of(v.objects, w);
      case Coverage =>
        assert Of(s.bindings.objects, w) == Of(v.objects, w);
    }
  }

  lemma TrimOrder(b: Budget, v: View, fallback: Page)
    ensures InOrder(v, Trim(b, v, fallback).last, fallback, b.retention)
  {
    hide DropOlder, Summarize, PopSaved, PopObjects;
    var s := Trim(b, v, fallback);
  }

  lemma {:induction false} SummarizeSparesLast(b: Budget, v: View, i: nat)
    requires v.history != [] && forall j, k :: 0 <= j < k < |v.history| ==> v.history[j] != v.history[k]
    ensures var last := v.history[|v.history| - 1];
      last in v.detailed ==> last in Summarize(b, v, i).detailed
    decreases |v.history| - i
  {
    if i < |v.history| - 1 && !b.Fits(v) {
      SummarizeSparesLast(b, v.(detailed := v.detailed - {v.history[i]}), i + 1);
    }
  }

  /** The latest turn keeps its details to the very last: they go only when every other turn, every saved
      observation and all evidence are gone, and the page has been replaced. */
  lemma LatestTurnGoesLast(b: Budget, v: View, fallback: Page)
    requires v.history != [] && forall j, k :: 0 <= j < k < |v.history| ==> v.history[j] != v.history[k]
    ensures var last, r := v.history[|v.history| - 1], Trim(b, v, fallback).last;
      && r.history != [] && r.history[|r.history| - 1] == last
      && (last in v.detailed && last !in r.detailed ==> Minimal(r, fallback))
  {
    hide DropOlder, Summarize, PopSaved, PopObjects, Shortens, Minimal;
    var s := Trim(b, v, fallback);
    StagesKeepLast(b, v, fallback);
    OlderIsSuffix(b, v, fallback);
    hide Trim;
    SuffixDistinct(s.older.history, v.history);
    SummarizeSparesLast(b, s.older, 0);
  }

  lemma OlderIsSuffix(b: Budget, v: View, fallback: Page)
    ensures var s := Trim(b, v, fallback); Suffix(s.older.history, v.history) && s.summarized == Summarize(b, s.older, 0)
  {
    hide DropOlder, Summarize, PopSaved, PopObjects, Shortens;
  }

  lemma SuffixDistinct(a: seq<Turn>, b: seq<Turn>)
    requires Suffix(a, b) && forall j, k :: 0 <= j < k < |b| ==> b[j] != b[k]
    ensures forall j, k :: 0 <= j < k < |a| ==> a[j] != a[k]
  {
    forall j, k | 0 <= j < k < |a| ensures a[j] != a[k] {
      assert a[j] == b[|b| - |a| + j] && a[k] == b[|b| - |a| + k];
    }
  }

  /** The first stage leaves the last turn and all details. */
  lemma FirstStageKeepsLast(b: Budget, v: View)
    requires v.history != []
    ensures var older := DropOlder(b, v, b.retention.detailedTurns);
      older.history != [] && older.history[|older.history| - 1] == v.history[|v.history| - 1] && older.detailed == v.detailed
  {
    hide DropOlder;
  }

  /** From the summaries on: the last turn stays, and its details until nothing else is left. */
  lemma LaterStagesKeepLast(b: Budget, v: View, fallback: Page)
    requires v.history != []
    ensures var single := DropOlder(b, ChoosePage(b, v, fallback), 1);
      && single.history != [] && single.history[|single.history| - 1] == v.history[|v.history| - 1]
      && single.detailed == v.detailed
      && (!b.Fits(single) ==> |single.history| == 1 && (fallback.Some? ==> single.page == fallback))
  {
    hide DropOlder;
  }

  lemma LastStagesEmpty(b: Budget, single: View)
    requires |single.history| == 1 || b.Fits(single)
    ensures var saved := PopSaved(b, single);
      var comparisons := PopObjects(b, saved, Comparisons);
      var bindings := PopObjects(b, comparisons, Bindings);
      var coverage := PopObjects(b, bindings, Coverage);
      var last := SummarizeLast(b, coverage);
      && last.history == single.history && last.page == single.page
      && (last.detailed != single.detailed ==>
            && !b.Fits(single) && last.detailed == single.detailed - {single.history[0]}
            && Emptied(last.saved) && Emptied(last.objects.comparisons) && Emptied(last.objects.bindings) && Emptied(last.objects.coverage))
  {
    hide PopSaved, PopObjects, Shortens;
  }

  lemma StagesKeepLast(b: Budget, v: View, fallback: Page)
    requires v.history != []
    ensures var s := Trim(b, v, fallback);
      var r := s.last;
      && s.older.history != [] && s.older.history[|s.older.history| - 1] == v.history[|v.history| - 1]
      && s.older.detailed == v.detailed
      && r.history != [] && r.history[|r.history| - 1] == v.history[|v.history| - 1]
      && (v.history[|v.history| - 1] in s.summarized.detailed && v.history[|v.history| - 1] !in r.detailed ==> Minimal(r, fallback))
  {
    var s := Trim(b, v, fallback);
    FirstStageKeepsLast(b, v);
    LaterStagesKeepLast(b, s.summarized, fallback);
    LastStagesEmpty(b, s.single);
    hide DropOlder, Summarize, PopSaved, PopObjects, ChoosePage, SummarizeLast, Shortens, Emptied, Suffix;
  }

  datatype Outcome =
    | Request(view: View, bytes: nat, retainedTurns: nat, droppedTurns: nat)
    | TooLarge(view: View, bytes: nat, limit: nat)
    | TooManyImages

  /** What one request is built from, besides the stored history. */
  datatype Inputs = Inputs(size: Size, page: Page, fallback: Page, saved: Listing, objects: Objects,
                           referenceImages: nat, image: bool)

  datatype Options = Options(maxBytes: nat, modelIds: seq<string>, limits: Limits, retention: Retention)

  function ImageCount(i: Inputs): nat
  {
    if i.referenceImages > 0 then i.referenceImages else if i.image then 1 else 0
  }

  function BudgetOf(o: Options, i: Inputs): Budget
  {
    Budget(i.size, MaxBytes(o.maxBytes, o.modelIds, o.limits, ImageCount(i)), o.retention)
  }

  function FirstView(h: History, i: Inputs): View { View(h.summaries, h.detailed, i.page, i.saved, i.objects) }

  function Build(h: History, o: Options, i: Inputs): Outcome
  {
    if i.referenceImages > 2 then TooManyImages
    else
      var b := BudgetOf(o, i);
      TrimConserves(b, FirstView(h, i), i.fallback);
      var v := Trim(b, FirstView(h, i), i.fallback).last;
      if b.Fits(v) then Request(v, i.size(v), |v.history|, |h.summaries| - |v.history|)
      else TooLarge(v, i.size(v), b.max)
  }

  /** A request within the configured bytes that leaves the output reserve, the image allowance
      and the framing inside every configured window of the candidate models. */
  predicate FitsEverywhere(o: Options, i: Inputs, bytes: nat)
  {
    bytes <= o.maxBytes
    && var images := i.referenceImages + if i.referenceImages == 0 && i.image then 1 else 0;
       forall id :: id in o.modelIds && id in o.limits ==> FitsWindow(o.limits[id], images, bytes)
  }

  /** More than two reference images are refused before anything else. */
  lemma TooManyImagesExactlyWhen(h: History, o: Options, i: Inputs)
    ensures Build(h, o, i).TooManyImages? <==> i.referenceImages > 2
  {
    hide Trim, MaxBytes, Conserves;
  }

  /** A request is built exactly when what trimming leaves fits everywhere; it is refused only
      with nothing left to trim. Either way the view is part of what is stored and the rest is
      counted, the least valuable parts went first, and a request that fits is not trimmed. */
  lemma BuildFitsOrIsMinimal(h: History, o: Options, i: Inputs)
    requires i.referenceImages <= 2 && forall v :: i.size(v) >= 2
    ensures var first := FirstView(h, i);
      var r := Build(h, o, i);
      && !r.TooManyImages? && r.bytes == i.size(r.view)
      && (r.Request? <==> FitsEverywhere(o, i, r.bytes))
      && (r.TooLarge? ==> Minimal(r.view, i.fallback))
      && Conserves(first, r.view, i.fallback) && InOrder(first, r.view, i.fallback, o.retention)
      && (FitsEverywhere(o, i, i.size(first)) ==> r.Request? && r.view == first)
      && (r.Request? ==> r.retainedTurns + r.droppedTurns == |h.summaries|)
  {
    hide Trim, FitsWindow, MaxBytes, Minimal, InOrder, Shortens;
    var b := BudgetOf(o, i);
    var first := FirstView(h, i);
    var r := Build(h, o, i);
    TrimConserves(b, first, i.fallback);
    TrimOrder(b, first, i.fallback);
    TrimOnlyWhileTooLarge(b, first, i.fallback);
    if r.TooLarge? {
      TrimIsMinimal(b, first, i.fallback);
    }
    WithinMaxBytesExactlyWhen(o.maxBytes, o.modelIds, o.limits, ImageCount(i), i.size(r.view));
    WithinMaxBytesExactlyWhen(o.maxBytes, o.modelIds, o.limits, ImageCount(i), i.size(first));
  }

  // ---------------------------------------------------------------------------------------
  // The context itself

  class ModelContext {
    var summaries: seq<Turn>
    var detailed: set<Turn>
    var compactedTurns: nat
    ghost var completed: nat
    const options: Options

    ghost function Now(): History
      reads this
    {
      History(summaries, detailed, compactedTurns)
    }

    ghost predicate Valid()
      reads this
    {
      Stored(Now(), options.retention, completed)
    }

    constructor (options: Options)
      ensures Valid() && this.options == options && completed == 0
    {
      this.options := options;
      summaries, detailed, compactedTurns, completed := [], {}, 0, 0;
    }

    /** An incomplete group is refused and changes nothing. `turn` is the summary of the group. */
    method CompleteTurn(calls: seq<CallId>, replies: seq<CallId>, turn: Turn) returns (retained: bool)
      requires Valid() && turn == completed
      modifies this
      ensures Valid() && retained == CompleteGroup(calls, replies)
      ensures (Now(), completed) == Step(old(Now()), old(completed), Completing(calls, replies), options.retention)
    {
      hide CompleteGroup, Stored;
      if !CompleteGroup(calls, replies) {
        return false;
      }
      CompletionStores(Now(), completed, options.retention);
      summaries := summaries + [turn];
      detailed := detailed + {turn};
      completed := completed + 1;
      var undetailed := if |summaries| > options.retention.detailedTurns
                        then summaries[..|summaries| - options.retention.detailedTurns] else [];
      detailed := set t | t in detailed && t !in undetailed;
      ShiftOlder();
      retained := true;
    }

    /** Summaries beyond what is retained are only counted. */
    method ShiftOlder()
      modifies this`summaries, this`compactedTurns
      ensures var kept := options.retention.detailedTurns + options.retention.summaryTurns;
        var excess := if old(|summaries|) > kept then old(|summaries|) - kept else 0;
        summaries == old(summaries)[excess..] && compactedTurns == old(compactedTurns) + excess
    {
      ghost var all, first := summaries, compactedTurns;
      while |summaries| > options.retention.detailedTurns + options.retention.summaryTurns
        invariant compactedTurns >= first && |all| == |summaries| + compactedTurns - first
        invariant summaries == all[compactedTurns - first..]
        invariant compactedTurns > first ==>
                    |summaries| >= options.retention.detailedTurns + options.retention.summaryTurns
        decreases |summaries|
      {
        summaries := summaries[1..];
        compactedTurns := compactedTurns + 1;
      }
    }

    method CompactForRecovery()
      requires Valid()
      modifies this
      ensures Valid() && (Now(), completed) == Step(old(Now()), old(completed), Recovering, options.retention)
    {
      RecoveryStores(Now(), completed, options.retention);
      ghost var result := Recovered(Now());
      ghost var all, first, details := summaries, compactedTurns, detailed;
      while |summaries| > 1
        invariant completed == old(completed)
        invariant compactedTurns >= first && |all| == |summaries| + compactedTurns - first
        invariant compactedTurns > first ==> |summaries| >= 1
        invariant summaries == all[compactedTurns - first..]
        invariant detailed == set t | t in details && t !in all[..compactedTurns - first]
        decreases |summaries|
      {
        assert all[..compactedTurns - first + 1] == all[..compactedTurns - first] + [summaries[0]];
        detailed := detailed - {summaries[0]};
        summaries := summaries[1..];
        compactedTurns := compactedTurns + 1;
      }
      assert detailed == result.detailed && summaries == result.summaries;
      assert Now() == result;
    }
  
    /** Trims the projection of the stored history; the history itself is not touched. */
    method BuildRequest(i: Inputs) returns (outcome: Outcome)
      ensures outcome == Build(Now(), options, i)
    {
      hide Trim, Shortens, Of, BudgetOf;
      if i.referenceImages > 2 {
        return TooManyImages;
      }
      var b := BudgetOf(options, i);
      var first := View(summaries, detailed, i.page, i.saved, i.objects);
      var v := TrimToFit(b, first, i.fallback);
      TrimConserves(b, first, i.fallback);
      if b.Fits(v) {
        outcome := Request(v, i.size(v), |v.history|, |summaries| - |v.history|);
      } else {
        outcome := TooLarge(v, i.size(v), b.max);
      }
    }
  }

  method TrimToFit(b: Budget, first: View, fallback: Page) returns (v: View)
    ensures v == Trim(b, first, fallback).last
  {
    hide DropOlder, Summarize, PopSaved, PopObjects, Shortens, With, Of, Suffix, Emptied;
    v := TrimHistory(b, first, fallback);
    v := TrimSaved(b, v);
    v := TrimObjects(b, v, Comparisons);
    v := TrimObjects(b, v, Bindings);
    v := TrimObjects(b, v, Coverage);
    v := SummarizeLast(b, v);
  }

  method TrimHistory(b: Budget, first: View, fallback: Page) returns (v: View)
    ensures v == Trim(b, first, fallback).single
  {
    v := TrimOlder(b, first, b.retention.detailedTurns);
    v := TrimDetails(b, v);
    v := ChoosePage(b, v, fallback);
    v := TrimOlder(b, v, 1);
  }

  method TrimOlder(b: Budget, first: View, keep: nat) returns (v: View)
    ensures v == DropOlder(b, first, keep)
  {
    v := first;
    while !b.Fits(v) && |v.history| > keep
      invariant DropOlder(b, v, keep) == DropOlder(b, first, keep)
      decreases |v.history|
    {
      v := v.(history := v.history[1..]);
    }
  }

  method TrimDetails(b: Budget, first: View) returns (v: View)
    ensures v == Summarize(b, first, 0)
  {
    v := first;
    for i := 0 to |first.history| - if first.history == [] then 0 else 1
      invariant v.history == first.history && Summarize(b, v, i) == Summarize(b, first, 0)
    {
      if b.Fits(v) {
        return;
      }
      v := v.(detailed := v.detailed - {v.history[i]});
    }
  }

  method TrimSaved(b: Budget, first: View) returns (v: View)
    ensures v == PopSaved(b, first)
  {
    v := first;
    while !b.Fits(v) && !Emptied(v.saved)
      invariant PopSaved(b, v) == PopSaved(b, first)
      decreases if v.saved.values.Some? then |v.saved.values.value| else 0
    {
      v := v.(saved := Popped(v.saved));
    }
  }

  method TrimObjects(b: Budget, first: View, w: Which) returns (v: View)
    ensures v == PopObjects(b, first, w)
  {
    v := first;
    while !b.Fits(v) && !Emptied(Of(v.objects, w))
      invariant PopObjects(b, v, w) == PopObjects(b, first, w)
      decreases if Of(v.objects, w).values.Some? then |Of(v.objects, w).values.value| else 0
    {
      v := v.(objects := With(v.objects, w, Popped(Of(v.objects, w))));
    }
  }
}
