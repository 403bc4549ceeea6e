/** What recorded reading progress rests on: over any history of deliveries, new captures and
    evictions, a line that counts as delivered was once shown to the agent as a whole, in this
    capture or in an earlier one of the same normalised content. */
module DeliveryHistory {
  import opened Utf16
  import opened Wrappers
  import opened ObservationPaging
  import opened ReadProgress
  import opened BrowserObservations

  /** A stretch of a captured text that a delivered page showed. */
  datatype Shown = Shown(text: Text, start: nat, end: nat)

  /** The current snapshot, and everything ever shown of it and of the snapshots before it. */
  datatype History = History(e: Observation, log: seq<Shown>)

  datatype Event =
    | Delivers(page: Page)
    | Recaptures(id: nat, captureId: Option<nat>, url: Option<Text>, prefix: Text)
    | Evicts

  /** The stretch that a delivery shows: all of the text, a page of it, or nothing of a page whose
      line is too long or that is refused. */
  function Showing(e: Observation, page: Page): seq<Shown>
  {
    if !Deliverable(e, page) then []
    else if IsCompleteSnapshot(e, page) then [Shown(e.Cached(), 0, |e.Cached()|)]
    else if Omits(e.Cached(), e.snapshot, page.cursor) then []
    else [Shown(e.Cached(), page.cursor, PageEnd(e.Cached(), e.snapshot, page.cursor))]
  }

  ghost function Step(identities: Text -> set<nat>, h: History, event: Event): History
  {
    match event
    case Delivers(page) => History(AfterDelivery(h.e, page), h.log + Showing(h.e, page))
    case Recaptures(id, captureId, url, prefix) =>
      History(Captured(Fresh(id, captureId, url, prefix, identities, true), h.e), h.log)
    case Evicts => History(Evicted(h.e), h.log)
  }

  ghost function After(identities: Text -> set<nat>, first: Observation, events: seq<Event>, n: nat): History
    requires n <= |events|
  {
    if n == 0 then History(first, []) else Step(identities, After(identities, first, events, n - 1), events[n - 1])
  }

  /** The whole line, as it reads without capture identities, lies in what was shown. */
  ghost predicate ShowsLine(identities: Text -> set<nat>, s: Shown, i: nat, line: Text)
  {
    NormalLine(s.text, identities(s.text), 0, i) == line
    && forall p :: 0 <= p < |s.text| && LineAt(s.text, p) == i ==> s.start <= p < s.end
  }

  /** The line is empty without its identities, or it was shown. */
  ghost predicate LineShown(identities: Text -> set<nat>, e: Observation, log: seq<Shown>, i: nat)
  {
    var line := NormalLine(e.Cached(), identities(e.Cached()), 0, i);
    line != [] ==> exists k :: 0 <= k < |log| && ShowsLine(identities, log[k], i, line)
  }

  ghost predicate Traced(identities: Text -> set<nat>, h: History)
    requires h.e.Valid()
  {
    forall p :: 0 <= p < |h.e.Cached()| && Delivered(h.e, p) ==> LineShown(identities, h.e, h.log, LineAt(h.e.Cached(), p))
  }

  /** The key of a snapshot is its normalised content. */
  ghost predicate Keyed(identities: Text -> set<nat>, e: Observation)
  {
    e.content.Some? ==> e.contentKey.1 == Erase(e.Cached(), identities(e.Cached()), 0)
  }

  ghost predicate Sound(identities: Text -> set<nat>, h: History)
  {
    h.e.Valid() && h.e.snapshot && Keyed(identities, h.e) && Traced(identities, h)
  }

  lemma LongerLog(identities: Text -> set<nat>, e: Observation, log: seq<Shown>, more: seq<Shown>, i: nat)
    requires LineShown(identities, e, log, i)
    ensures LineShown(identities, e, log + more, i)
  {
    hide ShowsLine;
    var line := NormalLine(e.Cached(), identities(e.Cached()), 0, i);
    if line != [] {
      var k :| 0 <= k < |log| && ShowsLine(identities, log[k], i, line);
      assert ShowsLine(identities, (log + more)[k], i, line);
    }
  }

  lemma ShownLast(identities: Text -> set<nat>, e: Observation, log: seq<Shown>, s: Shown, i: nat)
    requires ShowsLine(identities, s, i, NormalLine(e.Cached(), identities(e.Cached()), 0, i))
    ensures LineShown(identities, e, log + [s], i)
  {
    hide ShowsLine;
    assert (log + [s])[|log|] == s;
  }

  /** A page of a snapshot shows every line that has a position in it. */
  lemma PageShowsLine(identities: Text -> set<nat>, e: Observation, c: nat, p: nat)
    requires e.Valid() && e.snapshot && e.OnChain(c)
    requires c <= p < PageEnd(e.Cached(), true, c) && !Omits(e.Cached(), true, c)
    ensures var i := LineAt(e.Cached(), p);
      ShowsLine(identities, Shown(e.Cached(), c, PageEnd(e.Cached(), true, c)), i,
                NormalLine(e.Cached(), identities(e.Cached()), 0, i))
  {
    hide PageEnd, Omits, NormalLine;
    var text := e.Cached();
    var end := PageEnd(text, true, c);
    ChainOnLineStarts(text, 0);
    SnapshotPageEnds(text, c);
    LineAtMonotone(text, c, p);
    LineBeforeEnd(text, p, end);
    forall other | 0 <= other < |text| && LineAt(text, other) == LineAt(text, p) ensures c <= other < end {
      CoveredLineLiesInPage(text, c, end, other);
    }
  }

  lemma DeliveryTraced(identities: Text -> set<nat>, h: History, page: Page)
    requires Sound(identities, h)
    ensures Sound(identities, Step(identities, h, Delivers(page)))
  {
    var e, t := h.e, Step(identities, h, Delivers(page));
    AfterDeliveryIsValid(e, page);
    AfterDeliveryKeeps(e, page);
    hide PageEnd, Omits, NormalLine, ShowsLine, Observation.Valid, LineShown;
    forall p | 0 <= p < |e.Cached()| && Delivered(t.e, p) ensures LineShown(identities, t.e, t.log, LineAt(e.Cached(), p)) {
      NewlyDelivered(e, page, p);
      if Delivered(e, p) {
        LongerLog(identities, e, h.log, Showing(e, page), LineAt(e.Cached(), p));
        SameLineShown(identities, e, t.e, t.log, LineAt(e.Cached(), p));
      } else {
        ShownByDelivery(identities, h, page, p);
      }
    }
  }

  lemma SameLineShown(identities: Text -> set<nat>, e: Observation, f: Observation, log: seq<Shown>, i: nat)
    requires LineShown(identities, e, log, i) && f.content == e.content
    ensures LineShown(identities, f, log, i)
  {
  }

  lemma AfterDeliveryKeeps(e: Observation, page: Page)
    ensures var f := AfterDelivery(e, page);
      f.content == e.content && f.snapshot == e.snapshot && f.contentKey == e.contentKey
  {
    hide PageAt, NextCursor;
  }

  /** A position that counts as delivered only after a delivery lies in what it showed. */
  lemma NewlyDelivered(e: Observation, page: Page, p: nat)
    requires e.Valid() && e.snapshot && AfterDelivery(e, page).Valid() && p < |e.Cached()|
    requires Delivered(AfterDelivery(e, page), p)
    ensures Delivered(e, p)
         || (Deliverable(e, page)
             && (IsCompleteSnapshot(e, page)
                 || (!Omits(e.Cached(), true, page.cursor) && page.cursor <= p < PageEnd(e.Cached(), true, page.cursor))))
  {
    hide PageEnd, Omits;
  }

  lemma ShownByDelivery(identities: Text -> set<nat>, h: History, page: Page, p: nat)
    requires h.e.Valid() && h.e.snapshot && p < |h.e.Cached()| && Deliverable(h.e, page)
    requires IsCompleteSnapshot(h.e, page)
             || (!Omits(h.e.Cached(), true, page.cursor) && page.cursor <= p < PageEnd(h.e.Cached(), true, page.cursor))
    ensures LineShown(identities, AfterDelivery(h.e, page), h.log + Showing(h.e, page), LineAt(h.e.Cached(), p))
  {
    AfterDeliveryKeeps(h.e, page);
    var i := LineAt(h.e.Cached(), p);
    if IsCompleteSnapshot(h.e, page) {
      ShownLast(identities, h.e, h.log, Shown(h.e.Cached(), 0, |h.e.Cached()|), i);
    } else {
      PageShowsLine(identities, h.e, page.cursor, p);
      ShownLast(identities, h.e, h.log, Showing(h.e, page)[0], i);
    }
    hide LineShown, AfterDelivery, Showing;
    SameLineShown(identities, h.e, AfterDelivery(h.e, page), h.log + Showing(h.e, page), i);
  }

  /** What a new capture takes over was shown before it. */
  lemma InheritanceTraced(identities: Text -> set<nat>, h: History, added: Observation)
    requires Sound(identities, h) && added.Valid() && added.snapshot && added.content.Some? && Keyed(identities, added)
    requires added.readPages == map[] && !added.completeSnapshotRead && added.contentKey == h.e.contentKey
    requires KeepsLineEnds(added.Cached(), identities(added.Cached()))
    requires KeepsLineEnds(h.e.Cached(), identities(h.e.Cached()))
    ensures Sound(identities, History(Inherited(h.e, added), h.log))
  {
    InheritedIsValid(h.e, added);
    var f := Inherited(h.e, added);
    hide Observation.Valid, NormalLine, LineShown, Inherited;
    forall q | 0 <= q < |f.Cached()| && Delivered(f, q) ensures LineShown(identities, f, h.log, LineAt(f.Cached(), q)) {
      InheritedLineShown(identities, h, added, q);
    }
  }

  lemma InheritedLineShown(identities: Text -> set<nat>, h: History, added: Observation, q: nat)
    requires Sound(identities, h) && added.Valid() && added.snapshot && added.content.Some? && Keyed(identities, added)
    requires added.readPages == map[] && !added.completeSnapshotRead && added.contentKey == h.e.contentKey
    requires KeepsLineEnds(added.Cached(), identities(added.Cached()))
    requires KeepsLineEnds(h.e.Cached(), identities(h.e.Cached()))
    requires Inherited(h.e, added).Valid() && q < |added.Cached()| && Delivered(Inherited(h.e, added), q)
    ensures LineShown(identities, Inherited(h.e, added), h.log, LineAt(added.Cached(), q))
  {
    var previous, text := h.e, added.Cached();
    var i := LineAt(text, q);
    var dead, addedDead := identities(previous.Cached()), identities(text);
    if previous.content.None? {
      assert false;
    }
    SameNormalisedContentSameLines(previous.Cached(), dead, text, addedDead, i);
    if NormalLine(text, addedDead, 0, i) != [] {
      LineHasPosition(previous.Cached(), dead, 0, i);
      var p :| 0 <= p < |previous.Cached()| && LineAt(previous.Cached(), p) == i;
      assert Delivered(previous, p) by {
        if !previous.completeSnapshotRead {
          DeliveredInherited(previous, added, q, p);
        }
      }
      assert LineShown(identities, previous, h.log, i);
    }
  }

  lemma DeliveredInherited(previous: Observation, added: Observation, q: nat, p: nat)
    requires previous.Valid() && added.Valid() && previous.snapshot && added.snapshot && !previous.completeSnapshotRead
    requires previous.content.Some? && added.content.Some? && added.readPages == map[] && !added.completeSnapshotRead
    requires Inherited(previous, added).Valid() && q < |added.Cached()| && Delivered(Inherited(previous, added), q)
    requires p < |previous.Cached()| && LineAt(previous.Cached(), p) == LineAt(added.Cached(), q)
    ensures Delivered(previous, p)
  {
    var f := Inherited(previous, added);
    assert !f.completeSnapshotRead;
    hide PageEnd, Omits, Inherited, Observation.Valid;
    var c :| c in f.readPages && c <= q < ReadEnd(f, c);
    hide Delivered;
    MarkedLineWasRead(previous, added, c, q, p);
  }

  lemma StepIsSound(identities: Text -> set<nat>, h: History, event: Event)
    requires Sound(identities, h) && forall text :: KeepsLineEnds(text, identities(text))
    ensures Sound(identities, Step(identities, h, event))
  {
    match event
    case Delivers(page) => DeliveryTraced(identities, h, page);
    case Recaptures(id, captureId, url, prefix) =>
      var added := Fresh(id, captureId, url, prefix, identities, true);
      FreshIsValid(id, captureId, url, prefix, identities, true);
      if h.e.contentKey == added.contentKey {
        hide Observation.Valid, KeepsLineEnds, Inherited, Erase, Traced;
        InheritanceTraced(identities, h, added);
      }
    case Evicts =>
  }

  /** Over any history of a fresh snapshot, whatever is delivered, captured and evicted: a line of
      the current snapshot that counts as delivered, and is more than capture identities, was once
      shown as a whole, in this capture or in one of the same normalised content before it. */
  lemma {:induction false} DeliveredWasShown(identities: Text -> set<nat>, id: nat, captureId: Option<nat>, url: Option<Text>,
                                            prefix: Text, events: seq<Event>, n: nat)
    requires n <= |events| && forall text :: KeepsLineEnds(text, identities(text))
    ensures Sound(identities, After(identities, Fresh(id, captureId, url, prefix, identities, true), events, n))
  {
    var first := Fresh(id, captureId, url, prefix, identities, true);
    if n == 0 {
      FreshIsValid(id, captureId, url, prefix, identities, true);
    } else {
      hide KeepsLineEnds, Sound, Fresh, Step;
      DeliveredWasShown(identities, id, captureId, url, prefix, events, n - 1);
      StepIsSound(identities, After(identities, first, events, n - 1), events[n - 1]);
    }
  }
}
