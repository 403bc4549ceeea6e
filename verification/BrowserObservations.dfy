/** The bounded cache of captured observations and the references an agent may act on. Entries
    keep their order of insertion and lose their text when the cache is full, oldest first; the
    entry just saved is never touched. A reference is actionable only if it stands in a page of the
    current capture that was delivered since the capture was last invalidated. */
module BrowserObservations {
  import opened Utf16
  import opened Wrappers
  import opened ObservationPaging
  import opened ReadProgress

  const CAPTURE_BYTES: nat := 256 * 1024
  const MAX_ENTRIES: nat := 256

  // ---------------------------------------------------------------------------------------
  // Eviction

  function TotalBytes(entries: seq<Observation>): nat
  {
    if entries == [] then 0 else TotalBytes(entries[..|entries| - 1]) + entries[|entries| - 1].bytes
  }

  function Evicted(e: Observation): Observation
  {
    e.(bytes := 0, content := None, cursors := {}, readPages := map[])
  }

  /** Eviction in insertion order, from entry `i` on, until the cap is met. */
  function EvictFrom(entries: seq<Observation>, i: nat, cap: nat): (kept: seq<Observation>)
    requires i <= |entries|
    ensures |kept| == |entries|
    ensures forall k :: 0 <= k < |entries| ==> kept[k] == entries[k] || kept[k] == Evicted(entries[k])
    decreases |entries| - i
  {
    if TotalBytes(entries) <= cap || i == |entries| then entries
    else EvictFrom(entries[i := Evicted(entries[i])], i + 1, cap)
  }

  lemma {:induction false} TotalAfterEviction(entries: seq<Observation>, i: nat)
    requires i < |entries|
    ensures TotalBytes(entries[i := Evicted(entries[i])]) == TotalBytes(entries) - entries[i].bytes
  {
    var last := |entries| - 1;
    var after := entries[i := Evicted(entries[i])];
    if i == last {
      assert after[..last] == entries[..last];
    } else {
      assert after[..last] == entries[..last][i := Evicted(entries[i])];
      TotalAfterEviction(entries[..last], i);
    }
  }

  lemma {:induction false} TotalOfLast(entries: seq<Observation>)
    requires entries != []
    requires forall k :: 0 <= k < |entries| - 1 ==> entries[k].bytes == 0
    ensures TotalBytes(entries) == entries[|entries| - 1].bytes
  {
    ZeroTotal(entries[..|entries| - 1]);
  }

  lemma {:induction false} ZeroTotal(entries: seq<Observation>)
    requires forall k :: 0 <= k < |entries| ==> entries[k].bytes == 0
    ensures TotalBytes(entries) == 0
  {
    if entries != [] {
      ZeroTotal(entries[..|entries| - 1]);
    }
  }

  /** Eviction reaches the cap without touching the newest entry, evicts a prefix only, and
      evicts no entry that the cap did not force out. */
  lemma {:induction false} EvictionKeepsNewest(entries: seq<Observation>, i: nat, cap: nat)
    requires i < |entries| && entries[|entries| - 1].bytes <= cap
    requires forall k :: 0 <= k < i ==> entries[k].bytes == 0
    ensures var kept := EvictFrom(entries, i, cap);
      && TotalBytes(kept) <= cap
      && kept[|kept| - 1] == entries[|entries| - 1]
    ensures var kept := EvictFrom(entries, i, cap);
      forall k, m :: i <= k < m < |entries| && kept[m] != entries[m] ==> kept[k] == Evicted(entries[k])
    decreases |entries| - i
  {
    if TotalBytes(entries) > cap {
      if i == |entries| - 1 {
        TotalOfLast(entries);
        assert false;
      }
      var after := entries[i := Evicted(entries[i])];
      EvictionKeepsNewest(after, i + 1, cap);
      EvictedEarlierStay(after, i + 1, cap, i);
    }
  }

  lemma {:induction false} EvictedEarlierStay(entries: seq<Observation>, i: nat, cap: nat, k: nat)
    requires k < i <= |entries|
    ensures EvictFrom(entries, i, cap)[k] == entries[k]
    decreases |entries| - i
  {
    if TotalBytes(entries) > cap && i < |entries| {
      EvictedEarlierStay(entries[i := Evicted(entries[i])], i + 1, cap, k);
    }
  }

  /** An evicted entry is known by its name, capture and address only. */
  lemma {:induction false} EvictedIsForgotten(entries: seq<Observation>, i: nat, cap: nat, k: nat)
    requires i <= |entries| && k < |entries|
    ensures var kept := EvictFrom(entries, i, cap);
      kept[k] != entries[k] ==>
        && kept[k].content.None? && kept[k].bytes == 0 && kept[k].cursors == {} && kept[k].readPages == map[]
        && (kept[k].id, kept[k].captureId, kept[k].contentKey, kept[k].snapshot)
           == (entries[k].id, entries[k].captureId, entries[k].contentKey, entries[k].snapshot)
  {
  }

  // ---------------------------------------------------------------------------------------
  // Captured text

  /** What a capture keeps of a text: as many whole characters as fit, and of a snapshot as
      many whole lines. */
  function CapturedText(content: Text, cap: nat, snapshot: bool): (prefix: Text)
    ensures Utf8Length(prefix) <= cap
    ensures Utf8Length(content) <= cap ==> prefix == content
  {
    var prefix := Utf8Prefix(content, cap);
    if snapshot && |prefix| < |content| then
      var newline := LastIndexOf(prefix, NEWLINE, 0, |prefix|);
      Utf8Shorter(prefix, newline + 1, |prefix|);
      Utf8OfPrefix(prefix, newline + 1, newline + 1);
      prefix[..newline + 1]
    else prefix
  }

  /** A text that does not fit is cut behind its last character that fits, a snapshot behind its last line
      that does. */
  lemma CapturedTextIsCut(content: Text, cap: nat, snapshot: bool)
    ensures var prefix, r := Utf8Prefix(content, cap), CapturedText(content, cap, snapshot);
      if !snapshot || |prefix| >= |content| then r == prefix
      else r <= prefix && (r != [] ==> r[|r| - 1] == NEWLINE) && forall k :: |r| <= k < |prefix| ==> prefix[k] != NEWLINE
  {
    hide Utf8Prefix;
  }

  /** A page whose references were exposed: the entry and the capture it came from, the text
      that was cached then, and what the agent was shown. */
  datatype Delivery = Delivery(entry: nat, captureId: Option<nat>, snapshot: bool, text: Text, page: Page)
  {
    /** What was shown is the page of the captured text, or all of it. */
    predicate Genuine()
    {
      page.cursor <= |text|
      && (page.content == text || page.content == PageAt(text, snapshot, page.cursor).content)
    }
  }

  /** The page is the complete cached snapshot. */
  predicate IsCompleteSnapshot(e: Observation, page: Page)
  {
    e.snapshot && page.cursor == 0 && page.next.None? && page.content == e.Cached() && !page.omittedLine
  }

  /** The agent may be given this page: it reads as the cache would read it now. */
  predicate Deliverable(e: Observation, page: Page)
  {
    && e.content.Some? && page.cursor in e.cursors && page.cursor <= |e.Cached()|
    && (IsCompleteSnapshot(e, page)
        || (page.content == PageAt(e.Cached(), e.snapshot, page.cursor).content
            && page.next == NextCursor(e.Cached(), e.snapshot, page.cursor)))
  }

  /** The page is the whole cached snapshot. */
  predicate IsWhole(e: Observation, page: Page) { e.snapshot && page == Page(e.Cached(), 0, None, false) }

  /** The page reads as the cache would show it at its cursor, on to the same next one. */
  predicate ReadsAs(e: Observation, page: Page)
  {
    page.cursor <= |e.Cached()|
    && var shown := PageAt(e.Cached(), e.snapshot, page.cursor); page.content == shown.content && page.next == shown.next
  }

  /** The page is what the cache would show, or the whole snapshot, and no line of it is left out. */
  predicate ExactPage(e: Observation, page: Page)
  {
    e.content.Some? && page.cursor <= |e.Cached()| && !page.omittedLine && (ReadsAs(e, page) || IsWhole(e, page))
  }

  /** Reading a page offers its next cursor. */
  function Offer(e: Observation, cursor: nat): Observation
    requires cursor <= |e.Cached()|
  {
    var next := NextCursor(e.Cached(), e.snapshot, cursor);
    if next.Some? then e.(cursors := e.cursors + {next.value}) else e
  }

  lemma PageAtNext(content: Text, snapshot: bool, cursor: nat)
    requires cursor <= |content|
    ensures PageAt(content, snapshot, cursor).next == NextCursor(content, snapshot, cursor)
  {
    hide NextCursor, Omits;
  }

  /** The entry after a page of it was delivered. */
  function AfterDelivery(e: Observation, page: Page): Observation
  {
    if e.content.None? || page.cursor !in e.cursors || page.cursor > |e.Cached()| then e
    else
      var offered := if IsCompleteSnapshot(e, page) then e else Offer(e, page.cursor);
      if !Deliverable(e, page) then offered
      else
        offered.(lastReadCursor := Some(page.cursor),
                 completeSnapshotRead := e.completeSnapshotRead || IsCompleteSnapshot(e, page),
                 readPages := e.readPages[page.cursor := page.next])
  }

  /** What a delivery leaves in the entry. A page that was not on offer leaves nothing. The whole snapshot
      settles that all of it was read; a page that reads as the cache would show it is recorded with its
      next cursor, and any page on offer puts that cursor on offer. */
  lemma DeliveryRecords(e: Observation, page: Page)
    ensures var t := AfterDelivery(e, page);
      if e.content.None? || page.cursor !in e.cursors || page.cursor > |e.Cached()| then t == e
      else
        var next := PageAt(e.Cached(), e.snapshot, page.cursor).next;
        var offered := e.cursors + (if IsWhole(e, page) || next.None? then {} else {next.value});
        if IsWhole(e, page) then
          t == e.(lastReadCursor := Some(0), completeSnapshotRead := true, readPages := e.readPages[0 := None])
        else if ReadsAs(e, page) then
          t == e.(cursors := offered, lastReadCursor := Some(page.cursor), readPages := e.readPages[page.cursor := page.next])
        else t == e.(cursors := offered)
  {
    if page.cursor <= |e.Cached()| {
      PageAtNext(e.Cached(), e.snapshot, page.cursor);
    }
    hide PageAt, NextCursor;
  }

  lemma AfterDeliveryIsValid(e: Observation, page: Page)
    requires e.Valid()
    ensures AfterDelivery(e, page).Valid()
  {
    if e.content.Some? && page.cursor in e.cursors {
      OfferIsValid(e, page.cursor);
      if Deliverable(e, page) {
        MarkReadIsValid(if IsCompleteSnapshot(e, page) then e else Offer(e, page.cursor), page);
      }
    }
  }

  lemma MarkReadIsValid(e: Observation, page: Page)
    requires e.Valid() && e.OnChain(page.cursor) && e.content.Some?
    requires IsCompleteSnapshot(e, page) || page.next == NextCursor(e.Cached(), e.snapshot, page.cursor)
    ensures e.(lastReadCursor := Some(page.cursor),
               completeSnapshotRead := e.completeSnapshotRead || IsCompleteSnapshot(e, page),
               readPages := e.readPages[page.cursor := page.next]).Valid()
  {
  }

  lemma OfferIsValid(e: Observation, cursor: nat)
    requires e.Valid() && e.content.Some? && e.OnChain(cursor)
    ensures Offer(e, cursor).Valid()
  {
    hide NextCursor;
    OnChainNext(e, cursor);
  }

  // ---------------------------------------------------------------------------------------
  // New captures

  /** A new capture as it enters the cache. */
  function Fresh(id: nat, captureId: Option<nat>, url: Option<Text>, prefix: Text,
                 identities: Text -> set<nat>, snapshot: bool): Observation
  {
    Observation(id, captureId, (url, Erase(prefix, identities(prefix), 0)), snapshot, Some(prefix),
                Utf8Length(prefix), {0}, map[], None, false, None)
  }

  lemma FreshIsValid(id: nat, captureId: Option<nat>, url: Option<Text>, prefix: Text,
                     identities: Text -> set<nat>, snapshot: bool)
    ensures Fresh(id, captureId, url, prefix, identities, snapshot).Valid()
  {
    if ObservationPaging.Readable(prefix, snapshot) {
      ChainContainsZero(prefix, snapshot);
    }
  }

  /** The entry that a capture adds: fresh, or with the progress of the snapshot before it
      when that is still cached and its content is the same. */
  ghost function Captured(added: Observation, previous: Observation): Observation
  {
    if added.Valid() && previous.Valid() && added.snapshot && previous.snapshot
       && previous.contentKey == added.contentKey
    then Inherited(previous, added) else added
  }

  // ---------------------------------------------------------------------------------------
  // Where entries are, and what delivering a page does to them

  /** Entries are numbered in the order they were saved; only the oldest are ever dropped. */
  function Place(entries: seq<Observation>, order: nat, id: nat): (index: Option<nat>)
  {
    var first := order + 1 - |entries|;
    if first <= id <= order then Some(id - first) else None
  }

  predicate Holds(entries: seq<Observation>, order: nat, id: nat)
  {
    var place := Place(entries, order, id);
    place.Some? && place.value < |entries| && entries[place.value].content.Some?
  }

  /** A page of this entry exposes its references if it is one of the current capture. */
  predicate ExposesIn(entries: seq<Observation>, order: nat, current: Option<nat>, id: nat, page: Page)
  {
    && !page.omittedLine && current.Some? && Holds(entries, order, id) && Holds(entries, order, current.value)
    && var e := entries[Place(entries, order, id).value];
    Deliverable(e, page)
    && (id == current.value
        || (e.captureId.Some? && e.captureId == entries[Place(entries, order, current.value).value].captureId))
  }

  /** The entries after a page was delivered, if there is one. */
  function DeliveredTo(entries: seq<Observation>, order: nat, delivery: Option<(nat, Page)>): (r: seq<Observation>)
    ensures |r| == |entries|
  {
    if delivery.Some? && Holds(entries, order, delivery.value.0) then
      var i := Place(entries, order, delivery.value.0).value;
      entries[i := AfterDelivery(entries[i], delivery.value.1)]
    else entries
  }

  function ExposedBy(entries: seq<Observation>, order: nat, current: Option<nat>, refsIn: Text -> set<Text>,
                     delivery: Option<(nat, Page)>): set<Text>
  {
    if delivery.Some? && ExposesIn(entries, order, current, delivery.value.0, delivery.value.1)
    then refsIn(delivery.value.1.content) else {}
  }

  /** The entry is the same text of the same capture, with at least the same cursors on offer. */
  predicate SameCapture(e: Observation, t: Observation)
  {
    t.content == e.content && t.snapshot == e.snapshot && t.captureId == e.captureId && e.cursors <= t.cursors
  }

  lemma DeliveryKeepsCapture(e: Observation, page: Page)
    ensures SameCapture(e, AfterDelivery(e, page))
  {
    hide NextCursor, Deliverable, IsCompleteSnapshot;
  }

  lemma StillDeliverable(e: Observation, t: Observation, page: Page)
    requires SameCapture(e, t) && Deliverable(e, page)
    ensures Deliverable(t, page)
  {
    hide PageAt, NextCursor;
  }

  lemma DeliveryKeepsExposing(entries: seq<Observation>, order: nat, delivery: Option<(nat, Page)>, current: Option<nat>,
                              id: nat, page: Page)
    requires ExposesIn(entries, order, current, id, page)
    ensures ExposesIn(DeliveredTo(entries, order, delivery), order, current, id, page)
  {
    hide AfterDelivery, Deliverable, SameCapture;
    var after := DeliveredTo(entries, order, delivery);
    forall k | 0 <= k < |entries| ensures SameCapture(entries[k], after[k]) {
      if delivery.Some? {
        DeliveryKeepsCapture(entries[k], delivery.value.1);
      }
      ItselfCapture(entries[k]);
    }
    var i, c := Place(entries, order, id).value, Place(entries, order, current.value).value;
    StillDeliverable(entries[i], after[i], page);
    SameCaptureHolds(entries[i], after[i]);
    SameCaptureHolds(entries[c], after[c]);
  }

  lemma DeliveryKeepsEntry(entries: seq<Observation>, order: nat, delivery: Option<(nat, Page)>, id: nat)
    ensures var after := DeliveredTo(entries, order, delivery);
      && (Holds(after, order, id) <==> Holds(entries, order, id))
      && (Holds(entries, order, id) ==>
            SameCapture(entries[Place(entries, order, id).value], after[Place(after, order, id).value]))
  {
    var after := DeliveredTo(entries, order, delivery);
    forall k | 0 <= k < |entries| ensures SameCapture(entries[k], after[k]) {
      if delivery.Some? {
        DeliveryKeepsCapture(entries[k], delivery.value.1);
      }
    }
    hide AfterDelivery, DeliveredTo;
  }

  lemma OtherUntouched(entries: seq<Observation>, order: nat, delivery: Option<(nat, Page)>, id: nat)
    requires Holds(entries, order, id) && (delivery.Some? ==> delivery.value.0 != id)
    ensures var i := Place(entries, order, id).value; DeliveredTo(entries, order, delivery)[i] == entries[i]
  {
    hide AfterDelivery;
  }

  /** A page that may be given as one of an entry is an exact one of it, before and after a delivery. */
  lemma ExactInCapture(e: Observation, t: Observation, page: Page)
    requires SameCapture(e, t) && Deliverable(t, page) && !page.omittedLine
    ensures ExactPage(e, page)
    ensures t == e ==> page.cursor in e.cursors
  {
    PageAtNext(e.Cached(), e.snapshot, page.cursor);
    hide PageAt, NextCursor;
  }

  /** Deliveries to two entries are each recorded, and touch no other. */
  lemma DeliveriesRecord(entries: seq<Observation>, order: nat, first: Option<(nat, Page)>, second: Option<(nat, Page)>)
    ensures var after := DeliveredTo(DeliveredTo(entries, order, first), order, second);
      && (first.Some? && Holds(entries, order, first.value.0) && (second.None? || second.value.0 != first.value.0) ==>
            Holds(after, order, first.value.0)
            && after[Place(after, order, first.value.0).value]
               == AfterDelivery(entries[Place(entries, order, first.value.0).value], first.value.1))
      && (second.Some? && Holds(entries, order, second.value.0) && (first.None? || second.value.0 != first.value.0) ==>
            Holds(after, order, second.value.0)
            && after[Place(after, order, second.value.0).value]
               == AfterDelivery(entries[Place(entries, order, second.value.0).value], second.value.1))
  {
    var middle := DeliveredTo(entries, order, first);
    if first.Some? {
      DeliveryKeepsEntry(entries, order, first, first.value.0);
      DeliveryKeepsEntry(middle, order, second, first.value.0);
    }
    if second.Some? {
      DeliveryKeepsEntry(entries, order, first, second.value.0);
      DeliveryKeepsEntry(middle, order, second, second.value.0);
    }
    hide AfterDelivery, SameCapture;
  }

  lemma ItselfCapture(e: Observation)
    ensures SameCapture(e, e)
  {
  }

  lemma SameCaptureHolds(e: Observation, t: Observation)
    requires SameCapture(e, t)
    ensures t.content == e.content && t.captureId == e.captureId
  {
  }

  class BrowserObservations {
    const cacheBytes: nat
    const deferRefDelivery: bool
    /** The references named in a text. */
    const refsIn: Text -> set<Text>

    var entries: seq<Observation>
    var order: nat
    var bytes: nat
    var currentSnapshot: Option<nat>
    var currentSnapshotUrl: Option<Text>
    var exposedRefs: set<Text>
    var pageDirty: bool

    /** The pages that exposed references since the last invalidation or committed request. */
    ghost var deliveries: seq<Delivery>

    function Find(id: nat): (index: Option<nat>)
      reads this
    {
      Place(entries, order, id)
    }

    predicate Has(id: nat)
      reads this
    {
      Holds(entries, order, id)
    }

    function Entry(id: nat): Observation
      requires Has(id)
      reads this
    {
      entries[Find(id).value]
    }

    /** The page belongs to the capture that the current snapshot shows. */
    ghost predicate OfCurrentCapture(d: Delivery)
      requires currentSnapshot.Some? && Has(currentSnapshot.value)
      reads this
    {
      d.entry == currentSnapshot.value
      || (d.captureId.Some? && d.captureId == Entry(currentSnapshot.value).captureId)
    }

    /** The reference stands in a page of the current capture that the agent was shown. */
    ghost predicate Shown(ref: Text)
      requires currentSnapshot.Some? && Has(currentSnapshot.value)
      reads this
    {
      exists d :: d in deliveries && OfCurrentCapture(d) && d.Genuine() && ref in refsIn(d.page.content)
    }

    /** Each actionable reference was shown since the last invalidation. */
    ghost predicate RefsDelivered()
      reads this
    {
      && (currentSnapshot.None? ==> exposedRefs == {})
      && (currentSnapshot.Some? && Has(currentSnapshot.value) ==>
            forall ref :: ref in exposedRefs ==> Shown(ref))
    }

    /** An entry is held if one of this number still has its text. */
    lemma HasExactlyWhen(id: nat)
      requires Valid()
      ensures Has(id) <==> exists k :: 0 <= k < |entries| && entries[k].id == id && entries[k].content.Some?
      ensures Has(id) ==> Entry(id).id == id
    {
      hide Observation.Valid, RefsDelivered, TotalBytes;
      if Has(id) {
        assert entries[Find(id).value].id == id;
      }
    }

    /** Everything that holds of the cache even while a save is still making room. */
    ghost predicate Coherent()
      reads this
    {
      && |entries| <= order
      && (forall k :: 0 <= k < |entries| ==>
            entries[k].Valid() && entries[k].id == order + 1 - |entries| + k)
      && bytes == TotalBytes(entries)
      && (currentSnapshot.Some? ==>
            Has(currentSnapshot.value) && Entry(currentSnapshot.value).snapshot)
      && RefsDelivered()
    }

    ghost predicate Valid()
      reads this
    {
      Coherent() && |entries| <= MAX_ENTRIES && bytes <= cacheBytes
    }

    constructor (cacheBytes: nat, deferRefDelivery: bool, refsIn: Text -> set<Text>)
      ensures Valid()
      ensures entries == [] && currentSnapshot == None && exposedRefs == {}
    {
      this.cacheBytes := cacheBytes;
      this.deferRefDelivery := deferRefDelivery;
      this.refsIn := refsIn;
      entries := [];
      order, bytes := 0, 0;
      currentSnapshot, currentSnapshotUrl := None, None;
      exposedRefs := {};
      pageDirty := true;
      deliveries := [];
    }

    method Invalidate()
      modifies this
      ensures entries == old(entries) && order == old(order) && bytes == old(bytes)
      ensures currentSnapshot == None && exposedRefs == {} && pageDirty && deliveries == []
      ensures old(Coherent()) ==> Coherent()
    {
      currentSnapshot := None;
      currentSnapshotUrl := None;
      exposedRefs := {};
      pageDirty := true;
      deliveries := [];
    }

    /** Whether a command that names these references must be refused. */
    method StaleRef(refs: set<Text>) returns (stale: bool)
      requires Valid()
      ensures stale <==> exists ref :: ref in refs && !Actionable(ref)
      ensures !stale ==> forall ref :: ref in refs ==>
        currentSnapshot.Some? && Has(currentSnapshot.value) && Shown(ref)
    {
      stale := exists ref :: ref in refs && (currentSnapshot.None? || ref !in exposedRefs);
    }

    /** The entries other than the current snapshot may change; it keeps its capture. */
    twostate predicate CurrentKept()
      reads this
    {
      && currentSnapshot == old(currentSnapshot) && currentSnapshotUrl == old(currentSnapshotUrl)
      && exposedRefs == old(exposedRefs) && deliveries == old(deliveries)
      && pageDirty == old(pageDirty)
    }

    twostate predicate CurrentDropped()
      reads this
    {
      currentSnapshot == None && exposedRefs == {} && deliveries == [] && pageDirty
    }

    method Evict(index: nat)
      requires Coherent() && index < |entries|
      modifies this
      ensures Coherent()
      ensures entries == old(entries)[index := Evicted(old(entries)[index])] && order == old(order)
      ensures bytes == old(bytes) - old(entries)[index].bytes
      ensures if old(currentSnapshot) == Some(old(entries)[index].id) then CurrentDropped() else CurrentKept()
    {
      hide TotalBytes, Chain, NextCursor;
      var e := entries[index];
      TotalAfterEviction(entries, index);
      entries := entries[index := Evicted(e)];
      bytes := bytes - e.bytes;
      if currentSnapshot == Some(e.id) {
        Invalidate();
      }
    }

    /** Make room: evict the oldest entries until the cap is met, then drop the entry beyond
        the limit. */
    method MakeRoom()
      requires Coherent() && 0 < |entries| <= MAX_ENTRIES + 1
      requires entries[|entries| - 1].bytes <= cacheBytes
      modifies this
      ensures Valid()
      ensures var kept := EvictFrom(old(entries), 0, cacheBytes);
        entries == if |kept| > MAX_ENTRIES then kept[1..] else kept
      ensures order == old(order)
      ensures CurrentKept() || CurrentDropped()
    {
      EvictUntilWithinCap();
      EvictionKeepsNewest(old(entries), 0, cacheBytes);
      if |entries| > MAX_ENTRIES {
        DropOldest();
      }
    }

    method EvictUntilWithinCap()
      requires Coherent()
      modifies this
      ensures Coherent()
      ensures entries == EvictFrom(old(entries), 0, cacheBytes) && order == old(order)
      ensures CurrentKept() || CurrentDropped()
    {
      hide Coherent, TotalBytes, Evicted;
      assert bytes == TotalBytes(entries) by { CoherentBytes(); }
      var i := 0;
      while i < |entries| && bytes > cacheBytes
        invariant Coherent() && bytes == TotalBytes(entries)
        invariant 0 <= i <= |entries| == |old(entries)| && order == old(order)
        invariant EvictFrom(entries, i, cacheBytes) == EvictFrom(old(entries), 0, cacheBytes)
        invariant CurrentKept() || CurrentDropped()
      {
        Evict(i);
        assert bytes == TotalBytes(entries) by { CoherentBytes(); }
        i := i + 1;
      }
    }

    lemma CoherentBytes()
      requires Coherent()
      ensures bytes == TotalBytes(entries)
    {
    }

    method DropOldest()
      requires Coherent() && |entries| > 0
      modifies this
      ensures Coherent() && entries == old(entries[1..]) && order == old(order)
      ensures bytes == old(bytes) - old(entries)[0].bytes
      ensures CurrentKept() || CurrentDropped()
    {
      hide Observation.Valid, TotalBytes;
      Evict(0);
      DropFirst(entries);
      entries := entries[1..];
    }

    function CaptureCap(): nat
    {
      if CAPTURE_BYTES < cacheBytes then CAPTURE_BYTES else cacheBytes
    }

    /** Save a capture. It never evicts the entry it has just added. */
    method Save(content: Text, captureId: Option<nat>, url: Option<Text>,
                identities: Text -> set<nat>, snapshot: bool) returns (id: nat)
      requires Valid()
      modifies this
      ensures Valid()
      ensures id == order == old(order) + 1 && Has(id)
      ensures Entry(id).bytes <= 256 * 1024 && Entry(id).bytes <= cacheBytes
      ensures Utf8Length(content) <= 256 * 1024 && Utf8Length(content) <= cacheBytes ==> Entry(id).content == Some(content)
      ensures Entry(id) == Fresh(id, captureId, url, CapturedText(content, CaptureCap(), snapshot),
                                 identities, snapshot)
      ensures var grown := old(entries) + [Entry(id)];
        var kept := EvictFrom(grown, 0, cacheBytes);
        entries == if |kept| > MAX_ENTRIES then kept[1..] else kept
      ensures CurrentKept() || CurrentDropped()
    {
      var prefix := CapturedText(content, CaptureCap(), snapshot);
      id := order + 1;
      var entry := Fresh(id, captureId, url, prefix, identities, snapshot);
      FreshIsValid(id, captureId, url, prefix, identities, snapshot);
      Insert(entry);
    }

    method Insert(entry: Observation)
      requires Valid() && entry.Valid() && entry.content.Some?
      requires entry.id == order + 1 && entry.bytes <= cacheBytes
      modifies this
      ensures Valid() && order == old(order) + 1
      ensures Has(order) && Entry(order) == entry
      ensures var kept := EvictFrom(old(entries) + [entry], 0, cacheBytes);
        entries == if |kept| > MAX_ENTRIES then kept[1..] else kept
      ensures CurrentKept() || CurrentDropped()
    {
      hide Coherent, Observation.Valid, EvictFrom, RefsDelivered;
      Append(entry);
      EvictionKeepsNewest(entries, 0, cacheBytes);
      MakeRoom();
    }

    method Append(entry: Observation)
      requires Coherent() && entry.Valid() && entry.id == order + 1
      modifies this
      ensures Coherent() && order == old(order) + 1
      ensures entries == old(entries) + [entry]
      ensures CurrentKept()
    {
      hide Observation.Valid;
      order := order + 1;
      assert (entries + [entry])[..|entries|] == entries;
      entries := entries + [entry];
      bytes := bytes + entry.bytes;
    }

    /** Replace the progress recorded for an entry; its text and its capture stay. */
    method Update(id: nat, e: Observation)
      requires Valid() && Has(id) && e.Valid()
      requires e.id == id && e.content == Entry(id).content && e.bytes == Entry(id).bytes
      requires e.captureId == Entry(id).captureId && e.snapshot == Entry(id).snapshot
      modifies this`entries
      ensures Valid() && Has(id) && entries == old(entries)[old(Find(id).value) := e]
    {
      hide Observation.Valid;
      var index := Find(id).value;
      TotalUnchanged(entries, index, e);
      entries := entries[index := e];
      assert RefsDelivered() by {
        if currentSnapshot.Some? {
          assert Entry(currentSnapshot.value).captureId == old(Entry(currentSnapshot.value).captureId);
          forall ref | ref in exposedRefs
            ensures Shown(ref)
          {
            var d :| d in deliveries && old(OfCurrentCapture(d)) && d.Genuine() && ref in refsIn(d.page.content);
            assert OfCurrentCapture(d);
          }
        }
      }
    }

    /** The page is an exact one of the current snapshot, or of an entry of the same capture. */
    predicate CurrentPage(delivery: Option<(nat, Page)>)
      reads this
    {
      && delivery.Some? && currentSnapshot.Some? && Has(currentSnapshot.value) && Has(delivery.value.0)
      && ExactPage(Entry(delivery.value.0), delivery.value.1) && delivery.value.1.cursor in Entry(delivery.value.0).cursors
      && (delivery.value.0 == currentSnapshot.value
          || (Entry(delivery.value.0).captureId.Some?
              && Entry(delivery.value.0).captureId == Entry(currentSnapshot.value).captureId))
    }

    /** The same, on offer or not. */
    predicate OfCurrent(delivery: Option<(nat, Page)>)
      reads this
    {
      && delivery.Some? && currentSnapshot.Some? && Has(currentSnapshot.value) && Has(delivery.value.0)
      && ExactPage(Entry(delivery.value.0), delivery.value.1)
      && (delivery.value.0 == currentSnapshot.value
          || (Entry(delivery.value.0).captureId.Some?
              && Entry(delivery.value.0).captureId == Entry(currentSnapshot.value).captureId))
    }

    /** The agent may name this reference in a command. */
    predicate Actionable(ref: Text)
      reads this
    {
      currentSnapshot.Some? && ref in exposedRefs
    }

    /** A delivery of this page exposes its references. */
    predicate Exposes(id: nat, page: Page, exposeRefs: bool)
      reads this
    {
      exposeRefs && ExposesIn(entries, order, currentSnapshot, id, page)
    }

    /** Record that a page was shown, and expose its references when asked to. Only an exact
        page of the captured text counts, and only one of the current capture exposes refs. */
    method DeliverPage(id: nat, page: Page, exposeRefs: bool)
      requires Valid()
      modifies this
      ensures Valid() && currentSnapshot == old(currentSnapshot) && order == old(order)
      ensures entries == DeliveredTo(old(entries), order, Some((id, page)))
      ensures exposedRefs == if old(Exposes(id, page, exposeRefs))
                             then old(exposedRefs) + refsIn(page.content) else old(exposedRefs)
      ensures old(Has(id)) ==> Has(id) && Entry(id) == AfterDelivery(old(Entry(id)), page)
      ensures exposeRefs && old(CurrentPage(Some((id, page)))) ==> forall ref :: ref in refsIn(page.content) ==> Actionable(ref)
    {
      if CurrentPage(Some((id, page))) {
        ExactPageExposes(id, page);
      }
      DeliveriesRecord(entries, order, Some((id, page)), None);
      CurrentIsCurrent(Some((id, page)));
      hide Valid, Coherent, ExposesIn, AfterDelivery, Holds, Place, DeliveredTo, CurrentPage;
      RecordAndExpose(id, page, exposeRefs);
    }

    method RecordAndExpose(id: nat, page: Page, exposeRefs: bool)
      requires Valid()
      modifies this
      ensures Valid() && currentSnapshot == old(currentSnapshot) && order == old(order)
      ensures entries == DeliveredTo(old(entries), order, Some((id, page)))
      ensures exposedRefs == if old(Exposes(id, page, exposeRefs))
                             then old(exposedRefs) + refsIn(page.content) else old(exposedRefs)
    {
      hide Coherent, Observation.Valid, Deliverable, CurrentPage;
      if Has(id) {
        if Exposes(id, page, exposeRefs) {
          Expose(id, page);
        }
        RecordDelivery(id, page);
      }
    }

    lemma ExactPageExposes(id: nat, page: Page)
      requires Valid() && CurrentPage(Some((id, page)))
      ensures Exposes(id, page, true)
    {
      hide PageAt, NextCursor;
      PageAtNext(Entry(id).Cached(), Entry(id).snapshot, page.cursor);
    }

    /** Recording the delivery of one page leaves another an exact one of the current capture. */
    lemma CurrentPagesExpose(snapshot: Option<(nat, Page)>, latest: Option<(nat, Page)>)
      requires Valid()
      ensures CurrentPage(snapshot) ==> ExposesIn(entries, order, currentSnapshot, snapshot.value.0, snapshot.value.1)
      ensures CurrentPage(latest) ==>
        ExposesIn(DeliveredTo(entries, order, snapshot), order, currentSnapshot, latest.value.0, latest.value.1)
    {
      if CurrentPage(snapshot) {
        ExactPageExposes(snapshot.value.0, snapshot.value.1);
      }
      if CurrentPage(latest) {
        ExactPageExposes(latest.value.0, latest.value.1);
        hide Valid, CurrentPage, ExposesIn;
        DeliveryKeepsExposing(entries, order, snapshot, currentSnapshot, latest.value.0, latest.value.1);
      }
    }

    /** Only exact pages on offer of the current capture expose anything; the second may have come on
        offer by the delivery of the first. */
    lemma OnlyCurrentPagesExpose(snapshot: Option<(nat, Page)>, latest: Option<(nat, Page)>)
      requires Valid()
      ensures snapshot.Some? && ExposesIn(entries, order, currentSnapshot, snapshot.value.0, snapshot.value.1) ==>
                CurrentPage(snapshot)
      ensures latest.Some? && ExposesIn(DeliveredTo(entries, order, snapshot), order, currentSnapshot, latest.value.0, latest.value.1)
              ==> CurrentPage(latest) || (OfCurrent(latest) && snapshot.Some? && snapshot.value.0 == latest.value.0)
    {
      if snapshot.Some? && ExposesIn(entries, order, currentSnapshot, snapshot.value.0, snapshot.value.1) {
        OnlyExactPageExposes(snapshot);
      }
      if latest.Some? && ExposesIn(DeliveredTo(entries, order, snapshot), order, currentSnapshot, latest.value.0, latest.value.1) {
        LaterPageIsExact(snapshot, latest);
        if snapshot.None? || snapshot.value.0 != latest.value.0 {
          LaterPageIsOnOffer(snapshot, latest);
        }
      }
      hide ExposesIn, CurrentPage, OfCurrent, Valid;
    }

    lemma LaterPageIsExact(snapshot: Option<(nat, Page)>, latest: Option<(nat, Page)>)
      requires latest.Some?
      requires ExposesIn(DeliveredTo(entries, order, snapshot), order, currentSnapshot, latest.value.0, latest.value.1)
      ensures OfCurrent(latest)
    {
      var after := DeliveredTo(entries, order, snapshot);
      DeliveryKeepsEntry(entries, order, snapshot, latest.value.0);
      DeliveryKeepsEntry(entries, order, snapshot, currentSnapshot.value);
      hide DeliveredTo;
      ExactInCapture(entries[Place(entries, order, latest.value.0).value], after[Place(after, order, latest.value.0).value],
                     latest.value.1);
      hide ExactPage, Deliverable;
    }

    lemma LaterPageIsOnOffer(snapshot: Option<(nat, Page)>, latest: Option<(nat, Page)>)
      requires latest.Some? && OfCurrent(latest) && (snapshot.Some? ==> snapshot.value.0 != latest.value.0)
      requires ExposesIn(DeliveredTo(entries, order, snapshot), order, currentSnapshot, latest.value.0, latest.value.1)
      ensures CurrentPage(latest)
    {
      OtherUntouched(entries, order, snapshot, latest.value.0);
      hide DeliveredTo, ExactPage, PageAt, NextCursor, IsCompleteSnapshot;
    }

    lemma OnlyExactPageExposes(delivery: Option<(nat, Page)>)
      requires delivery.Some? && ExposesIn(entries, order, currentSnapshot, delivery.value.0, delivery.value.1)
      ensures CurrentPage(delivery)
    {
      var e := Entry(delivery.value.0);
      ItselfCapture(e);
      ExactInCapture(e, e, delivery.value.1);
      hide PageAt, NextCursor, ExactPage;
    }

    method RecordDelivery(id: nat, page: Page)
      requires Valid() && Has(id)
      modifies this`entries
      ensures Valid() && entries == old(entries)[old(Find(id).value) := AfterDelivery(old(Entry(id)), page)]
    {
      var e := Entry(id);
      AfterDeliveryIsValid(e, page);
      hide Coherent, Observation.Valid, IsCompleteSnapshot, PageAt, Offer;
      Update(id, AfterDelivery(e, page));
    }

    method Expose(id: nat, page: Page)
      requires Valid() && Exposes(id, page, true)
      modifies this`exposedRefs, this`deliveries
      ensures Valid() && exposedRefs == old(exposedRefs) + refsIn(page.content)
    {
      hide Observation.Valid, TotalBytes;
      var e := Entry(id);
      var d := Delivery(id, e.captureId, e.snapshot, e.Cached(), page);
      assert d.Genuine();
      hide Deliverable, PageAt;
      deliveries := deliveries + [d];
      exposedRefs := exposedRefs + refsIn(page.content);
      forall ref | ref in exposedRefs
        ensures Shown(ref)
      {
        if ref in refsIn(page.content) {
          assert d in deliveries && OfCurrentCapture(d);
        } else {
          var earlier :| earlier in old(deliveries) && OfCurrentCapture(earlier) && earlier.Genuine()
                         && ref in refsIn(earlier.page.content);
          assert earlier in deliveries;
        }
      }
    }

    method ForgetExposed()
      requires Valid()
      modifies this`exposedRefs, this`deliveries
      ensures Valid() && exposedRefs == {}
    {
      exposedRefs := {};
      deliveries := [];
    }

    /** Earlier references lapse, and the pages are delivered one after the other. */
    method DeliverBoth(snapshot: Option<(nat, Page)>, latest: Option<(nat, Page)>)
      requires Valid()
      modifies this
      ensures Valid() && currentSnapshot == old(currentSnapshot) && order == old(order)
      ensures var first := DeliveredTo(old(entries), order, snapshot);
        && entries == DeliveredTo(first, order, latest)
        && exposedRefs == ExposedBy(old(entries), order, currentSnapshot, refsIn, snapshot)
                          + ExposedBy(first, order, currentSnapshot, refsIn, latest)
    {
      hide Valid, AfterDelivery, ExposesIn, Holds, CurrentPage;
      ForgetExposed();
      if snapshot.Some? {
        DeliverPage(snapshot.value.0, snapshot.value.1, true);
      }
      if latest.Some? {
        DeliverPage(latest.value.0, latest.value.1, true);
      }
    }

    /** Commit the pages of a request that fits its budget. What can then be acted on is what stands in
        these pages, if they are of the current capture; and each delivery is recorded. */
    method DeliverCurrentPage(snapshot: Option<(nat, Page)>, latest: Option<(nat, Page)>)
      requires Valid()
      modifies this
      ensures Valid() && currentSnapshot == old(currentSnapshot) && order == old(order)
      ensures var first := DeliveredTo(old(entries), order, snapshot);
        && entries == DeliveredTo(first, order, latest)
        && exposedRefs == ExposedBy(old(entries), order, currentSnapshot, refsIn, snapshot)
                          + ExposedBy(first, order, currentSnapshot, refsIn, latest)
      ensures old(CurrentPage(snapshot)) ==> forall ref :: ref in refsIn(snapshot.value.1.content) ==> Actionable(ref)
      ensures old(CurrentPage(latest)) ==> forall ref :: ref in refsIn(latest.value.1.content) ==> Actionable(ref)
      ensures forall ref :: ref in exposedRefs ==>
        (old(CurrentPage(snapshot)) && ref in refsIn(snapshot.value.1.content))
        || (old(CurrentPage(latest) || (OfCurrent(latest) && snapshot.Some? && snapshot.value.0 == latest.value.0))
            && ref in refsIn(latest.value.1.content))
      ensures snapshot.Some? && old(Has(snapshot.value.0)) && (latest.None? || latest.value.0 != snapshot.value.0) ==>
        Has(snapshot.value.0) && Entry(snapshot.value.0) == AfterDelivery(old(Entry(snapshot.value.0)), snapshot.value.1)
      ensures latest.Some? && old(Has(latest.value.0)) && (snapshot.None? || latest.value.0 != snapshot.value.0) ==>
        Has(latest.value.0) && Entry(latest.value.0) == AfterDelivery(old(Entry(latest.value.0)), latest.value.1)
    {
      CurrentPagesExpose(snapshot, latest);
      OnlyCurrentPagesExpose(snapshot, latest);
      DeliveriesRecord(entries, order, snapshot, latest);
      CurrentIsCurrent(snapshot);
      CurrentIsCurrent(latest);
      hide Valid, Coherent, AfterDelivery, ExposesIn, Holds, CurrentPage, OfCurrent, DeliveredTo, Place;
      DeliverBoth(snapshot, latest);
    }

    lemma CurrentIsCurrent(delivery: Option<(nat, Page)>)
      ensures CurrentPage(delivery) ==> delivery.Some? && currentSnapshot.Some?
    {
    }

    /** Read a page the agent asked for by an offered cursor. With deferred delivery no
        reference becomes actionable until the request is committed. */
    method Read(id: nat, cursor: nat) returns (page: Option<Page>)
      requires Valid()
      modifies this
      ensures Valid() && currentSnapshot == old(currentSnapshot)
      ensures page.Some? <==> old(Has(id)) && cursor in old(Entry(id)).cursors
      ensures page.Some? ==> cursor <= |old(Entry(id)).Cached()|
      ensures page.Some? ==>
        page.value == PageAt(old(Entry(id)).Cached(), old(Entry(id)).snapshot, cursor)
      ensures deferRefDelivery ==> exposedRefs == old(exposedRefs)
    {
      if !Has(id) || cursor !in Entry(id).cursors {
        return None;
      }
      var e := Entry(id);
      assert e.Valid();
      var read := ReadPage(e.Cached(), e.snapshot, cursor);
      page := Some(read);
      DeliverPage(id, read, !deferRefDelivery);
    }

    /** A command was executed and its response captured. Anything but a read makes the page
        dirty and, unless it was a form input that succeeded, invalidates the snapshot; so do a
        navigation and a new snapshot. */
    method Capture(readCommand: bool, formInputSucceeded: bool, snapshotCommand: bool, succeeded: bool,
                   url: Option<Text>, content: Text, isText: bool, captureId: Option<nat>,
                   identities: Text -> set<nat>)
      returns (id: nat)
      requires Valid()
      modifies this
      ensures Valid() && id == order == old(order) + 1 && Has(id)
      ensures snapshotCommand ==> exposedRefs == {}
      ensures snapshotCommand ==> currentSnapshot == (if isText && succeeded then Some(id) else None)
      ensures !readCommand && !formInputSucceeded && !snapshotCommand ==> currentSnapshot == None
      ensures !snapshotCommand ==> currentSnapshot == None || CurrentKeptButDirty()
      ensures var added := Fresh(id, captureId, url, CapturedText(content, CaptureCap(), snapshotCommand && isText),
                                 identities, snapshotCommand && isText);
        var previous := old(currentSnapshot);
        Entry(id) == if snapshotCommand && isText && succeeded && previous.Some? && Has(previous.value)
                     then Captured(added, Entry(previous.value)) else added
    {
      var previous := currentSnapshot;
      assert previous.Some? ==> previous.value <= order;
      hide Valid, Coherent, Observation.Valid, Captured, CapturedText, Utf8Length, Erase, EvictFrom;
      InvalidateFor(readCommand, formInputSucceeded, snapshotCommand, url);
      id := Save(content, captureId, url, identities, snapshotCommand && isText);
      if snapshotCommand && isText && succeeded {
        ShowSnapshot(id, url, previous);
      }
    }

    /** The saved snapshot becomes the current one and takes over what was read before it. */
    method ShowSnapshot(id: nat, url: Option<Text>, previous: Option<nat>)
      requires Valid() && Has(id) && Entry(id).snapshot && exposedRefs == {} && previous != Some(id)
      modifies this
      ensures Valid() && Has(id) && order == old(order)
      ensures currentSnapshot == Some(id) && exposedRefs == {}
      ensures Entry(id) == if previous.Some? && Has(previous.value)
                           then Captured(old(Entry(id)), Entry(previous.value)) else old(Entry(id))
    {
      hide Valid, Coherent, Observation.Valid, Captured;
      MakeCurrent(id, url);
      if previous.Some? && Has(previous.value) {
        Adopt(id, previous.value);
      }
    }

    twostate predicate CurrentKeptButDirty()
      reads this
    {
      currentSnapshot == old(currentSnapshot) && exposedRefs == old(exposedRefs) && deliveries == old(deliveries)
    }

    method InvalidateFor(readCommand: bool, formInputSucceeded: bool, snapshotCommand: bool, url: Option<Text>)
      requires Valid()
      modifies this
      ensures Valid() && entries == old(entries) && order == old(order)
      ensures !readCommand ==> pageDirty
      ensures currentSnapshot ==
        if (!readCommand && !formInputSucceeded) || snapshotCommand
           || (url.Some? && old(currentSnapshotUrl) != url) then None
        else old(currentSnapshot)
      ensures currentSnapshot == None || CurrentKeptButDirty()
      ensures snapshotCommand ==> exposedRefs == {}
    {
      if !readCommand {
        pageDirty := true;
        if !formInputSucceeded {
          Invalidate();
        }
      }
      if url.Some? && currentSnapshot.Some? && currentSnapshotUrl != url {
        Invalidate();
      }
      if snapshotCommand {
        Invalidate();
      }
    }

    method Adopt(id: nat, previous: nat)
      requires Valid() && Has(id) && Has(previous) && id != previous && Entry(id).snapshot
      modifies this`entries
      ensures Valid() && Has(id) && order == old(order)
      ensures entries == old(entries)[old(Find(id).value) := Captured(old(Entry(id)), old(Entry(previous)))]
      ensures Has(previous) && Entry(previous) == old(Entry(previous))
      ensures Entry(id) == Captured(old(Entry(id)), Entry(previous))
    {
      var e := Entry(id);
      assert e.Valid() && Entry(previous).Valid();
      hide Coherent, Observation.Valid, Inherited, Place;
      if Entry(previous).snapshot && Entry(previous).contentKey == e.contentKey {
        InheritedIsValid(Entry(previous), e);
        var entry := InheritReadProgress(Entry(previous), e);
        Update(id, entry);
      }
    }

    method MakeCurrent(id: nat, url: Option<Text>)
      requires Valid() && Has(id) && Entry(id).snapshot && exposedRefs == {}
      modifies this`currentSnapshot, this`currentSnapshotUrl, this`pageDirty
      ensures Valid() && currentSnapshot == Some(id) && !pageDirty
    {
      currentSnapshot := Some(id);
      currentSnapshotUrl := url;
      pageDirty := false;
    }
  }

  lemma {:induction false} DropFirst(entries: seq<Observation>)
    requires entries != []
    ensures TotalBytes(entries) == entries[0].bytes + TotalBytes(entries[1..])
  {
    var n := |entries|;
    if n > 1 {
      DropFirst(entries[..n - 1]);
      assert entries[1..][..n - 2] == entries[..n - 1][1..];
    } else {
      assert entries[..0] == [] && entries[1..] == [];
    }
  }

  lemma {:induction false} TotalUnchanged(entries: seq<Observation>, i: nat, e: Observation)
    requires i < |entries| && e.bytes == entries[i].bytes
    ensures TotalBytes(entries[i := e]) == TotalBytes(entries)
  {
    var last := |entries| - 1;
    if i == last {
      assert entries[i := e][..last] == entries[..last];
    } else {
      assert entries[i := e][..last] == entries[..last][i := e];
      TotalUnchanged(entries[..last], i, e);
    }
  }
}
