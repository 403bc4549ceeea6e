/** Which parts of a cached observation an agent has read, and how that progress is carried
    over to a new capture of the same page whose references may have other widths. */
module ReadProgress {
  import opened Utf16
  import opened Wrappers
  import opened ObservationPaging

  /** The URL of a capture and its text without capture identities; the program keeps a hash. */
  type ContentKey = (Option<Text>, Text)

  /** One cached observation. `content` is gone once the entry has been evicted. `cursors` are
      the cursors offered so far, `readPages` maps the cursor of each page read to the cursor
      after it, and `completeSnapshotRead` says that the whole snapshot was delivered at once. */
  datatype Observation = Observation(
    id: nat,
    captureId: Option<nat>,
    contentKey: ContentKey,
    snapshot: bool,
    content: Option<Text>,
    bytes: nat,
    cursors: set<nat>,
    readPages: map<nat, Option<nat>>,
    lastReadCursor: Option<nat>,
    completeSnapshotRead: bool,
    inheritedFrom: Option<nat>)
  {
    /** Text still cached; nothing once evicted. */
    function Cached(): (text: Text)
      ensures match content case Some(captured) => text == captured case None => text == []
    {
      if content.Some? then content.value else []
    }

    /** A cursor of this text that following next cursors from the start can reach. */
    ghost predicate OnChain(cursor: nat)
    {
      cursor <= |Cached()| && (ObservationPaging.Readable(Cached(), snapshot) ==> cursor in Chain(Cached(), snapshot, 0))
    }

    /** The recorded progress is about pages of this text: offered cursors lie on its chain,
        and a page read ends where that page of the text ends. Nothing is recorded about text
        that is gone. */
    ghost predicate Valid()
    {
      && (forall c :: c in cursors ==> OnChain(c))
      && (forall c :: c in readPages ==>
            OnChain(c)
            && (readPages[c] == NextCursor(Cached(), snapshot, c)
                || (c == 0 && readPages[c] == None && completeSnapshotRead)))
      && (content.Some? && lastReadCursor.Some? ==> OnChain(lastReadCursor.value))
      && (completeSnapshotRead ==> snapshot)
      && (content.None? ==> bytes == 0 && cursors == {} && readPages == map[])
    }

    predicate Readable() { ObservationPaging.Readable(Cached(), snapshot) }
  }

  // ---------------------------------------------------------------------------------------
  // The next unread page

  /** The first cursor of the chain whose page has not been read. */
  function NextUnreadFrom(e: Observation, cursor: nat): (next: Option<nat>)
    requires e.Valid() && e.Readable() && cursor in Chain(e.Cached(), e.snapshot, 0)
    requires !e.completeSnapshotRead
    decreases |e.Cached()| - cursor
  {
    if cursor !in e.readPages then Some(cursor)
    else if e.readPages[cursor].None? then None
    else
      ChainContainsNext(e.Cached(), e.snapshot, cursor);
      NextUnreadFrom(e, e.readPages[cursor].value)
  }

  function NextUnread(e: Observation): Option<nat>
    requires e.Valid() && e.Readable()
  {
    if e.completeSnapshotRead then None
    else
      ChainContainsZero(e.Cached(), e.snapshot);
      NextUnreadFrom(e, 0)
  }

  /** The loop of the program over the recorded pages. */
  method NextUnreadCursor(e: Observation) returns (next: Option<nat>)
    requires e.Valid() && e.Readable()
    ensures next == NextUnread(e)
  {
    if e.completeSnapshotRead {
      return None;
    }
    ChainContainsZero(e.Cached(), e.snapshot);
    next := Some(0);
    while next.Some? && next.value in e.readPages
      invariant next.Some? ==> next.value in Chain(e.Cached(), e.snapshot, 0)
      invariant NextUnread(e) == if next.Some? then NextUnreadFrom(e, next.value) else None
      decreases if next.Some? then |e.Cached()| - next.value + 1 else 0
    {
      ChainContainsNext(e.Cached(), e.snapshot, next.value);
      next := e.readPages[next.value];
    }
  }

  lemma ChainContainsZero(content: Text, snapshot: bool)
    requires Readable(content, snapshot)
    ensures 0 in Chain(content, snapshot, 0)
  {
  }

  /** The chain is closed under next cursors, which only go up. */
  lemma ChainContainsNext(content: Text, snapshot: bool, cursor: nat)
    requires Readable(content, snapshot) && cursor in Chain(content, snapshot, 0)
    ensures cursor <= |content|
    ensures NextCursor(content, snapshot, cursor).Some? ==>
      NextCursor(content, snapshot, cursor).value in Chain(content, snapshot, 0)
      && NextCursor(content, snapshot, cursor).value > cursor
  {
    hide NextCursor;
    var c := Chain(content, snapshot, 0);
    ChainSteps(content, snapshot, 0);
    var i :| 0 <= i < |c| && c[i] == cursor;
    if i + 1 < |c| {
      var j := i + 1;
      assert c[i] < c[j];
    }
  }

  lemma OnChainNext(e: Observation, cursor: nat)
    requires e.OnChain(cursor)
    ensures NextCursor(e.Cached(), e.snapshot, cursor).Some? ==> e.OnChain(NextCursor(e.Cached(), e.snapshot, cursor).value)
  {
    hide NextCursor;
    if e.Readable() {
      ChainContainsNext(e.Cached(), e.snapshot, cursor);
    }
  }

  /** Nothing is left to read exactly when the complete snapshot was delivered or every page
      of the chain was read. */
  lemma NothingUnreadExactlyWhenAllDelivered(e: Observation)
    requires e.Valid() && e.Readable()
    ensures NextUnread(e) == None
       <==> e.completeSnapshotRead || forall c :: c in Chain(e.Cached(), e.snapshot, 0) ==> c in e.readPages
  {
    if !e.completeSnapshotRead {
      ChainSteps(e.Cached(), e.snapshot, 0);
      UnreadAlongChain(e, 0);
    }
  }

  lemma {:induction false} UnreadAlongChain(e: Observation, i: nat)
    requires e.Valid() && e.Readable() && !e.completeSnapshotRead
    requires i < |Chain(e.Cached(), e.snapshot, 0)|
    ensures var c := Chain(e.Cached(), e.snapshot, 0);
      NextUnreadFrom(e, c[i]) == None <==> forall k :: i <= k < |c| ==> c[k] in e.readPages
    decreases |Chain(e.Cached(), e.snapshot, 0)| - i
  {
    hide NextCursor, Chain;
    var c := Chain(e.Cached(), e.snapshot, 0);
    ChainSteps(e.Cached(), e.snapshot, 0);
    if c[i] in e.readPages && i + 1 < |c| {
      var j := i + 1;
      assert c[i] < c[j];
      UnreadAlongChain(e, j);
    }
  }

  /** Where the loop stands after this many pages, if it has not ended before. */
  ghost function AfterPages(e: Observation, pages: nat): (cursor: Option<nat>)
    requires e.Valid() && !e.completeSnapshotRead
    ensures cursor.Some? ==> cursor.value <= |e.Cached()|
    ensures cursor.Some? ==> Follow(e.Cached(), e.snapshot, pages) == cursor
  {
    if pages == 0 then Some(0)
    else
      var before := AfterPages(e, pages - 1);
      if before.None? || before.value !in e.readPages then None else e.readPages[before.value]
  }

  /** The loop over recorded pages ends exactly when the text can be read to its end or not all
      that can be reached was read: a text that ends in a lone high surrogate keeps it going for
      ever once its last page was read. */
  lemma UnreadLoopEndsExactlyWhen(e: Observation)
    requires e.Valid() && !e.completeSnapshotRead
    ensures (exists pages :: Ended(e, pages)) <==> e.Readable() || exists pages :: Unread(e, pages)
  {
    if e.Readable() {
      ChainEndsExactlyWhenReadable(e.Cached(), e.snapshot);
      var steps: nat :| Follow(e.Cached(), e.snapshot, steps) == None;
      assert Ended(e, steps);
    } else if pages: nat :| Unread(e, pages) {
      assert Ended(e, pages) || Ended(e, pages + 1);
    } else {
      forall pages: nat ensures !Ended(e, pages) {
        LoopGoesOn(e, pages);
      }
    }
  }

  /** The loop has ended before this many pages. */
  ghost predicate Ended(e: Observation, pages: nat)
    requires e.Valid() && !e.completeSnapshotRead
  {
    AfterPages(e, pages).None?
  }

  /** The page reached after this many next cursors was not read. */
  predicate Unread(e: Observation, pages: nat)
  {
    var c := Follow(e.Cached(), e.snapshot, pages);
    c.Some? && c.value !in e.readPages
  }

  lemma {:induction false} LoopGoesOn(e: Observation, pages: nat)
    requires e.Valid() && !e.completeSnapshotRead && !e.Readable()
    requires forall k :: !Unread(e, k)
    ensures AfterPages(e, pages) == Follow(e.Cached(), e.snapshot, pages) != None
  {
    hide NextCursor;
    if pages > 0 {
      LoopGoesOn(e, pages - 1);
      assert !Unread(e, pages - 1);
      ChainEndsExactlyWhenReadable(e.Cached(), e.snapshot);
    }
  }

  // ---------------------------------------------------------------------------------------
  // Lines

  /** Number of the line that a position lies on. */
  function LineAt(text: Text, offset: nat): (line: nat)
    requires offset <= |text|
    ensures line <= offset
  {
    if offset == 0 then 0
    else LineAt(text, offset - 1) + if text[offset - 1] == NEWLINE then 1 else 0
  }

  /** Number of lines begun before a position. */
  function LineEnd(text: Text, offset: nat): nat
    requires offset <= |text|
  {
    LineAt(text, offset) + if offset > 0 && text[offset - 1] != NEWLINE then 1 else 0
  }

  lemma {:induction false} LineAtMonotone(text: Text, a: nat, b: nat)
    requires a <= b <= |text|
    ensures LineAt(text, a) <= LineAt(text, b)
    ensures a < b && text[b - 1] == NEWLINE ==> LineAt(text, a) < LineAt(text, b)
    decreases b
  {
    if a < b {
      LineAtMonotone(text, a, b - 1);
    }
  }

  // ---------------------------------------------------------------------------------------
  // Normalised content

  /** The text without the positions in `dead`, from position `from` on. */
  function Erase(text: Text, dead: set<nat>, from: nat): Text
    requires from <= |text|
    decreases |text| - from
  {
    if from == |text| then []
    else if from in dead then Erase(text, dead, from + 1)
    else [text[from]] + Erase(text, dead, from + 1)
  }

  /** Capture identities never include a line end. */
  predicate KeepsLineEnds(text: Text, dead: set<nat>)
  {
    forall p :: p in dead && p < |text| ==> text[p] != NEWLINE
  }

  function Newlines(text: Text): nat { LineAt(text, |text|) }

  lemma {:induction false} LineAtCons(u: Unit, text: Text, offset: nat)
    requires offset <= |text|
    ensures LineAt([u] + text, offset + 1) == LineAt(text, offset) + if u == NEWLINE then 1 else 0
  {
    if offset > 0 {
      LineAtCons(u, text, offset - 1);
      assert ([u] + text)[offset] == text[offset - 1];
    } else {
      assert LineAt([u] + text, 0) == 0;
    }
  }

  lemma {:induction false} EraseKeepsNewlines(text: Text, dead: set<nat>, from: nat)
    requires from <= |text| && KeepsLineEnds(text, dead)
    ensures Newlines(Erase(text, dead, from)) + LineAt(text, from) == LineAt(text, |text|)
    decreases |text| - from
  {
    LineAtStep(text, from);
    LineAtStep(Erase(text, dead, from), 0);
    hide LineAt;
    if from < |text| {
      EraseKeepsNewlines(text, dead, from + 1);
      var rest := Erase(text, dead, from + 1);
      if from !in dead {
        assert Erase(text, dead, from) == [text[from]] + rest;
        LineAtCons(text[from], rest, |rest|);
      } else {
        assert Erase(text, dead, from) == rest;
      }
    }
  }

  lemma LineAtStep(text: Text, offset: nat)
    requires offset <= |text|
    ensures offset == 0 ==> LineAt(text, offset) == 0
    ensures offset < |text| ==> LineAt(text, offset + 1) == LineAt(text, offset) + if text[offset] == NEWLINE then 1 else 0
  {
  }

  /** Line `i` of the text from position `from` on, its line end included. */
  function LineText(text: Text, from: nat, i: nat): Text
    requires from <= |text|
    decreases |text| - from
  {
    if from == |text| then []
    else if text[from] == NEWLINE then (if i == 0 then [NEWLINE] else LineText(text, from + 1, i - 1))
    else if i == 0 then [text[from]] + LineText(text, from + 1, 0)
    else LineText(text, from + 1, i)
  }

  /** Line `i` of the text without its capture identities. */
  function NormalLine(text: Text, dead: set<nat>, from: nat, i: nat): Text
    requires from <= |text|
    decreases |text| - from
  {
    if from == |text| then []
    else if text[from] == NEWLINE then
      (if i == 0 then [NEWLINE] else NormalLine(text, dead, from + 1, i - 1))
    else if i == 0 && from !in dead then [text[from]] + NormalLine(text, dead, from + 1, 0)
    else NormalLine(text, dead, from + 1, i)
  }

  lemma {:induction false} LineTextOfCons(u: Unit, text: Text, from: nat, i: nat)
    requires from <= |text|
    ensures LineText([u] + text, from + 1, i) == LineText(text, from, i)
    decreases |text| - from
  {
    if from < |text| {
      assert ([u] + text)[from + 1] == text[from];
      LineTextOfCons(u, text, from + 1, i);
      LineTextOfCons(u, text, from + 1, 0);
      if i > 0 {
        LineTextOfCons(u, text, from + 1, i - 1);
      }
    }
  }

  /** The lines of the normalised text are the normalised lines of the text. */
  lemma {:induction false} LinesOfErased(text: Text, dead: set<nat>, from: nat, i: nat)
    requires from <= |text| && KeepsLineEnds(text, dead)
    ensures LineText(Erase(text, dead, from), 0, i) == NormalLine(text, dead, from, i)
    decreases |text| - from
  {
    if from < |text| {
      LinesOfErased(text, dead, from + 1, i);
      if from !in dead {
        var rest := Erase(text, dead, from + 1);
        LineTextOfCons(text[from], rest, 0, i);
        LineTextOfCons(text[from], rest, 0, 0);
        LinesOfErased(text, dead, from + 1, 0);
        if i > 0 {
          LineTextOfCons(text[from], rest, 0, i - 1);
          LinesOfErased(text, dead, from + 1, i - 1);
        }
      }
    }
  }

  /** Two captures with the same normalised content agree line by line: they have the same
      number of lines, and equally numbered lines differ in capture identities only. */
  lemma SameNormalisedContentSameLines(a: Text, deadA: set<nat>, b: Text, deadB: set<nat>, i: nat)
    requires KeepsLineEnds(a, deadA) && KeepsLineEnds(b, deadB)
    requires Erase(a, deadA, 0) == Erase(b, deadB, 0)
    ensures Newlines(a) == Newlines(b)
    ensures NormalLine(a, deadA, 0, i) == NormalLine(b, deadB, 0, i)
  {
    EraseKeepsNewlines(a, deadA, 0);
    EraseKeepsNewlines(b, deadB, 0);
    LinesOfErased(a, deadA, 0, i);
    LinesOfErased(b, deadB, 0, i);
  }

  // ---------------------------------------------------------------------------------------
  // Progress inherited from the previous capture

  /** Where a recorded page ends. */
  function ReadEnd(e: Observation, cursor: nat): nat
    requires cursor in e.readPages
  {
    if e.readPages[cursor].Some? then e.readPages[cursor].value else |e.Cached()|
  }

  /** The text at this position was shown to the agent. */
  predicate Delivered(e: Observation, p: nat)
    requires e.Valid()
  {
    e.completeSnapshotRead
    || exists c :: c in e.readPages && !Omits(e.Cached(), e.snapshot, c) && c <= p < ReadEnd(e, c)
  }

  /** Line `i` lies within the page read at `cursor`, and that page skipped no line. */
  predicate ReadLine(e: Observation, cursor: nat, i: nat)
    requires e.Valid()
  {
    cursor in e.readPages
    && !Omits(e.Cached(), e.snapshot, cursor)
    && LineAt(e.Cached(), cursor) <= i < LineEnd(e.Cached(), ReadEnd(e, cursor))
  }

  /** The lines covered by the pages read. */
  function ReadLines(e: Observation): (lines: set<nat>)
    requires e.Valid()
  {
    set c, i | c in e.readPages && 0 <= i <= |e.Cached()| && ReadLine(e, c, i) :: i
  }

  /** Every line of the page at `cursor` is among the given lines. */
  predicate Covered(e: Observation, lines: set<nat>, cursor: nat)
    requires cursor <= |e.Cached()|
  {
    forall i :: LineAt(e.Cached(), cursor) <= i < LineEnd(e.Cached(), PageEnd(e.Cached(), e.snapshot, cursor))
      ==> i in lines
  }

  /** What the loop does with the page at `cursor`: offer the next cursor, mark the page as
      read when its lines are, and remember it when it shows the focus line. */
  function MarkPage(e: Observation, lines: set<nat>, focusLine: nat, cursor: nat): (marked: Observation)
    requires cursor <= |e.Cached()|
    ensures marked.content == e.content && marked.snapshot == e.snapshot
    ensures marked.id == e.id && marked.bytes == e.bytes && marked.captureId == e.captureId
    ensures marked.contentKey == e.contentKey && marked.completeSnapshotRead == e.completeSnapshotRead
  {
    var next := NextCursor(e.Cached(), e.snapshot, cursor);
    var end := PageEnd(e.Cached(), e.snapshot, cursor);
    var shown := LineAt(e.Cached(), cursor) <= focusLine
                 && (next.None? || focusLine < LineEnd(e.Cached(), end));
    e.(cursors := if next.Some? then e.cursors + {next.value} else e.cursors,
       readPages := if Covered(e, lines, cursor) then e.readPages[cursor := next] else e.readPages,
       lastReadCursor := if shown then Some(cursor) else e.lastReadCursor)
  }

  /** The pages from `cursor` on, marked one after the other. */
  function MarkFrom(e: Observation, lines: set<nat>, focusLine: nat, cursor: nat): (marked: Observation)
    requires Readable(e.Cached(), e.snapshot) && cursor <= |e.Cached()|
    ensures marked.content == e.content && marked.snapshot == e.snapshot
    ensures marked.id == e.id && marked.bytes == e.bytes && marked.captureId == e.captureId
    ensures marked.contentKey == e.contentKey && marked.completeSnapshotRead == e.completeSnapshotRead
    decreases |e.Cached()| - cursor
  {
    var next := NextCursor(e.Cached(), e.snapshot, cursor);
    var marked := MarkPage(e, lines, focusLine, cursor);
    if next.None? then marked
    else
      PageAdvances(e.Cached(), e.snapshot, cursor);
      MarkFrom(marked, lines, focusLine, next.value)
  }

  /** The new capture after it took over what was read of the previous one. */
  function Inherited(previous: Observation, entry: Observation): (e: Observation)
    requires previous.Valid() && entry.Valid() && previous.snapshot && entry.snapshot
    ensures e.id == entry.id && e.content == entry.content && e.bytes == entry.bytes
    ensures e.captureId == entry.captureId && e.snapshot == entry.snapshot && e.contentKey == entry.contentKey
  {
    if previous.content.None? || entry.content.None? then entry
    else if previous.completeSnapshotRead then
      entry.(completeSnapshotRead := true, readPages := entry.readPages[0 := None],
             lastReadCursor := Some(0), inheritedFrom := Some(previous.id))
    else
      var focus := if previous.lastReadCursor.Some? then previous.lastReadCursor.value else 0;
      MarkFrom(entry, ReadLines(previous), LineAt(previous.Cached(), focus), 0)
        .(inheritedFrom := Some(previous.id))
  }

  /** The loop of the program over the pages of the new capture. */
  method InheritReadProgress(previous: Observation, entry: Observation) returns (e: Observation)
    requires previous.Valid() && entry.Valid() && previous.snapshot && entry.snapshot
    ensures e == Inherited(previous, entry)
  {
    hide PageEnd, Covered, MarkPage;
    e := entry;
    if previous.content.None? || entry.content.None? {
      return;
    }
    if previous.completeSnapshotRead {
      e := e.(completeSnapshotRead := true, readPages := e.readPages[0 := None],
              lastReadCursor := Some(0), inheritedFrom := Some(previous.id));
      return;
    }
    var lines := ReadLines(previous);
    var focus := if previous.lastReadCursor.Some? then previous.lastReadCursor.value else 0;
    var focusLine := LineAt(previous.Cached(), focus);
    var cursor := Some(0);
    while cursor.Some?
      invariant e.content == entry.content && e.snapshot == entry.snapshot
      invariant cursor.Some? ==> cursor.value <= |entry.Cached()|
      invariant MarkFrom(entry, lines, focusLine, 0)
             == if cursor.Some? then MarkFrom(e, lines, focusLine, cursor.value) else e
      decreases if cursor.Some? then |entry.Cached()| - cursor.value + 1 else 0
    {
      var next := NextCursor(e.Cached(), e.snapshot, cursor.value);
      if next.Some? {
        PageAdvances(e.Cached(), e.snapshot, cursor.value);
      }
      e := MarkPage(e, lines, focusLine, cursor.value);
      cursor := next;
    }
    e := e.(inheritedFrom := Some(previous.id));
  }

  /** Exactly the pages whose every line was read are marked, each with its next cursor. */
  lemma {:induction false} MarksExactlyCoveredPages(e: Observation, lines: set<nat>, focusLine: nat, cursor: nat)
    requires Readable(e.Cached(), e.snapshot) && cursor <= |e.Cached()|
    ensures var marked := MarkFrom(e, lines, focusLine, cursor).readPages;
      forall c :: c in marked
        <==> (c in e.readPages || (c in Chain(e.Cached(), e.snapshot, cursor) && Covered(e, lines, c)))
    ensures var marked := MarkFrom(e, lines, focusLine, cursor).readPages;
      forall c :: c in marked ==>
        if c in Chain(e.Cached(), e.snapshot, cursor) && Covered(e, lines, c)
        then marked[c] == NextCursor(e.Cached(), e.snapshot, c)
        else c in e.readPages && marked[c] == e.readPages[c]
    decreases |e.Cached()| - cursor
  {
    hide PageEnd, Omits;
    var next := NextCursor(e.Cached(), e.snapshot, cursor);
    if next.Some? {
      PageAdvances(e.Cached(), e.snapshot, cursor);
      var marked := MarkPage(e, lines, focusLine, cursor);
      MarksExactlyCoveredPages(marked, lines, focusLine, next.value);
      ChainGoesUp(e.Cached(), e.snapshot, next.value);
    }
  }

  /** Every page but the first becomes one that can be asked for. */
  lemma {:induction false} OffersWholeChain(e: Observation, lines: set<nat>, focusLine: nat, cursor: nat)
    requires Readable(e.Cached(), e.snapshot) && cursor <= |e.Cached()|
    ensures forall c :: c in MarkFrom(e, lines, focusLine, cursor).cursors
              <==> c in e.cursors || (c in Chain(e.Cached(), e.snapshot, cursor) && c != cursor)
    decreases |e.Cached()| - cursor
  {
    hide PageEnd, Omits, Covered;
    var next := NextCursor(e.Cached(), e.snapshot, cursor);
    if next.Some? {
      PageAdvances(e.Cached(), e.snapshot, cursor);
      OffersWholeChain(MarkPage(e, lines, focusLine, cursor), lines, focusLine, next.value);
      ChainGoesUp(e.Cached(), e.snapshot, next.value);
    }
  }

  /** The page shows this line, or it is the last page and begins before it. */
  predicate ShowsFocus(text: Text, focusLine: nat, c: nat)
    requires c <= |text|
  {
    var end := PageEnd(text, true, c);
    LineAt(text, c) <= focusLine && (end < |text| ==> focusLine < LineEnd(text, end))
  }

  /** The reading position moves to the last page that shows the line it was on. */
  lemma {:induction false} FocusesLastPage(e: Observation, lines: set<nat>, focusLine: nat, cursor: nat)
    requires Readable(e.Cached(), true) && e.snapshot && cursor <= |e.Cached()|
    ensures var text, last := e.Cached(), MarkFrom(e, lines, focusLine, cursor).lastReadCursor;
      if exists c :: c in Chain(text, true, cursor) && c <= |text| && ShowsFocus(text, focusLine, c)
      then last.Some? && last.value in Chain(text, true, cursor) && last.value <= |text| && ShowsFocus(text, focusLine, last.value)
           && forall c :: c in Chain(text, true, cursor) && c <= |text| && ShowsFocus(text, focusLine, c) ==> c <= last.value
      else last == e.lastReadCursor
    decreases |e.Cached()| - cursor
  {
    hide PageEnd, Omits, Covered;
    var text := e.Cached();
    var next := NextCursor(text, true, cursor);
    assert cursor in Chain(text, true, cursor);
    if next.Some? {
      PageAdvances(text, true, cursor);
      var marked := MarkPage(e, lines, focusLine, cursor);
      assert marked.lastReadCursor == if ShowsFocus(text, focusLine, cursor) then Some(cursor) else e.lastReadCursor;
      FocusesLastPage(marked, lines, focusLine, next.value);
      ChainGoesUp(text, true, next.value);
      hide ShowsFocus, LineAt, LineEnd, MarkPage;
    }
  }

  /** The line lies in a page that was read and left nothing out. */
  ghost predicate LineWasRead(e: Observation, i: nat)
    requires e.Valid()
  {
    exists d :: d in e.readPages && !Omits(e.Cached(), e.snapshot, d)
                && LineAt(e.Cached(), d) <= i < LineEnd(e.Cached(), ReadEnd(e, d))
  }

  /** Every line of the page at `c` lies in pages of the previous capture that were read and left nothing
      out. */
  ghost predicate LinesRead(previous: Observation, text: Text, c: nat)
    requires previous.Valid() && c <= |text|
  {
    forall i: nat :: LineAt(text, c) <= i < LineEnd(text, PageEnd(text, true, c)) ==> LineWasRead(previous, i)
  }

  /** What a new capture takes over, exactly: the whole if the whole was read; otherwise the pages of
      which every line was, all its pages as ones that can be asked for, and the reading position. */
  lemma InheritsExactly(previous: Observation, entry: Observation)
    requires previous.Valid() && entry.Valid() && previous.snapshot && entry.snapshot
    ensures var e, text := Inherited(previous, entry), entry.Cached();
      if previous.content.None? || entry.content.None? then e == entry
      else if previous.completeSnapshotRead then
        e == entry.(completeSnapshotRead := true, readPages := entry.readPages[0 := None], lastReadCursor := Some(0),
                    inheritedFrom := Some(previous.id))
      else
        var focus := LineAt(previous.Cached(), match previous.lastReadCursor case Some(c) => c case None => 0);
        && e.inheritedFrom == Some(previous.id) && e.completeSnapshotRead == entry.completeSnapshotRead
        && (forall c :: c in e.readPages <==>
              c in entry.readPages || (c in Chain(text, true, 0) && c <= |text| && LinesRead(previous, text, c)))
        && (forall c :: c in e.cursors <==> c in entry.cursors || (c in Chain(text, true, 0) && c != 0))
        && (if exists c :: c in Chain(text, true, 0) && c <= |text| && ShowsFocus(text, focus, c)
            then e.lastReadCursor.Some? && e.lastReadCursor.value in Chain(text, true, 0) && e.lastReadCursor.value <= |text|
                 && ShowsFocus(text, focus, e.lastReadCursor.value)
                 && forall c :: c in Chain(text, true, 0) && c <= |text| && ShowsFocus(text, focus, c) ==> c <= e.lastReadCursor.value
            else e.lastReadCursor == entry.lastReadCursor)
  {
    if previous.content.Some? && entry.content.Some? && !previous.completeSnapshotRead {
      var text, lines := entry.Cached(), ReadLines(previous);
      var focus := if previous.lastReadCursor.Some? then previous.lastReadCursor.value else 0;
      var focusLine := LineAt(previous.Cached(), focus);
      MarksExactlyCoveredPages(entry, lines, focusLine, 0);
      OffersWholeChain(entry, lines, focusLine, 0);
      FocusesLastPage(entry, lines, focusLine, 0);
      hide PageEnd, Omits, Chain, ShowsFocus, MarkFrom;
      forall c | c in Chain(text, true, 0) && c <= |text| ensures Covered(entry, lines, c) <==> LinesRead(previous, text, c) {
        CoveredExactlyWhen(previous, entry, c);
      }
      ChainInText(text);
    }
  }

  lemma ChainInText(text: Text)
    ensures forall c :: c in Chain(text, true, 0) ==> c <= |text|
  {
  }

  lemma CoveredExactlyWhen(previous: Observation, entry: Observation, c: nat)
    requires previous.Valid() && entry.Valid() && entry.snapshot && c <= |entry.Cached()|
    ensures Covered(entry, ReadLines(previous), c) <==> LinesRead(previous, entry.Cached(), c)
  {
    hide PageEnd, Omits, Chain;
    var text := entry.Cached();
    forall i: nat ensures i in ReadLines(previous) <==> LineWasRead(previous, i) {
      if LineWasRead(previous, i) {
        var d :| d in previous.readPages && !Omits(previous.Cached(), previous.snapshot, d)
                 && LineAt(previous.Cached(), d) <= i < LineEnd(previous.Cached(), ReadEnd(previous, d));
        LinesAreFew(previous.Cached(), ReadEnd(previous, d));
        assert ReadLine(previous, d, i);
      }
    }
    hide ReadLines, LineWasRead, LineAt, LineEnd;
  }

  /** A text has no more lines than positions. */
  lemma LinesAreFew(text: Text, offset: nat)
    requires offset <= |text|
    ensures LineEnd(text, offset) <= |text| + 1
  {
  }

  lemma {:induction false} ChainGoesUp(content: Text, snapshot: bool, cursor: nat)
    requires Readable(content, snapshot) && cursor <= |content|
    ensures forall c :: c in Chain(content, snapshot, cursor) ==> c >= cursor
    decreases |content| - cursor
  {
    hide PageEnd;
    var end := PageEnd(content, snapshot, cursor);
    if end < |content| {
      PageAdvances(content, snapshot, cursor);
      ChainGoesUp(content, snapshot, end);
    }
  }

  /** Snapshot pages begin at line starts. */
  lemma {:induction false} ChainOnLineStarts(content: Text, cursor: nat)
    requires cursor <= |content| && LineStart(content, cursor)
    ensures forall c :: c in Chain(content, true, cursor) ==> LineStart(content, c)
    decreases |content| - cursor
  {
    hide PageEnd;
    var end := PageEnd(content, true, cursor);
    if end < |content| {
      PageAdvances(content, true, cursor);
      SnapshotPageEnds(content, cursor);
      ChainOnLineStarts(content, end);
    }
  }

  /** A line whose number a delivered snapshot page covers lies entirely within that page. */
  lemma CoveredLineLiesInPage(content: Text, start: nat, end: nat, p: nat)
    requires start <= end <= |content| && p < |content|
    requires LineStart(content, start) && (end == |content| || LineStart(content, end))
    requires LineAt(content, start) <= LineAt(content, p) < LineEnd(content, end)
    ensures start <= p < end
  {
    if p < start {
      LineAtMonotone(content, p, start);
    }
    if end <= p {
      LineAtMonotone(content, end, p);
    }
  }

  /** What lies on the line of a position in a page marked as read was read. */
  lemma MarkedLineWasRead(previous: Observation, entry: Observation, c: nat, q: nat, p: nat)
    requires previous.Valid() && entry.Valid() && previous.snapshot && entry.snapshot
    requires previous.content.Some? && entry.content.Some?
    requires entry.readPages == map[] && !entry.completeSnapshotRead
    requires c in Inherited(previous, entry).readPages
    requires c <= q < ReadEnd(Inherited(previous, entry), c)
    requires q < |entry.Cached()| && p < |previous.Cached()|
    requires LineAt(previous.Cached(), p) == LineAt(entry.Cached(), q)
    ensures Delivered(previous, p)
  {
    if !previous.completeSnapshotRead {
      hide PageEnd, Omits;
      var text := entry.Cached();
      var focus := if previous.lastReadCursor.Some? then previous.lastReadCursor.value else 0;
      MarksExactlyCoveredPages(entry, ReadLines(previous), LineAt(previous.Cached(), focus), 0);
      assert c in Chain(text, true, 0) && Covered(entry, ReadLines(previous), c);
      var end := PageEnd(text, true, c);
      assert q < end;
      LineAtMonotone(text, c, q);
      LineAtMonotone(text, q, end);
      LineBeforeEnd(text, q, end);
      var i := LineAt(text, q);
      assert i in ReadLines(previous);
      LineReadIsDelivered(previous, i, p);
    }
  }

  /** A line that is not empty after erasing has a position in the text. */
  lemma {:induction false} LineHasPosition(text: Text, dead: set<nat>, from: nat, i: nat)
    requires from <= |text| && NormalLine(text, dead, from, i) != []
    ensures exists p :: from <= p < |text| && LineAt(text, p) == LineAt(text, from) + i
    decreases |text| - from
  {
    if i == 0 {
      assert LineAt(text, from) == LineAt(text, from) + i;
    } else {
      var j := if text[from] == NEWLINE then i - 1 else i;
      LineHasPosition(text, dead, from + 1, j);
      var p :| from + 1 <= p < |text| && LineAt(text, p) == LineAt(text, from + 1) + j;
    }
  }

  /** Inherited progress is sound. When the two captures have the same normalised content, the line
      of any position in a page that the new one marks as read stands under the same number in the
      previous one, the same but for capture identities, and all of it was delivered there. A line
      that consists of identities only need not stand there at all. */
  lemma InheritedProgressIsSound(previous: Observation, dead: set<nat>, entry: Observation, entryDead: set<nat>, c: nat, q: nat)
    requires previous.Valid() && entry.Valid() && previous.snapshot && entry.snapshot
    requires previous.content.Some? && entry.content.Some?
    requires entry.readPages == map[] && !entry.completeSnapshotRead
    requires KeepsLineEnds(previous.Cached(), dead) && KeepsLineEnds(entry.Cached(), entryDead)
    requires Erase(previous.Cached(), dead, 0) == Erase(entry.Cached(), entryDead, 0)
    requires c in Inherited(previous, entry).readPages && c <= q < |entry.Cached()|
    requires q < ReadEnd(Inherited(previous, entry), c)
    ensures var i := LineAt(entry.Cached(), q);
      var line := NormalLine(entry.Cached(), entryDead, 0, i);
      && NormalLine(previous.Cached(), dead, 0, i) == line
      && (line != [] ==> exists p :: 0 <= p < |previous.Cached()| && LineAt(previous.Cached(), p) == i)
      && (forall p :: 0 <= p < |previous.Cached()| && LineAt(previous.Cached(), p) == i ==> Delivered(previous, p))
  {
    hide Erase, Inherited, Delivered;
    var i := LineAt(entry.Cached(), q);
    SameNormalisedContentSameLines(previous.Cached(), dead, entry.Cached(), entryDead, i);
    if NormalLine(previous.Cached(), dead, 0, i) != [] {
      LineHasPosition(previous.Cached(), dead, 0, i);
    }
    forall p | 0 <= p < |previous.Cached()| && LineAt(previous.Cached(), p) == i ensures Delivered(previous, p) {
      MarkedLineWasRead(previous, entry, c, q, p);
    }
  }

  lemma LineBeforeEnd(text: Text, q: nat, end: nat)
    requires q < end <= |text|
    ensures LineAt(text, q) < LineEnd(text, end)
  {
    LineAtMonotone(text, q, end);
    LineAtMonotone(text, q, end - 1);
  }

  lemma LineReadIsDelivered(e: Observation, i: nat, p: nat)
    requires e.Valid() && e.snapshot && !e.completeSnapshotRead
    requires i in ReadLines(e) && p < |e.Cached()| && LineAt(e.Cached(), p) == i
    ensures Delivered(e, p)
  {
    hide PageEnd, Omits;
    var c :| c in e.readPages && ReadLine(e, c, i);
    ChainOnLineStarts(e.Cached(), 0);
    SnapshotPageEnds(e.Cached(), c);
    assert ReadEnd(e, c) == PageEnd(e.Cached(), true, c);
    CoveredLineLiesInPage(e.Cached(), c, ReadEnd(e, c), p);
  }

  /** Progress stays well formed, so a later capture can inherit it again. */
  lemma InheritedIsValid(previous: Observation, entry: Observation)
    requires previous.Valid() && entry.Valid() && previous.snapshot && entry.snapshot
    ensures Inherited(previous, entry).Valid()
  {
    ChainContainsZero(entry.Cached(), true);
    if previous.content.Some? && entry.content.Some? {
      var focus := if previous.lastReadCursor.Some? then previous.lastReadCursor.value else 0;
      if previous.completeSnapshotRead {
        CompleteIsValid(entry, previous.id);
      } else {
        MarkFromIsValid(entry, ReadLines(previous), LineAt(previous.Cached(), focus), 0);
        OriginIsFree(MarkFrom(entry, ReadLines(previous), LineAt(previous.Cached(), focus), 0), previous.id);
      }
      hide Observation.Valid, MarkFrom, ReadLines, LineAt, Chain;
    }
  }

  lemma CompleteIsValid(e: Observation, origin: nat)
    requires e.Valid() && e.content.Some? && e.snapshot
    ensures e.(completeSnapshotRead := true, readPages := e.readPages[0 := None], lastReadCursor := Some(0),
               inheritedFrom := Some(origin)).Valid()
  {
    ChainContainsZero(e.Cached(), true);
    hide Chain, NextCursor;
  }

  lemma OriginIsFree(e: Observation, origin: nat)
    requires e.Valid()
    ensures e.(inheritedFrom := Some(origin)).Valid()
  {
    hide Chain, NextCursor;
  }

  lemma MarkPageIsValid(e: Observation, lines: set<nat>, focusLine: nat, cursor: nat)
    requires e.Valid() && e.content.Some? && e.OnChain(cursor)
    ensures MarkPage(e, lines, focusLine, cursor).Valid()
  {
    OnChainNext(e, cursor);
    var f := MarkPage(e, lines, focusLine, cursor);
    hide Covered, LineEnd, LineAt;
    forall c: nat ensures f.OnChain(c) <==> e.OnChain(c) {
      SameChain(e, f, c);
    }
    hide Observation.OnChain, NextCursor, PageEnd;
  }

  lemma SameChain(e: Observation, f: Observation, c: nat)
    requires f.content == e.content && f.snapshot == e.snapshot
    ensures f.OnChain(c) <==> e.OnChain(c)
  {
  }

  lemma {:induction false} MarkFromIsValid(e: Observation, lines: set<nat>, focusLine: nat, cursor: nat)
    requires e.Valid() && e.Readable() && e.content.Some? && cursor in Chain(e.Cached(), e.snapshot, 0)
    ensures cursor <= |e.Cached()| && MarkFrom(e, lines, focusLine, cursor).Valid()
    decreases |e.Cached()| - cursor
  {
    hide PageEnd, Covered, NextCursor, Observation.Valid, MarkPage;
    ChainContainsNext(e.Cached(), e.snapshot, cursor);
    MarkPageIsValid(e, lines, focusLine, cursor);
    var marked := MarkPage(e, lines, focusLine, cursor);
    if NextCursor(e.Cached(), e.snapshot, cursor).Some? {
      MarkFromIsValid(marked, lines, focusLine, NextCursor(e.Cached(), e.snapshot, cursor).value);
    }
  }
}
