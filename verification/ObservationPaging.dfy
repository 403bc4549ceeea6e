/** Pages of one cached observation: which part of the captured text a cursor delivers, and
    which cursor comes next. */
module ObservationPaging {
  import opened Utf16
  import opened Wrappers

  const PAGE_BYTES: nat := 12 * 1024

  /** What a page shows in place of a line that does not fit. */
  function OmittedLineNotice(): Text
  {
    Literal("[一行过长，已跳过；请缩小 snapshot 的 target 或 depth。]")
  }

  /** The delivered text, the cursor it was read at, the cursor of the next page, and whether
      a line was skipped because it does not fit. */
  datatype Page = Page(content: Text, cursor: nat, next: Option<nat>, omittedLine: bool)

  /** The `m` units after `cursor` are a page's worth of JSON. */
  predicate Fits(content: Text, cursor: nat, m: nat)
  {
    cursor + m <= |content| && Bytes(content, cursor, cursor + m) + 2 <= PAGE_BYTES
  }

  /** The length the binary search settles on, starting from the interval `low..high`. */
  function Bisect(content: Text, cursor: nat, low: nat, high: nat): (r: nat)
    requires low <= high
    ensures low <= r <= high
    ensures r == low || Fits(content, cursor, r)
    decreases high - low
  {
    if low == high then low
    else
      var middle := (low + high + 1) / 2;
      if Fits(content, cursor, middle) then Bisect(content, cursor, middle, high)
      else Bisect(content, cursor, low, middle - 1)
  }

  /** How far the text from `cursor` fits, never ending on the first half of a pair. */
  function FittingEnd(content: Text, cursor: nat): (end: nat)
    requires cursor <= |content|
    ensures cursor <= end <= |content|
  {
    var end := cursor + Bisect(content, cursor, 0, |content| - cursor);
    if end > cursor && High(content[end - 1]) then end - 1 else end
  }

  /** A snapshot line is skipped when no line end lies within what fits. */
  predicate Omits(content: Text, snapshot: bool, cursor: nat)
    requires cursor <= |content|
  {
    var end := FittingEnd(content, cursor);
    snapshot && end < |content| && LastIndexOf(content, NEWLINE, cursor, end) < cursor
  }

  /** Where the page at `cursor` ends. Snapshots are cut at line ends only. */
  function PageEnd(content: Text, snapshot: bool, cursor: nat): (end: nat)
    requires cursor <= |content|
    ensures cursor <= end <= |content|
  {
    var end := FittingEnd(content, cursor);
    if !snapshot || end == |content| then end
    else if Omits(content, snapshot, cursor) then LineStop(content, cursor)
    else LastIndexOf(content, NEWLINE, cursor, end) + 1
  }

  /** End of the line that `p` lies on, its newline included. */
  function LineStop(content: Text, p: nat): (q: nat)
    requires p <= |content|
    ensures p <= q <= |content|
  {
    var newline := IndexOf(content, NEWLINE, p);
    if newline == |content| then newline else newline + 1
  }

  /** The cursor a page names as the next one; none on the last page. */
  function NextCursor(content: Text, snapshot: bool, cursor: nat): (next: Option<nat>)
    requires cursor <= |content|
    ensures next.Some? ==> cursor <= next.value < |content|
  {
    var end := PageEnd(content, snapshot, cursor);
    if end < |content| then Some(end) else None
  }

  /** The page of `content` at `cursor`. */
  function PageAt(content: Text, snapshot: bool, cursor: nat): (page: Page)
    requires cursor <= |content|
  {
    var end := PageEnd(content, snapshot, cursor);
    Page(if Omits(content, snapshot, cursor) then OmittedLineNotice() else content[cursor..end],
         cursor, NextCursor(content, snapshot, cursor), Omits(content, snapshot, cursor))
  }

  /** The page computed the way the program does, with its binary search as a loop. */
  method ReadPage(content: Text, snapshot: bool, cursor: nat) returns (page: Page)
    requires cursor <= |content|
    ensures page == PageAt(content, snapshot, cursor)
  {
    hide PageEnd, Omits;
    var next, omittedLine := MeasurePage(content, snapshot, cursor);
    var text := if omittedLine then OmittedLineNotice() else content[cursor..next];
    page := Page(text, cursor, if next < |content| then Some(next) else None, omittedLine);
  }

  method MeasurePage(content: Text, snapshot: bool, cursor: nat) returns (next: nat, omittedLine: bool)
    requires cursor <= |content|
    ensures next == PageEnd(content, snapshot, cursor)
    ensures omittedLine == Omits(content, snapshot, cursor)
  {
    next := MeasureFit(content, cursor);
    omittedLine := false;
    if snapshot && next < |content| {
      var newline := LastIndexOf(content, NEWLINE, cursor, next);
      if newline >= cursor {
        next := newline + 1;
      } else {
        var end := IndexOf(content, NEWLINE, cursor);
        next := if end == |content| then |content| else end + 1;
        omittedLine := true;
      }
    }
  }

  method MeasureFit(content: Text, cursor: nat) returns (end: nat)
    requires cursor <= |content|
    ensures end == FittingEnd(content, cursor)
  {
    var low := SearchFit(content, cursor);
    if low > 0 && High(content[cursor + low - 1]) {
      low := low - 1;
    }
    end := cursor + low;
  }

  method SearchFit(content: Text, cursor: nat) returns (low: nat)
    requires cursor <= |content|
    ensures low == Bisect(content, cursor, 0, |content| - cursor)
  {
    hide Fits;
    low := 0;
    var high := |content| - cursor;
    while low < high
      invariant 0 <= low <= high <= |content| - cursor
      invariant Bisect(content, cursor, low, high)
             == Bisect(content, cursor, 0, |content| - cursor)
    {
      var middle := (low + high + 1) / 2;
      if Fits(content, cursor, middle) {
        low := middle;
      } else {
        high := middle - 1;
      }
    }
  }

  // ---------------------------------------------------------------------------------------
  // The binary search, on a test that is not monotone

  /** A length is never passed over while everything up to it fits. */
  lemma {:induction false} BisectReaches(content: Text, cursor: nat, low: nat, high: nat, k: nat)
    requires low <= high && k <= high
    requires forall m: nat :: low < m <= k ==> Fits(content, cursor, m)
    ensures Bisect(content, cursor, low, high) >= k
    decreases high - low
  {
    if low < high {
      var middle := (low + high + 1) / 2;
      if Fits(content, cursor, middle) {
        BisectReaches(content, cursor, middle, high, k);
      } else {
        BisectReaches(content, cursor, low, middle - 1, k);
      }
    }
  }

  /** The distances from the end that the search visits while every test succeeds. */
  predicate Visits(distance: nat, gap: nat)
  {
    distance > 0 && (distance / 2 == gap || Visits(distance / 2, gap))
  }

  /** With one bad length `high - gap` and everything else fitting, the search reaches
      `high` exactly when its halving never visits that gap. */
  lemma {:induction false} BisectAroundGap(content: Text, cursor: nat, low: nat, high: nat, gap: nat)
    requires low < high && 0 < gap < high - low
    requires forall m: nat :: low < m <= high && m != high - gap ==> Fits(content, cursor, m)
    requires !Fits(content, cursor, high - gap)
    ensures Bisect(content, cursor, low, high) == high <==> !Visits(high - low, gap)
    decreases high - low
  {
    var distance := high - low;
    var middle := (low + high + 1) / 2;
    assert high - middle == distance / 2;
    if distance / 2 == gap {
      assert Bisect(content, cursor, low, high) <= middle - 1;
    } else if distance / 2 > gap {
      BisectAroundGap(content, cursor, middle, high, gap);
    } else {
      BisectReaches(content, cursor, middle, high, high);
      VisitsShrinks(distance / 2, gap);
    }
  }

  lemma {:induction false} VisitsShrinks(distance: nat, gap: nat)
    requires distance <= gap
    ensures !Visits(distance, gap)
  {
    if distance > 0 {
      VisitsShrinks(distance / 2, gap);
    }
  }

  lemma {:induction false} GapOneVisited(n: nat)
    requires n >= 2
    ensures Visits(n, 1)
  {
    if n >= 4 {
      GapOneVisited(n / 2);
    }
  }

  // ---------------------------------------------------------------------------------------
  // Size of a page

  /** Every page keeps its JSON within the page budget. */
  lemma PageWithinBudget(content: Text, snapshot: bool, cursor: nat)
    requires cursor <= |content|
    ensures StringBytes(PageAt(content, snapshot, cursor).content) <= PAGE_BYTES
  {
    var page := PageAt(content, snapshot, cursor);
    if page.omittedLine {
      BytesBounds(OmittedLineNotice(), 0, |OmittedLineNotice()|);
    } else {
      var end := FittingEnd(content, cursor);
      var stop := PageEnd(content, snapshot, cursor);
      FittingEndFits(content, cursor);
      BytesOfSlice(content, cursor, stop);
      if stop < end {
        LongerCostsMore(content, cursor, stop, end);
      }
    }
  }

  lemma FittingEndFits(content: Text, cursor: nat)
    requires cursor <= |content|
    ensures Fits(content, cursor, FittingEnd(content, cursor) - cursor)
    ensures cursor + 2 <= |content| ==> FittingEnd(content, cursor) > cursor
    ensures cursor < |content| && !High(content[|content| - 1]) ==> FittingEnd(content, cursor) > cursor
  {
    var length := |content| - cursor;
    var low := Bisect(content, cursor, 0, length);
    var two := if length < 2 then length else 2;
    forall m: nat | 0 < m <= two
      ensures Fits(content, cursor, m)
    {
      BytesBounds(content, cursor, cursor + m);
    }
    BisectReaches(content, cursor, 0, length, two);
  }

  // ---------------------------------------------------------------------------------------
  // The chain of cursors

  predicate EndsHigh(content: Text) { content != [] && High(content[|content| - 1]) }

  /** The chain of cursors from 0 comes to an end. */
  predicate Readable(content: Text, snapshot: bool)
  {
    snapshot || !EndsHigh(content)
  }

  /** A readable observation makes progress on every page. */
  lemma PageAdvances(content: Text, snapshot: bool, cursor: nat)
    requires Readable(content, snapshot) && cursor < |content|
    ensures PageEnd(content, snapshot, cursor) > cursor
  {
    FittingEndFits(content, cursor);
  }

  /** The cursors a reader follows from `cursor` until the next cursor is null. */
  function Chain(content: Text, snapshot: bool, cursor: nat): (cursors: seq<nat>)
    requires Readable(content, snapshot) && cursor <= |content|
    ensures |cursors| > 0 && cursors[0] == cursor
    ensures forall k :: 0 <= k < |cursors| ==> cursors[k] <= |content|
    decreases |content| - cursor
  {
    var end := PageEnd(content, snapshot, cursor);
    if end == |content| then [cursor]
    else
      PageAdvances(content, snapshot, cursor);
      [cursor] + Chain(content, snapshot, end)
  }

  /** A chain steps from cursor to next cursor, strictly upwards, and its last page is the
      only one whose next cursor is null. */
  lemma {:induction false} ChainSteps(content: Text, snapshot: bool, cursor: nat)
    requires Readable(content, snapshot) && cursor <= |content|
    ensures var c := Chain(content, snapshot, cursor);
      && (forall i, j :: 0 <= i && j == i + 1 < |c| ==>
            c[i] < c[j] && NextCursor(content, snapshot, c[i]) == Some(c[j]))
      && NextCursor(content, snapshot, c[|c| - 1]) == None
    decreases |content| - cursor
  {
    hide PageEnd, Omits;
    var end := PageEnd(content, snapshot, cursor);
    if end < |content| {
      PageAdvances(content, snapshot, cursor);
      ChainSteps(content, snapshot, end);
    }
  }

  /** The cursor a reader holds after following `steps` next cursors from 0, if there is one. */
  function Follow(content: Text, snapshot: bool, steps: nat): (cursor: Option<nat>)
    ensures cursor.Some? ==> cursor.value <= |content|
  {
    if steps == 0 then Some(0)
    else
      var before := Follow(content, snapshot, steps - 1);
      if before.None? then None else NextCursor(content, snapshot, before.value)
  }

  /** Exactly the readable observations are ever read to the end: a plain text that ends in an
      unpaired high surrogate gives its last unit a page that names itself as the next one. */
  lemma ChainEndsExactlyWhenReadable(content: Text, snapshot: bool)
    ensures (exists steps :: Follow(content, snapshot, steps) == None)
       <==> Readable(content, snapshot)
  {
    if Readable(content, snapshot) {
      var c := Chain(content, snapshot, 0);
      ChainSteps(content, snapshot, 0);
      FollowsChain(content, snapshot, |c| - 1);
      assert Follow(content, snapshot, |c|) == None;
    } else {
      forall steps: nat
        ensures Follow(content, snapshot, steps) != None
      {
        StuckFollow(content, snapshot, steps);
      }
    }
  }

  lemma {:induction false} FollowsChain(content: Text, snapshot: bool, k: nat)
    requires Readable(content, snapshot) && k < |Chain(content, snapshot, 0)|
    ensures Follow(content, snapshot, k) == Some(Chain(content, snapshot, 0)[k])
  {
    hide PageEnd, Omits;
    if k > 0 {
      FollowsChain(content, snapshot, k - 1);
      ChainSteps(content, snapshot, 0);
    }
  }

  lemma {:induction false} StuckFollow(content: Text, snapshot: bool, steps: nat)
    requires !Readable(content, snapshot)
    ensures Follow(content, snapshot, steps).Some?
    ensures Follow(content, snapshot, steps).value < |content|
  {
    hide PageEnd, Omits;
    if steps > 0 {
      StuckFollow(content, snapshot, steps - 1);
      StuckPage(content, Follow(content, snapshot, steps - 1).value);
    }
  }

  lemma StuckPage(content: Text, cursor: nat)
    requires EndsHigh(content) && cursor < |content|
    ensures PageEnd(content, false, cursor) < |content|
  {
  }

  // ---------------------------------------------------------------------------------------
  // What the pages of a chain contain

  /** The captured text that the pages at these cursors stand for. */
  function Stretches(content: Text, snapshot: bool, cursors: seq<nat>): Text
    requires forall k :: 0 <= k < |cursors| ==> cursors[k] <= |content|
  {
    if cursors == [] then []
    else content[cursors[0]..PageEnd(content, snapshot, cursors[0])]
         + Stretches(content, snapshot, cursors[1..])
  }

  /** The text that the pages at these cursors show. */
  function Shown(content: Text, snapshot: bool, cursors: seq<nat>): Text
    requires forall k :: 0 <= k < |cursors| ==> cursors[k] <= |content|
  {
    if cursors == [] then []
    else PageAt(content, snapshot, cursors[0]).content + Shown(content, snapshot, cursors[1..])
  }

  /** The pages of a chain stand for the whole capture, each part of it once and in order. */
  lemma {:induction false} PagesTile(content: Text, snapshot: bool, cursor: nat)
    requires Readable(content, snapshot) && cursor <= |content|
    ensures Stretches(content, snapshot, Chain(content, snapshot, cursor)) == content[cursor..]
    decreases |content| - cursor
  {
    hide FittingEnd;
    var end := PageEnd(content, snapshot, cursor);
    if end < |content| {
      PageAdvances(content, snapshot, cursor);
      PagesTile(content, snapshot, end);
      assert Chain(content, snapshot, cursor)[1..] == Chain(content, snapshot, end);
      assert content[cursor..] == content[cursor..end] + content[end..];
    } else {
      assert Chain(content, snapshot, cursor)[1..] == [];
      assert content[cursor..] == content[cursor..end] + [];
    }
  }

  /** Pages that skip no line show exactly what they stand for; a plain text skips none, so
      its pages put one after the other are the text. */
  lemma {:induction false} ShownUnlessOmitted(content: Text, snapshot: bool, cursors: seq<nat>)
    requires forall k :: 0 <= k < |cursors| ==> cursors[k] <= |content|
    requires forall k :: 0 <= k < |cursors| ==> !Omits(content, snapshot, cursors[k])
    ensures Shown(content, snapshot, cursors) == Stretches(content, snapshot, cursors)
  {
    hide PageEnd, FittingEnd;
    if cursors != [] {
      ShownUnlessOmitted(content, snapshot, cursors[1..]);
    }
  }

  lemma TextPagesTile(content: Text)
    requires Readable(content, false)
    ensures Shown(content, false, Chain(content, false, 0)) == content
  {
    ShownUnlessOmitted(content, false, Chain(content, false, 0));
    PagesTile(content, false, 0);
  }

  /** A position where a line begins. */
  predicate LineStart(content: Text, p: nat)
  {
    p == 0 || (p <= |content| && content[p - 1] == NEWLINE)
  }

  /** A snapshot page either is the captured text up to a line end, or stands for exactly one
      line that was skipped. */
  lemma SnapshotPageIsLines(content: Text, cursor: nat)
    requires cursor <= |content|
    ensures var page := PageAt(content, true, cursor); var end := PageEnd(content, true, cursor);
      && (end == |content| || LineStart(content, end))
      && page.next == (if end < |content| then Some(end) else None)
      && (!page.omittedLine ==> page.content == content[cursor..end])
      && (page.omittedLine ==> end == LineStop(content, cursor) && page.content == OmittedLineNotice())
  {
    hide FittingEnd, OmittedLineNotice;
  }

  lemma SnapshotPageEnds(content: Text, cursor: nat)
    requires cursor <= |content|
    ensures var end := PageEnd(content, true, cursor);
      && (end == |content| || LineStart(content, end))
      && (Omits(content, true, cursor) ==> end == LineStop(content, cursor))
  {
  }

  /** The last line of a capture that has no newline: it survives exactly when the whole of it
      fits, it does not end on half a pair, and the search never tests a length that cuts the
      pair near its end and so goes over the budget. */
  predicate UnterminatedLineKept(content: Text, cursor: nat)
  {
    var n := |content| - cursor;
    n >= 0
    && Fits(content, cursor, n)
    && !EndsHigh(content)
    && (n >= 2 ==> Fits(content, cursor, n - 1))
    && (n >= 3 && Visits(n, 2) ==> Fits(content, cursor, n - 2))
  }

  /** Exactly which lines of a snapshot are lost. A line that ends in a newline is lost when
      its own JSON is over the budget, and only then. */
  lemma LineLostExactlyWhen(content: Text, cursor: nat)
    requires cursor < |content|
    ensures var stop := LineStop(content, cursor);
      PageAt(content, true, cursor).omittedLine
      <==> if content[stop - 1] == NEWLINE then StringBytes(content[cursor..stop]) > PAGE_BYTES
           else !UnterminatedLineKept(content, cursor)
  {
    var stop := LineStop(content, cursor);
    var end := FittingEnd(content, cursor);
    if content[stop - 1] == NEWLINE {
      BytesOfSlice(content, cursor, stop);
      if Fits(content, cursor, stop - cursor) {
        TerminatedLineFits(content, cursor, stop);
        assert LastIndexOf(content, NEWLINE, cursor, end) >= stop - 1;
      } else {
        TerminatedLineExceeds(content, cursor, stop);
      }
    } else {
      UnterminatedLine(content, cursor);
    }
  }

  lemma TerminatedLineFits(content: Text, cursor: nat, stop: nat)
    requires cursor < stop <= |content| && content[stop - 1] == NEWLINE
    requires Fits(content, cursor, stop - cursor)
    ensures FittingEnd(content, cursor) >= stop
  {
    forall m: nat | 0 < m <= stop - cursor
      ensures Fits(content, cursor, m)
    {
      if cursor + m < stop {
        LongerCostsMore(content, cursor, cursor + m, stop);
        if Splits(content, cursor, cursor + m) {
          SplitCost(content, cursor, cursor + m);
          if cursor + m + 1 < stop - 1 {
            LongerCostsMore(content, cursor, cursor + m + 1, stop - 1);
          }
        }
      }
    }
    BisectReaches(content, cursor, 0, |content| - cursor, stop - cursor);
  }

  lemma TerminatedLineExceeds(content: Text, cursor: nat, stop: nat)
    requires cursor < stop <= |content| && content[stop - 1] == NEWLINE
    requires !Fits(content, cursor, stop - cursor)
    ensures FittingEnd(content, cursor) < stop
  {
    var m := Bisect(content, cursor, 0, |content| - cursor);
    if cursor + m > stop {
      LongerCostsMore(content, cursor, stop, cursor + m);
    }
  }

  /** A snapshot page that leaves out no line and is not the last takes exactly the whole lines that fit
      together. */
  lemma SnapshotPageIsLongest(content: Text, cursor: nat, stop: nat)
    requires cursor < stop <= |content| && content[stop - 1] == NEWLINE
    requires !Omits(content, true, cursor) && PageEnd(content, true, cursor) < |content|
    ensures stop <= PageEnd(content, true, cursor) <==> StringBytes(content[cursor..stop]) <= PAGE_BYTES
  {
    BytesOfSlice(content, cursor, stop);
    if Fits(content, cursor, stop - cursor) {
      TerminatedLineFits(content, cursor, stop);
    } else {
      TerminatedLineExceeds(content, cursor, stop);
    }
    hide FittingEnd;
  }

  lemma {:induction false} BisectIsTight(content: Text, cursor: nat, low: nat, high: nat)
    requires low <= high
    ensures var r := Bisect(content, cursor, low, high); r == high || !Fits(content, cursor, r + 1)
    decreases high - low
  {
    if low < high {
      var middle := (low + high + 1) / 2;
      if Fits(content, cursor, middle) {
        BisectIsTight(content, cursor, middle, high);
      } else {
        BisectIsTight(content, cursor, low, middle - 1);
      }
    }
  }

  /** A page of a text that is not the last is full: five more units would not fit. */
  lemma TextPageIsFull(content: Text, cursor: nat, stop: nat)
    requires cursor <= |content| && PageEnd(content, false, cursor) + 5 <= stop <= |content|
    ensures StringBytes(content[cursor..stop]) > PAGE_BYTES
  {
    hide Bisect, Bytes;
    var r := Bisect(content, cursor, 0, |content| - cursor);
    BisectIsTight(content, cursor, 0, |content| - cursor);
    LongerCostsMore(content, cursor, cursor + r + 1, stop);
    BytesOfSlice(content, cursor, stop);
  }

  /** Nothing but the two lengths just before the end can cut a pair and exceed the budget. */
  lemma BadLengths(content: Text, cursor: nat, m: nat)
    requires 0 < m < |content| - cursor
    requires Fits(content, cursor, |content| - cursor) && !Fits(content, cursor, m)
    ensures m >= |content| - cursor - 2
    ensures m == |content| - cursor - 2 ==> Fits(content, cursor, m + 1)
    ensures m == |content| - cursor - 1 && m >= 2 ==> Fits(content, cursor, m - 1)
  {
    LongerCostsMore(content, cursor, cursor + m, |content|);
    SplitCost(content, cursor, cursor + m);
    if cursor + m + 1 < |content| {
      LongerCostsMore(content, cursor, cursor + m + 1, |content|);
    }
  }

  lemma UnterminatedLine(content: Text, cursor: nat)
    requires cursor < |content|
    ensures FittingEnd(content, cursor) == |content| <==> UnterminatedLineKept(content, cursor)
  {
    var n := |content| - cursor;
    if !Fits(content, cursor, n) || EndsHigh(content) {
      assert FittingEnd(content, cursor) < |content|;
    } else if n >= 2 && !Fits(content, cursor, n - 1) {
      OnlyBadLength(content, cursor, n - 1);
      GapOneVisited(n);
      BisectAroundGap(content, cursor, 0, n, 1);
    } else if n >= 3 && !Fits(content, cursor, n - 2) {
      OnlyBadLength(content, cursor, n - 2);
      BisectAroundGap(content, cursor, 0, n, 2);
    } else {
      forall m: nat | 0 < m < n
        ensures Fits(content, cursor, m)
      {
        if !Fits(content, cursor, m) {
          BadLengths(content, cursor, m);
          assert false;
        }
      }
      BisectReaches(content, cursor, 0, n, n);
    }
  }

  lemma OnlyBadLength(content: Text, cursor: nat, bad: nat)
    requires 0 < bad < |content| - cursor
    requires Fits(content, cursor, |content| - cursor) && !Fits(content, cursor, bad)
    ensures forall m: nat :: 0 < m <= |content| - cursor && m != bad ==> Fits(content, cursor, m)
  {
    BadLengths(content, cursor, bad);
    forall m: nat | 0 < m < |content| - cursor && m != bad
      ensures Fits(content, cursor, m)
    {
      if !Fits(content, cursor, m) {
        BadLengths(content, cursor, m);
        assert false;
      }
    }
  }

  /** A last line that fits the page budget exactly and is lost all the same: the search tests
      the length that cuts its surrogate pair, which costs two bytes more than the whole. */
  lemma FittingLineCanBeLost() returns (content: Text)
    ensures NEWLINE !in content && StringBytes(content) == PAGE_BYTES
    ensures PageAt(content, true, 0).omittedLine && PageAt(content, true, 0).next == None
  {
    var letters: Text := seq(PAGE_BYTES - 6, _ => 97);
    content := letters + [0xD83D, 0xDE00];
    var n := |content|;
    BytesOfPrefix(letters, content);
    PlainBytes(letters, |letters|);
    assert PairBefore(content, 0, n);
    SplitCost(content, 0, n - 1);
    assert !UnterminatedLineKept(content, 0);
    assert IndexOf(content, NEWLINE, 0) == n;
    LineLostExactlyWhen(content, 0);
  }

  lemma BytesOfPrefix(s: Text, t: Text)
    requires s <= t
    ensures Bytes(t, 0, |s|) == Bytes(s, 0, |s|)
  {
    assert t[0..|s|] == s;
    BytesOfSlice(t, 0, |s|);
  }
}
