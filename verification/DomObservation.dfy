/** Opening phases of page regions over the captures of one document: when a region counts as
    reopened, and when its phase counts as proven. Walking the DOM is outside this model: a
    capture is what the walk found. */
module DomObservation {
  import opened Wrappers

  type NodeId = nat
  type Command = nat
  type DialogKey = string

  const MAX_REGIONS := 500
  const PURGE_ABOVE := 4000

  /** A captured node: the key of a named dialog, whether its tag can be a region at all, and
      whether it is a structural region that is visible. */
  datatype Node = Node(id: NodeId, key: Option<DialogKey>, tracked: bool, shown: bool)

  /** One capture of the document; `structural` are the known elements that form a scope now. */
  datatype Capture = Capture(nodes: seq<Node>, scoped: bool, walkLimited: bool, structural: set<NodeId>)

  datatype Region = Region(
    count: nat, proven: bool, openedBy: Option<Command>, modified: set<NodeId>, open: bool, key: Option<DialogKey>)

  datatype State = State(regions: map<NodeId, Region>, initialized: bool, command: Option<Command>)

  /** The state of a document is created by its first capture. */
  type Document = Option<State>

  datatype Target = NoTarget | UnknownTarget | Known(id: Option<NodeId>, touching: set<NodeId>)

  datatype Event = Capturing(capture: Capture) | Marking(command: Command, target: Target) | Invalidating

  datatype Report = Report(node: NodeId, region: Region)
  {
    predicate Reopened() { region.count > 1 }
  }

  // ---------------------------------------------------------------------------------------
  // A capture

  predicate Rendered(c: Capture, id: NodeId) { exists i :: 0 <= i < |c.nodes| && c.nodes[i].id == id }

  predicate Tracked(c: Capture, id: NodeId)
  {
    exists i :: 0 <= i < |c.nodes| && c.nodes[i].id == id && c.nodes[i].tracked
  }

  predicate Keyed(c: Capture, id: NodeId, key: DialogKey)
  {
    exists i :: 0 <= i < |c.nodes| && c.nodes[i].id == id && c.nodes[i].tracked && c.nodes[i].key == Some(key)
  }

  function ShownCount(nodes: seq<Node>, n: nat): nat
    requires n <= |nodes|
  {
    if n == 0 then 0 else ShownCount(nodes, n - 1) + if nodes[n - 1].tracked && nodes[n - 1].shown then 1 else 0
  }

  function KeyCount(nodes: seq<Node>, key: DialogKey, n: nat): nat
    requires n <= |nodes|
  {
    if n == 0 then 0 else KeyCount(nodes, key, n - 1) + if nodes[n - 1].key == Some(key) then 1 else 0
  }

  /** The capture saw the whole document and all its regions. */
  predicate Complete(c: Capture) { !c.scoped && !c.walkLimited && ShownCount(c.nodes, |c.nodes|) <= MAX_REGIONS }

  /** An edited scope that is gone was replaced rather than closed. */
  predicate ReplacesEditedScope(regions: map<NodeId, Region>, c: Capture)
  {
    exists id :: id in regions && regions[id].open && regions[id].modified != {} && !Rendered(c, id) && id in c.structural
  }

  function Holders(regions: map<NodeId, Region>, key: DialogKey): set<NodeId>
  {
    set id | id in regions && regions[id].key == Some(key)
  }

  function TheOnly(s: set<NodeId>): (x: NodeId)
    requires |s| == 1
    ensures s == {x}
  {
    SingleElement(s);
    var x :| x in s;
    x
  }

  lemma SingleElement(s: set<NodeId>)
    requires |s| == 1
    ensures forall x, y :: x in s && y in s ==> x == y
    ensures forall x :: x in s ==> s == {x}
  {
    forall x | x in s ensures s == {x} {
      assert |s - {x}| == 0;
    }
  }

  /** The one closed dialog of this name, if the capture shows the name once. */
  function Predecessor(regions: map<NodeId, Region>, c: Capture, node: Node): (r: Option<NodeId>)
    ensures r.Some? ==> r.value in regions && !regions[r.value].open
                        && node.key.Some? && regions[r.value].key == node.key && r.value != node.id
  {
    if node.id in regions || node.key.None? || KeyCount(c.nodes, node.key.value, |c.nodes|) != 1 then None
    else
      var holders := Holders(regions, node.key.value);
      if |holders| != 1 then None
      else
        var id := TheOnly(holders);
        assert id in holders;
        if regions[id].open then None else Some(id)
  }

  datatype Walk = Walk(regions: map<NodeId, Region>, reports: seq<Report>, limited: bool)

  /** The region of a node: the one it has, opened again if it was closed, taken over from its
      predecessor, or new. */
  function RegionOf(s: State, c: Capture, regions: map<NodeId, Region>, node: Node): Region
  {
    var predecessor := Predecessor(regions, c, node);
    var previous := if node.id in regions then Some(regions[node.id])
                    else if predecessor.Some? then Some(regions[predecessor.value]) else None;
    if previous.Some? && previous.value.open then previous.value
    else Region((if previous.Some? then previous.value.count else 0) + 1,
                s.initialized && s.command.Some? && !ReplacesEditedScope(s.regions, c), s.command, {}, true, node.key)
  }

  function Visit(s: State, c: Capture, w: Walk, node: Node): Walk
  {
    if !node.tracked then w
    else
      var predecessor := Predecessor(w.regions, c, node);
      var region := RegionOf(s, c, w.regions, node);
      var kept := if predecessor.Some? then w.regions - {predecessor.value} else w.regions;
      var regions := kept[node.id := region];
      if !node.shown then w.(regions := regions)
      else if |w.reports| >= MAX_REGIONS then w.(regions := regions, limited := true)
      else w.(regions := regions, reports := w.reports + [Report(node.id, region)])
  }

  /** The walk over the first `n` nodes. */
  function WalkTo(s: State, c: Capture, n: nat): Walk
    requires n <= |c.nodes|
  {
    if n == 0 then Walk(s.regions, [], c.walkLimited) else Visit(s, c, WalkTo(s, c, n - 1), c.nodes[n - 1])
  }

  function Closed(regions: map<NodeId, Region>, c: Capture): map<NodeId, Region>
  {
    map id | id in regions :: if Rendered(c, id) then regions[id] else regions[id].(open := false)
  }

  function Purged(regions: map<NodeId, Region>): map<NodeId, Region>
  {
    if |regions| > PURGE_ABOVE then map id | id in regions && regions[id].open :: regions[id] else regions
  }

  function Take(s: State, c: Capture): State
  {
    var w := WalkTo(s, c, |c.nodes|);
    var complete := !c.scoped && !w.limited;
    State(Purged(if complete then Closed(w.regions, c) else w.regions), s.initialized || complete, s.command)
  }

  function Reports(s: State, c: Capture): seq<Report> { WalkTo(s, c, |c.nodes|).reports }

  function Mark(s: State, command: Command, target: Target): State
  {
    var t := s.(command := Some(command));
    match target
    case NoTarget => t
    case UnknownTarget =>
      t.(regions := map id | id in s.regions :: if s.regions[id].open then s.regions[id].(proven := false) else s.regions[id])
    case Known(id, touching) =>
      if id.None? then t
      else t.(regions := map r | r in s.regions ::
                if s.regions[r].open && r in touching
                then s.regions[r].(modified := s.regions[r].modified + {id.value}) else s.regions[r])
  }

  function Invalidate(s: State): State
  {
    s.(initialized := false, regions := map id | id in s.regions :: s.regions[id].(proven := false))
  }

  const NEW_STATE := State(map[], false, None)

  function Step(d: Document, e: Event): Document
  {
    match e
    case Capturing(c) => Some(Take(if d.Some? then d.value else NEW_STATE, c))
    case Marking(command, target) => if d.None? then d else Some(Mark(d.value, command, target))
    case Invalidating => if d.None? then d else Some(Invalidate(d.value))
  }

  /** The document after the first `n` events. */
  function After(trace: seq<Event>, n: nat): Document
    requires n <= |trace|
  {
    if n == 0 then None else Step(After(trace, n - 1), trace[n - 1])
  }

  function Before(trace: seq<Event>, n: nat): State
    requires n <= |trace|
  {
    var d := After(trace, n);
    if d.Some? then d.value else NEW_STATE
  }

  // ---------------------------------------------------------------------------------------
  // Reopened means a witnessed closure

  /** The node was captured, and a later complete capture did not show it. */
  ghost predicate ClosureWitnessed(trace: seq<Event>, n: nat, id: NodeId)
  {
    exists i, j :: 0 <= i < j < n <= |trace| && trace[i].Capturing? && Tracked(trace[i].capture, id)
                   && trace[j].Capturing? && Complete(trace[j].capture) && !Rendered(trace[j].capture, id)
  }

  ghost predicate SeenAs(trace: seq<Event>, n: nat, id: NodeId, key: Option<DialogKey>)
  {
    exists i :: 0 <= i < n <= |trace| && trace[i].Capturing? && Tracked(trace[i].capture, id)
                && (key.Some? ==> Keyed(trace[i].capture, id, key.value))
  }

  /** The region, or a dialog of the same role and name, was seen and then witnessed closed. */
  ghost predicate ReopeningWitnessed(trace: seq<Event>, n: nat, id: NodeId, key: Option<DialogKey>)
  {
    || ClosureWitnessed(trace, n, id)
    || (key.Some? && exists other :: SeenAs(trace, n, other, key) && ClosureWitnessed(trace, n, other))
  }

  ghost predicate Witnessed(trace: seq<Event>, n: nat, id: NodeId, r: Region)
  {
    && r.count >= 1
    && SeenAs(trace, n, id, r.key)
    && (!r.open ==> ClosureWitnessed(trace, n, id))
    && (r.count > 1 ==> ReopeningWitnessed(trace, n, id, r.key))
  }

  ghost predicate AllWitnessed(trace: seq<Event>, n: nat, regions: map<NodeId, Region>)
  {
    forall id :: id in regions ==> Witnessed(trace, n, id, regions[id])
  }

  lemma ClosureLater(trace: seq<Event>, n: nat, id: NodeId)
    requires n < |trace| && ClosureWitnessed(trace, n, id)
    ensures ClosureWitnessed(trace, n + 1, id)
  {
  }

  lemma SeenLater(trace: seq<Event>, n: nat, id: NodeId, key: Option<DialogKey>)
    requires n < |trace| && SeenAs(trace, n, id, key)
    ensures SeenAs(trace, n + 1, id, key)
  {
  }

  lemma WitnessedLater(trace: seq<Event>, n: nat, id: NodeId, r: Region)
    requires n < |trace| && Witnessed(trace, n, id, r)
    ensures Witnessed(trace, n + 1, id, r)
  {
    hide ClosureWitnessed, SeenAs;
    SeenLater(trace, n, id, r.key);
    if ClosureWitnessed(trace, n, id) {
      ClosureLater(trace, n, id);
    } else if r.count > 1 {
      var other :| SeenAs(trace, n, other, r.key) && ClosureWitnessed(trace, n, other);
      SeenLater(trace, n, other, r.key);
      ClosureLater(trace, n, other);
    }
  }

  /** While capture `n` is under way: every closure and reopening was witnessed before it. */
  ghost predicate WitnessedBefore(trace: seq<Event>, n: nat, id: NodeId, r: Region)
  {
    && r.count >= 1
    && SeenAs(trace, n + 1, id, r.key)
    && (!r.open ==> SeenAs(trace, n, id, r.key) && ClosureWitnessed(trace, n, id))
    && (r.count > 1 ==> ReopeningWitnessed(trace, n, id, r.key))
  }

  ghost predicate WalkIsWitnessed(trace: seq<Event>, n: nat, w: Walk)
  {
    && (forall id :: id in w.regions ==> WitnessedBefore(trace, n, id, w.regions[id]))
    && (forall i :: 0 <= i < |w.reports| ==> WitnessedBefore(trace, n, w.reports[i].node, w.reports[i].region))
  }

  lemma VisitWitnessed(trace: seq<Event>, n: nat, s: State, w: Walk, k: nat)
    requires n < |trace| && trace[n].Capturing? && k < |trace[n].capture.nodes| && WalkIsWitnessed(trace, n, w)
    ensures WalkIsWitnessed(trace, n, Visit(s, trace[n].capture, w, trace[n].capture.nodes[k]))
  {
    var c := trace[n].capture;
    var node := c.nodes[k];
    if node.tracked {
      RegionWitnessed(trace, n, s, w.regions, node, k);
      hide WitnessedBefore, RegionOf;
    }
  }

  lemma RegionWitnessed(trace: seq<Event>, n: nat, s: State, regions: map<NodeId, Region>, node: Node, k: nat)
    requires n < |trace| && trace[n].Capturing? && k < |trace[n].capture.nodes| && trace[n].capture.nodes[k] == node
    requires node.tracked && forall id :: id in regions ==> WitnessedBefore(trace, n, id, regions[id])
    ensures WitnessedBefore(trace, n, node.id, RegionOf(s, trace[n].capture, regions, node))
  {
    var c := trace[n].capture;
    assert Tracked(c, node.id) && (node.key.Some? ==> Keyed(c, node.id, node.key.value));
    assert SeenAs(trace, n + 1, node.id, node.key);
    var predecessor := Predecessor(regions, c, node);
    hide SeenAs, ClosureWitnessed, ReplacesEditedScope, Predecessor;
    if node.id in regions {
      assert WitnessedBefore(trace, n, node.id, regions[node.id]);
    } else if predecessor.Some? {
      assert WitnessedBefore(trace, n, predecessor.value, regions[predecessor.value]);
    }
  }

  lemma {:induction false} WalkWitnessed(trace: seq<Event>, n: nat, s: State, k: nat)
    requires n < |trace| && trace[n].Capturing? && k <= |trace[n].capture.nodes|
    requires AllWitnessed(trace, n, s.regions)
    ensures WalkIsWitnessed(trace, n, WalkTo(s, trace[n].capture, k))
    decreases k
  {
    hide WalkIsWitnessed, Visit, AllWitnessed;
    if k == 0 {
      StartWitnessed(trace, n, s);
    } else {
      WalkWitnessed(trace, n, s, k - 1);
      VisitWitnessed(trace, n, s, WalkTo(s, trace[n].capture, k - 1), k - 1);
    }
  }

  lemma StartWitnessed(trace: seq<Event>, n: nat, s: State)
    requires n < |trace| && trace[n].Capturing? && AllWitnessed(trace, n, s.regions)
    ensures WalkIsWitnessed(trace, n, WalkTo(s, trace[n].capture, 0))
  {
  }

  lemma WitnessedAfter(trace: seq<Event>, n: nat, id: NodeId, r: Region)
    requires n < |trace| && WitnessedBefore(trace, n, id, r)
    ensures Witnessed(trace, n + 1, id, r)
  {
    hide ClosureWitnessed, SeenAs;
    if ClosureWitnessed(trace, n, id) {
      ClosureLater(trace, n, id);
    } else if r.count > 1 {
      var other :| SeenAs(trace, n, other, r.key) && ClosureWitnessed(trace, n, other);
      SeenLater(trace, n, other, r.key);
      ClosureLater(trace, n, other);
    }
  }

  /** The walk is cut short by its number of regions exactly when more are shown than allowed. */
  lemma {:induction false} LimitedExactlyWhen(s: State, c: Capture, n: nat)
    requires n <= |c.nodes|
    ensures var w := WalkTo(s, c, n);
      && (w.limited <==> c.walkLimited || ShownCount(c.nodes, n) > MAX_REGIONS)
      && |w.reports| == (if ShownCount(c.nodes, n) <= MAX_REGIONS then ShownCount(c.nodes, n) else MAX_REGIONS)
  {
    if n > 0 {
      hide RegionOf, Predecessor;
      LimitedExactlyWhen(s, c, n - 1);
    }
  }

  lemma ClosedWitnessed(trace: seq<Event>, n: nat, regions: map<NodeId, Region>)
    requires n < |trace| && trace[n].Capturing? && Complete(trace[n].capture) && AllWitnessed(trace, n + 1, regions)
    ensures AllWitnessed(trace, n + 1, Closed(regions, trace[n].capture))
  {
  }

  lemma TakeWitnessed(trace: seq<Event>, n: nat, s: State)
    requires n < |trace| && trace[n].Capturing? && AllWitnessed(trace, n, s.regions)
    ensures AllWitnessed(trace, n + 1, Take(s, trace[n].capture).regions)
  {
    hide Witnessed, Complete, WalkTo, Closed;
    var c := trace[n].capture;
    var w := WalkTo(s, c, |c.nodes|);
    WalkWitnessed(trace, n, s, |c.nodes|);
    forall id | id in w.regions ensures Witnessed(trace, n + 1, id, w.regions[id]) {
      WitnessedAfter(trace, n, id, w.regions[id]);
    }
    LimitedExactlyWhen(s, c, |c.nodes|);
    if !c.scoped && !w.limited {
      assert Complete(c) by { CompleteMeans(c); }
      ClosedWitnessed(trace, n, w.regions);
    }
  }

  lemma CompleteMeans(c: Capture)
    ensures Complete(c) <==> !c.scoped && !c.walkLimited && ShownCount(c.nodes, |c.nodes|) <= MAX_REGIONS
  {
  }

  lemma OtherStepWitnessed(trace: seq<Event>, n: nat, s: State, t: State)
    requires n < |trace| && AllWitnessed(trace, n, s.regions) && t.regions.Keys == s.regions.Keys
    requires forall id :: id in s.regions ==>
               t.regions[id].count == s.regions[id].count && t.regions[id].open == s.regions[id].open
               && t.regions[id].key == s.regions[id].key
    ensures AllWitnessed(trace, n + 1, t.regions)
  {
    forall id | id in t.regions ensures Witnessed(trace, n + 1, id, t.regions[id]) {
      assert Witnessed(trace, n, id, s.regions[id]);
      WitnessedLater(trace, n, id, s.regions[id]);
    }
  }

  /** Events other than captures neither open nor close a region, and prove none. */
  lemma OtherStep(trace: seq<Event>, n: nat)
    requires n < |trace| && !trace[n].Capturing?
    ensures var s, t := Before(trace, n).regions, Before(trace, n + 1).regions;
      && t.Keys == s.Keys
      && forall id :: id in s ==>
           t[id].count == s[id].count && t[id].open == s[id].open && t[id].key == s[id].key
           && (t[id].proven ==> s[id].proven && !trace[n].Invalidating?)
  {
  }

  lemma NextStep(trace: seq<Event>, n: nat)
    requires n < |trace|
    ensures After(trace, n + 1) == Step(After(trace, n), trace[n])
    ensures trace[n].Capturing? ==> Before(trace, n + 1) == Take(Before(trace, n), trace[n].capture)
  {
  }

  lemma StepWitnessed(trace: seq<Event>, n: nat)
    requires n < |trace| && AllWitnessed(trace, n, Before(trace, n).regions)
    ensures AllWitnessed(trace, n + 1, Before(trace, n + 1).regions)
  {
    hide AllWitnessed, Before;
    if trace[n].Capturing? {
      NextStep(trace, n);
      TakeWitnessed(trace, n, Before(trace, n));
    } else {
      OtherStep(trace, n);
      OtherStepWitnessed(trace, n, Before(trace, n), Before(trace, n + 1));
    }
  }

  lemma NothingBefore(trace: seq<Event>)
    ensures AllWitnessed(trace, 0, Before(trace, 0).regions)
  {
    assert Before(trace, 0).regions == map[];
  }

  lemma {:induction false} HistoryWitnessed(trace: seq<Event>, n: nat)
    requires n <= |trace|
    ensures AllWitnessed(trace, n, Before(trace, n).regions)
  {
    hide AllWitnessed, Before;
    if n > 0 {
      HistoryWitnessed(trace, n - 1);
      StepWitnessed(trace, n - 1);
    } else {
      NothingBefore(trace);
    }
  }

  /** A region is reported reopened only if it, or a dialog of the same role and name, was seen in
      an earlier capture and missing from a later complete one. */
  lemma ReopenedMeansClosed(trace: seq<Event>, n: nat, i: nat)
    requires n < |trace| && trace[n].Capturing? && i < |Reports(Before(trace, n), trace[n].capture)|
    requires Reports(Before(trace, n), trace[n].capture)[i].Reopened()
    ensures var r := Reports(Before(trace, n), trace[n].capture)[i];
      ReopeningWitnessed(trace, n, r.node, r.region.key)
  {
    HistoryWitnessed(trace, n);
    WalkWitnessed(trace, n, Before(trace, n), |trace[n].capture.nodes|);
  }

  /** A scoped or limited capture closes nothing, and only closed regions are ever forgotten. */
  lemma PartialCaptureClosesNothing(s: State, c: Capture, id: NodeId)
    requires id in s.regions && s.regions[id].open && (!Complete(c) || Rendered(c, id))
    ensures id in Take(s, c).regions && Take(s, c).regions[id].open
  {
    LimitedExactlyWhen(s, c, |c.nodes|);
    WalkKeepsOpen(s, c, id, |c.nodes|);
  }

  lemma {:induction false} WalkKeepsOpen(s: State, c: Capture, id: NodeId, n: nat)
    requires id in s.regions && s.regions[id].open && n <= |c.nodes|
    ensures id in WalkTo(s, c, n).regions && WalkTo(s, c, n).regions[id].open
  {
    if n > 0 {
      WalkKeepsOpen(s, c, id, n - 1);
      hide Predecessor, ReplacesEditedScope;
    }
  }

  // ---------------------------------------------------------------------------------------
  // Proven phases

  predicate Undisturbed(trace: seq<Event>, from: nat, end: nat)
    requires end <= |trace|
  {
    forall m :: from < m < end ==> !trace[m].Invalidating?
  }

  predicate CompleteAt(trace: seq<Event>, k: nat)
    requires k < |trace|
  {
    trace[k].Capturing? && Complete(trace[k].capture)
  }

  /** Some complete capture came before, and no invalidation after it. */
  ghost predicate Baseline(trace: seq<Event>, n: nat)
  {
    exists k :: 0 <= k < n <= |trace| && CompleteAt(trace, k) && Undisturbed(trace, k, n)
  }

  ghost predicate Captured(trace: seq<Event>, n: nat)
  {
    exists i :: 0 <= i < n <= |trace| && trace[i].Capturing?
  }

  /** Some command was marked once the document had been captured. */
  ghost predicate Commanded(trace: seq<Event>, n: nat)
  {
    exists k :: 0 <= k < n <= |trace| && trace[k].Marking? && Captured(trace, k)
  }

  lemma {:induction false} FlagsMeaning(trace: seq<Event>, n: nat)
    requires n <= |trace|
    ensures After(trace, n).Some? <==> Captured(trace, n)
    ensures Before(trace, n).initialized <==> Baseline(trace, n)
    ensures Before(trace, n).command.Some? <==> Commanded(trace, n)
  {
    if n > 0 {
      FlagsMeaning(trace, n - 1);
      BaselineStep(trace, n - 1);
      StepFlags(After(trace, n - 1), trace[n - 1]);
      hide Baseline, Commanded, Captured, Complete, Take, Step, Mark, Invalidate;
    }
  }

  /** What one event does to the two flags of a document. */
  lemma StepFlags(d: Document, e: Event)
    ensures var s := if d.Some? then d.value else NEW_STATE;
      var after := Step(d, e);
      && (after.Some? <==> d.Some? || e.Capturing?)
      && (after.Some? ==>
            (after.value.initialized <==>
             (s.initialized && !e.Invalidating?) || (e.Capturing? && Complete(e.capture)))
            && (after.value.command.Some? <==> s.command.Some? || e.Marking?))
  {
    if e.Capturing? {
      var s := if d.Some? then d.value else NEW_STATE;
      LimitedExactlyWhen(s, e.capture, |e.capture.nodes|);
      hide WalkTo, Purged, Closed;
    }
  }

  lemma BaselineStep(trace: seq<Event>, n: nat)
    requires n < |trace|
    ensures Baseline(trace, n + 1) <==> (Baseline(trace, n) && !trace[n].Invalidating?) || CompleteAt(trace, n)
  {
  }

  /** A region that opens is proven exactly when a complete capture since the last invalidation
      precedes it, some command was marked at any time after the first capture, and no edited
      scope was replaced. */
  lemma OpensProvenExactlyWhen(trace: seq<Event>, n: nat, regions: map<NodeId, Region>, node: Node)
    requires n < |trace| && trace[n].Capturing?
    requires node.id in regions ==> !regions[node.id].open
    ensures RegionOf(Before(trace, n), trace[n].capture, regions, node).proven
       <==> Baseline(trace, n) && Commanded(trace, n)
            && !ReplacesEditedScope(Before(trace, n).regions, trace[n].capture)
  {
    FlagsMeaning(trace, n);
    hide Baseline, Commanded, ReplacesEditedScope;
  }

  /** The capture at which the region opened: it shows the region, which was not open before, it
      has a baseline and a command, and nothing was invalidated since. */
  ghost predicate OpenedProven(trace: seq<Event>, m: nat, n: nat, id: NodeId)
    requires m < n <= |trace|
  {
    && trace[m].Capturing? && Tracked(trace[m].capture, id)
    && (id in Before(trace, m).regions ==> !Before(trace, m).regions[id].open)
    && Baseline(trace, m) && Commanded(trace, m) && Undisturbed(trace, m, n)
  }

  ghost predicate Vouched(trace: seq<Event>, n: nat, id: NodeId, r: Region)
  {
    r.proven ==> exists m :: 0 <= m < n <= |trace| && OpenedProven(trace, m, n, id)
  }

  ghost predicate AllVouched(trace: seq<Event>, n: nat, regions: map<NodeId, Region>)
  {
    forall id :: id in regions ==> Vouched(trace, n, id, regions[id])
  }

  lemma OpenedLater(trace: seq<Event>, m: nat, n: nat, id: NodeId)
    requires m < n < |trace| && OpenedProven(trace, m, n, id) && !trace[n].Invalidating?
    ensures OpenedProven(trace, m, n + 1, id)
  {
  }

  lemma VouchedLater(trace: seq<Event>, n: nat, id: NodeId, r: Region)
    requires n < |trace| && Vouched(trace, n, id, r) && !trace[n].Invalidating?
    ensures Vouched(trace, n + 1, id, r)
  {
    hide OpenedProven;
    if r.proven {
      var m :| 0 <= m < n && OpenedProven(trace, m, n, id);
      OpenedLater(trace, m, n, id);
    }
  }

  lemma NewVouched(trace: seq<Event>, n: nat, k: nat)
    requires n < |trace| && trace[n].Capturing? && k < |trace[n].capture.nodes| && trace[n].capture.nodes[k].tracked
    requires AllVouched(trace, n + 1, WalkTo(Before(trace, n), trace[n].capture, k).regions)
    ensures var s, c := Before(trace, n), trace[n].capture;
      Vouched(trace, n + 1, c.nodes[k].id, RegionOf(s, c, WalkTo(s, c, k).regions, c.nodes[k]))
  {
    var s, c := Before(trace, n), trace[n].capture;
    var node := c.nodes[k];
    var regions := WalkTo(s, c, k).regions;
    var r := RegionOf(s, c, regions, node);
    if node.id in regions && regions[node.id].open {
      assert Vouched(trace, n + 1, node.id, regions[node.id]);
      assert r == regions[node.id];
    } else if r.proven {
      OpensProvenExactlyWhen(trace, n, regions, node);
      if node.id in s.regions && s.regions[node.id].open {
        WalkKeepsOpen(s, c, node.id, k);
      }
      hide Baseline, Commanded, RegionOf, WalkTo, Before;
      assert Tracked(c, node.id) && Undisturbed(trace, n, n + 1);
      assert OpenedProven(trace, n, n + 1, node.id);
    }
  }

  lemma {:induction false} WalkVouched(trace: seq<Event>, n: nat, k: nat)
    requires n < |trace| && trace[n].Capturing? && k <= |trace[n].capture.nodes|
    requires AllVouched(trace, n, Before(trace, n).regions)
    ensures var w := WalkTo(Before(trace, n), trace[n].capture, k);
      && AllVouched(trace, n + 1, w.regions)
      && forall i :: 0 <= i < |w.reports| ==> Vouched(trace, n + 1, w.reports[i].node, w.reports[i].region)
    decreases k
  {
    hide Vouched, Before, RegionOf, Predecessor;
    var s, c := Before(trace, n), trace[n].capture;
    if k == 0 {
      forall id | id in s.regions ensures Vouched(trace, n + 1, id, s.regions[id]) {
        VouchedLater(trace, n, id, s.regions[id]);
      }
    } else {
      WalkVouched(trace, n, k - 1);
      if c.nodes[k - 1].tracked {
        NewVouched(trace, n, k - 1);
      }
    }
  }

  lemma TakeVouched(trace: seq<Event>, n: nat)
    requires n < |trace| && trace[n].Capturing? && AllVouched(trace, n, Before(trace, n).regions)
    ensures AllVouched(trace, n + 1, Take(Before(trace, n), trace[n].capture).regions)
  {
    var s, c := Before(trace, n), trace[n].capture;
    WalkVouched(trace, n, |c.nodes|);
    hide OpenedProven, WalkTo, Rendered, Before;
  }

  lemma OtherVouched(trace: seq<Event>, n: nat, s: State, t: State)
    requires n < |trace| && AllVouched(trace, n, s.regions) && t.regions.Keys == s.regions.Keys
    requires forall id :: id in s.regions && t.regions[id].proven ==>
               s.regions[id].proven && !trace[n].Invalidating?
    ensures AllVouched(trace, n + 1, t.regions)
  {
    hide OpenedProven;
    forall id | id in t.regions ensures Vouched(trace, n + 1, id, t.regions[id]) {
      if t.regions[id].proven {
        assert Vouched(trace, n, id, s.regions[id]);
        VouchedLater(trace, n, id, s.regions[id]);
      }
    }
  }

  lemma StepVouched(trace: seq<Event>, n: nat)
    requires n < |trace| && AllVouched(trace, n, Before(trace, n).regions)
    ensures AllVouched(trace, n + 1, Before(trace, n + 1).regions)
  {
    hide AllVouched, Before;
    if trace[n].Capturing? {
      NextStep(trace, n);
      TakeVouched(trace, n);
    } else {
      OtherStep(trace, n);
      OtherVouched(trace, n, Before(trace, n), Before(trace, n + 1));
    }
  }

  lemma {:induction false} HistoryVouched(trace: seq<Event>, n: nat)
    requires n <= |trace|
    ensures AllVouched(trace, n, Before(trace, n).regions)
  {
    if n > 0 {
      hide AllVouched, Before;
      HistoryVouched(trace, n - 1);
      StepVouched(trace, n - 1);
    } else {
      assert Before(trace, 0).regions == map[];
    }
  }

  /** A phase is reported as proven only if its region opened at a capture that had a complete
      earlier one to compare with and a marked command, and no invalidation came since. */
  lemma ProvenMeansVouched(trace: seq<Event>, n: nat, i: nat)
    requires n < |trace| && trace[n].Capturing? && i < |Reports(Before(trace, n), trace[n].capture)|
    requires Reports(Before(trace, n), trace[n].capture)[i].region.proven
    ensures var end, id := n + 1, Reports(Before(trace, n), trace[n].capture)[i].node;
      exists m :: 0 <= m < end && OpenedProven(trace, m, end, id)
  {
    HistoryVouched(trace, n);
    WalkVouched(trace, n, |trace[n].capture.nodes|);
    hide OpenedProven, Before;
  }

  /** The command may be older than the last invalidation, which does not forget it: capture,
      command, invalidation and capture leave a dialog that opens next with a proven phase. */
  lemma CommandOutlivesInvalidation(node: Node, command: Command)
    requires node.tracked
    ensures var empty := Capturing(Capture([], false, false, {}));
      var opening := Capture([node], false, false, {});
      var trace := [empty, Marking(command, NoTarget), Invalidating, empty, Capturing(opening)];
      RegionOf(Before(trace, 4), opening, Before(trace, 4).regions, node).proven
  {
    var empty := Capturing(Capture([], false, false, {}));
    var opening := Capture([node], false, false, {});
    var trace := [empty, Marking(command, NoTarget), Invalidating, empty, Capturing(opening)];
    assert Complete(trace[0].capture);
    var s := Take(NEW_STATE, trace[0].capture);
    assert s == State(map[], true, None);
    assert After(trace, 1) == Some(s);
    assert After(trace, 2) == Some(s.(command := Some(command)));
    assert After(trace, 3) == Some(State(map[], false, Some(command)));
    assert After(trace, 4) == Some(State(map[], true, Some(command)));
  }

  // ---------------------------------------------------------------------------------------
  // What opens, closes and is forgotten

  /** The key is that of exactly one node. */
  ghost predicate NamedOnce(nodes: seq<Node>, n: nat, key: DialogKey)
    requires n <= |nodes|
  {
    exists i :: 0 <= i < n && nodes[i].key == Some(key) && forall j :: 0 <= j < n && nodes[j].key == Some(key) ==> j == i
  }

  lemma {:induction false} KeyCountMeans(nodes: seq<Node>, key: DialogKey, n: nat)
    requires n <= |nodes|
    ensures KeyCount(nodes, key, n) == 0 <==> forall i :: 0 <= i < n ==> nodes[i].key != Some(key)
    ensures KeyCount(nodes, key, n) == 1 <==> NamedOnce(nodes, n, key)
  {
    if n > 0 {
      KeyCountMeans(nodes, key, n - 1);
      if nodes[n - 1].key == Some(key) {
        if KeyCount(nodes, key, n - 1) == 0 {
          assert nodes[n - 1].key == Some(key) && forall j :: 0 <= j < n && nodes[j].key == Some(key) ==> j == n - 1;
        }
      } else if NamedOnce(nodes, n - 1, key) {
        var i :| 0 <= i < n - 1 && nodes[i].key == Some(key) && forall j :: 0 <= j < n - 1 && nodes[j].key == Some(key) ==> j == i;
        assert forall j :: 0 <= j < n && nodes[j].key == Some(key) ==> j == i;
      }
    }
  }

  /** The node is a dialog, named once in the capture, that takes the place of region `p`: the only one
      of that name, and closed. */
  ghost predicate TakesPlaceOf(regions: map<NodeId, Region>, c: Capture, node: Node, p: NodeId)
  {
    && node.id !in regions && node.key.Some? && NamedOnce(c.nodes, |c.nodes|, node.key.value)
    && p in regions && !regions[p].open && regions[p].key == node.key
    && forall q :: q in regions && regions[q].key == node.key ==> q == p
  }

  lemma PredecessorExactlyWhen(regions: map<NodeId, Region>, c: Capture, node: Node, p: NodeId)
    ensures Predecessor(regions, c, node) == Some(p) <==> TakesPlaceOf(regions, c, node, p)
  {
    if node.key.Some? {
      KeyCountMeans(c.nodes, node.key.value, |c.nodes|);
      var holders := Holders(regions, node.key.value);
      assert forall q :: q in regions && regions[q].key == node.key <==> q in holders;
      if |holders| == 1 {
        SingleElement(holders);
      }
      if TakesPlaceOf(regions, c, node, p) {
        assert holders == {p};
        assert |holders| == 1;
      }
    }
    hide KeyCount, NamedOnce, Holders;
  }

  /** How a region opens: as the next opening of the same region, or of the dialog whose place it takes,
      or as the first; untouched, under its own name, by the last command. It is proven unless there is
      nothing to compare with, no command, or an edited scope that is still there but no longer shown. */
  lemma OpensAs(s: State, c: Capture, regions: map<NodeId, Region>, node: Node)
    requires node.id in regions ==> !regions[node.id].open
    ensures var r := RegionOf(s, c, regions, node);
      && r.open && r.modified == {} && r.key == node.key && r.openedBy == s.command
      && (node.id in regions ==> r.count == regions[node.id].count + 1)
      && (forall p: NodeId :: TakesPlaceOf(regions, c, node, p) ==> r.count == regions[p].count + 1)
      && (node.id !in regions && (forall p: NodeId :: !TakesPlaceOf(regions, c, node, p)) ==> r.count == 1)
      && (r.proven <==> s.initialized && s.command.Some?
                        && forall id :: id in s.regions && s.regions[id].open && id in c.structural && s.regions[id].modified != {} ==>
                             exists i :: 0 <= i < |c.nodes| && c.nodes[i].id == id)
  {
    var p := Predecessor(regions, c, node);
    if p.Some? {
      PredecessorExactlyWhen(regions, c, node, p.value);
    }
    forall q: NodeId | TakesPlaceOf(regions, c, node, q) ensures p == Some(q) {
      PredecessorExactlyWhen(regions, c, node, q);
    }
    hide Predecessor, TakesPlaceOf;
    assert ReplacesEditedScope(s.regions, c) <==>
      exists id :: id in s.regions && s.regions[id].open && s.regions[id].modified != {} && !Rendered(c, id) && id in c.structural;
  }

  /** What visiting a node does to the regions: a tracked one is open afterwards, one whose place it takes
      is gone, and all the others are as before. */
  lemma VisitChanges(s: State, c: Capture, w: Walk, node: Node)
    ensures var t := Visit(s, c, w, node);
      && (!node.tracked ==> t == w)
      && (node.tracked ==>
            && node.id in t.regions && t.regions[node.id] == RegionOf(s, c, w.regions, node) && t.regions[node.id].open
            && (node.id in w.regions && w.regions[node.id].open ==> t.regions[node.id] == w.regions[node.id])
            && forall id: NodeId :: id != node.id ==>
                 (id in t.regions <==> id in w.regions && !TakesPlaceOf(w.regions, c, node, id))
                 && (id in t.regions ==> t.regions[id] == w.regions[id]))
  {
    var p := Predecessor(w.regions, c, node);
    if p.Some? {
      PredecessorExactlyWhen(w.regions, c, node, p.value);
    }
    forall q: NodeId | TakesPlaceOf(w.regions, c, node, q) ensures p == Some(q) {
      PredecessorExactlyWhen(w.regions, c, node, q);
    }
    hide Predecessor, TakesPlaceOf, ReplacesEditedScope;
  }

  /** After the walk each node that can be a region is open. */
  lemma {:induction false} WalkOpens(s: State, c: Capture, n: nat, k: nat)
    requires k < n <= |c.nodes| && c.nodes[k].tracked
    ensures c.nodes[k].id in WalkTo(s, c, n).regions && WalkTo(s, c, n).regions[c.nodes[k].id].open
    decreases n
  {
    hide Visit, RegionOf;
    var w := WalkTo(s, c, n - 1);
    VisitChanges(s, c, w, c.nodes[n - 1]);
    if k < n - 1 {
      WalkOpens(s, c, n - 1, k);
    }
  }

  /** What is open after a capture: each of its nodes that can be a region, and each region that was open
      before, unless the capture saw the whole document and not this region. */
  lemma OpenExactlyWhen(s: State, c: Capture, id: NodeId)
    ensures var t := Take(s, c);
      id in t.regions && t.regions[id].open
      <==> Tracked(c, id) || (id in s.regions && s.regions[id].open && (!Complete(c) || Rendered(c, id)))
  {
    LimitedExactlyWhen(s, c, |c.nodes|);
    WalkOpensOnly(s, c, |c.nodes|, id);
    if Tracked(c, id) {
      var k :| 0 <= k < |c.nodes| && c.nodes[k].id == id && c.nodes[k].tracked;
      WalkOpens(s, c, |c.nodes|, k);
    }
    if id in s.regions && s.regions[id].open {
      WalkKeepsOpen(s, c, id, |c.nodes|);
    }
    hide WalkTo;
  }

  lemma {:induction false} WalkOpensOnly(s: State, c: Capture, n: nat, id: NodeId)
    requires n <= |c.nodes|
    ensures id in WalkTo(s, c, n).regions && WalkTo(s, c, n).regions[id].open ==>
              (id in s.regions && s.regions[id].open) || exists k :: 0 <= k < n && c.nodes[k].id == id && c.nodes[k].tracked
  {
    hide Visit, RegionOf;
    if n > 0 {
      WalkOpensOnly(s, c, n - 1, id);
      VisitChanges(s, c, WalkTo(s, c, n - 1), c.nodes[n - 1]);
    }
  }

  /** Only closed regions are forgotten: those whose place is taken, and all of them where there are more
      than four thousand regions. */
  lemma ForgottenExactlyWhen(s: State, c: Capture, id: NodeId)
    requires id in WalkTo(s, c, |c.nodes|).regions
    ensures var w, t := WalkTo(s, c, |c.nodes|), Take(s, c);
      && (id !in t.regions <==> |w.regions| > 4000 && (!w.regions[id].open || (Complete(c) && !Rendered(c, id))))
      && (id in t.regions ==>
            t.regions[id] == w.regions[id].(open := w.regions[id].open && (!Complete(c) || Rendered(c, id))))
  {
    LimitedExactlyWhen(s, c, |c.nodes|);
    hide WalkTo;
    var w := WalkTo(s, c, |c.nodes|);
    assert |Closed(w.regions, c)| == |w.regions| by {
      assert Closed(w.regions, c).Keys == w.regions.Keys;
    }
  }

  lemma {:induction false} WalkForgets(s: State, c: Capture, n: nat, id: NodeId)
    requires n <= |c.nodes| && id in s.regions && id !in WalkTo(s, c, n).regions
    ensures exists k :: 0 <= k < n && c.nodes[k].tracked && TakesPlaceOf(WalkTo(s, c, k).regions, c, c.nodes[k], id)
  {
    hide Visit, TakesPlaceOf;
    if n > 0 {
      VisitChanges(s, c, WalkTo(s, c, n - 1), c.nodes[n - 1]);
      if id !in WalkTo(s, c, n - 1).regions {
        WalkForgets(s, c, n - 1, id);
      }
    }
  }

  /** The reports are those of the shown nodes, in order and as many as allowed, each with the region the
      walk gave its node. */
  lemma {:induction false} ReportsAreShown(s: State, c: Capture, n: nat, k: nat)
    requires k < n <= |c.nodes| && c.nodes[k].tracked && c.nodes[k].shown && ShownCount(c.nodes, k) < MAX_REGIONS
    ensures var w := WalkTo(s, c, n);
      && ShownCount(c.nodes, k) < |w.reports|
      && w.reports[ShownCount(c.nodes, k)]
         == Report(c.nodes[k].id, RegionOf(s, c, WalkTo(s, c, k).regions, c.nodes[k]))
    decreases n
  {
    hide RegionOf, Predecessor;
    LimitedExactlyWhen(s, c, n - 1);
    if k < n - 1 {
      ReportsAreShown(s, c, n - 1, k);
    }
  }

  /** The command recorded for a document is the last one marked since its first capture. */
  lemma {:induction false} CommandIsLast(trace: seq<Event>, n: nat, k: nat)
    requires k < n <= |trace| && trace[k].Marking? && Captured(trace, k)
    requires forall j :: k < j < n ==> !trace[j].Marking?
    ensures Before(trace, n).command == Some(trace[k].command)
    decreases n
  {
    FlagsMeaning(trace, n - 1);
    hide Take, Baseline, Complete;
    if k < n - 1 {
      CommandIsLast(trace, n - 1, k);
      assert trace[n - 1].Capturing? ==> Take(Before(trace, n - 1), trace[n - 1].capture).command == Before(trace, n - 1).command by {
        if trace[n - 1].Capturing? {
          TakeKeepsCommand(Before(trace, n - 1), trace[n - 1].capture);
        }
      }
    }
  }

  lemma TakeKeepsCommand(s: State, c: Capture)
    ensures Take(s, c).command == s.command
  {
  }

  /** What a marked action does to a region: an edit of a known target is recorded with the open regions it
      touches, an unknown target takes the proofs of the open ones, and nothing else changes. */
  lemma MarkChanges(s: State, command: Command, target: Target, r: NodeId)
    ensures var t := Mark(s, command, target);
      && t.command == Some(command) && t.initialized == s.initialized && (r in t.regions <==> r in s.regions)
      && (r in s.regions ==>
            var touched := s.regions[r].open && target.Known? && target.id.Some? && r in target.touching;
            var before, after := s.regions[r], t.regions[r];
            && after == before.(modified := after.modified, proven := after.proven)
            && (after.proven <==> before.proven && !(before.open && target.UnknownTarget?))
            && forall x :: x in after.modified <==> x in before.modified || (touched && target.id == Some(x)))
  {
  }

  // ---------------------------------------------------------------------------------------
  // The state kept in the document

  class DocumentState {
    var regions: map<NodeId, Region>
    var initialized: bool
    var commandId: Option<Command>

    function Now(): State
      reads this
    {
      State(regions, initialized, commandId)
    }

    constructor ()
      ensures Now() == NEW_STATE
    {
      regions, initialized, commandId := map[], false, None;
    }

    method Snapshot(c: Capture) returns (reports: seq<Report>)
      modifies this
      ensures Some(Now()) == Step(Some(old(Now())), Capturing(c))
      ensures reports == Reports(old(Now()), c)
    {
      hide Visit, Closed, Purged, Rendered;
      var start := Now();
      var w := Walk(regions, [], c.walkLimited);
      for i := 0 to |c.nodes|
        invariant w == WalkTo(start, c, i) && Now() == start == old(Now())
      {
        w := Visit(start, c, w, c.nodes[i]);
      }
      regions := w.regions;
      reports := w.reports;
      var complete := !c.scoped && !w.limited;
      if complete {
        regions := Closed(regions, c);
      }
      regions := Purged(regions);
      initialized := initialized || complete;
    }

    method MarkAction(command: Command, target: Target)
      modifies this
      ensures Some(Now()) == Step(Some(old(Now())), Marking(command, target))
    {
      commandId := Some(command);
      match target
      case NoTarget =>
      case UnknownTarget =>
        regions := map id | id in regions :: if regions[id].open then regions[id].(proven := false) else regions[id];
      case Known(id, touching) =>
        if id.Some? {
          regions := map r | r in regions ::
            if regions[r].open && r in touching then regions[r].(modified := regions[r].modified + {id.value}) else regions[r];
        }
    }

    method InvalidatePhases()
      modifies this
      ensures Some(Now()) == Step(Some(old(Now())), Invalidating)
    {
      initialized := false;
      regions := map id | id in regions :: regions[id].(proven := false);
    }
  }
}
