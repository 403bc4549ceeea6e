/** Trimming of an observation to its limits: the longest linked prefix of its nodes, and of its
    text only lines that still have their node. */
module ObservationBudget {
  import opened Wrappers
  import opened Numerals
  import opened Utf16

  const MAX_BYTES := 2 * 1024 * 1024
  const MAX_NODES := 8000
  const MAX_REGIONS := 500
  const MAX_TEXT := 256 * 1024
  const TARGET_BYTES := MAX_BYTES - 4096

  /** Anything that points to a node, with the bytes of its JSON. */
  datatype Link = Link(node: nat, bytes: nat)

  datatype Location = Location(start: nat, end: nat)
  const NOWHERE := Location(0, 0)

  /** A node; `ref` is empty if it has none, `bytes` is its JSON without relations and location. */
  datatype Node = Node(id: nat, ref: Text, relations: seq<Link>, location: Location, bytes: nat)

  /** An observation; `bytes` is everything in its JSON that trimming leaves as it is. */
  datatype Observation = Observation(
    nodes: seq<Node>, regions: seq<Link>, verified: Option<seq<Link>>, text: Text, bytes: nat)

  // ---------------------------------------------------------------------------------------
  // Sizes

  function LinkBytes(links: seq<Link>): nat
  {
    if links == [] then 0 else LinkBytes(links[..|links| - 1]) + links[|links| - 1].bytes
  }

  function Commas(n: nat): nat { if n == 0 then 0 else n - 1 }

  function ListBytes(links: seq<Link>): nat { 2 + LinkBytes(links) + Commas(|links|) }

  function LocationBytes(l: Location): nat { 17 + |Decimal(l.start)| + |Decimal(l.end)| }

  function NodeBytes(n: Node): nat { n.bytes + ListBytes(n.relations) + LocationBytes(n.location) }

  function NodesBytes(nodes: seq<Node>): nat
  {
    if nodes == [] then 0 else NodesBytes(nodes[..|nodes| - 1]) + NodeBytes(nodes[|nodes| - 1])
  }

  function ObservationBytes(o: Observation): nat
  {
    o.bytes + 2 + NodesBytes(o.nodes) + Commas(|o.nodes|) + ListBytes(o.regions)
    + (if o.verified.Some? then ListBytes(o.verified.value) else 0) + StringBytes(o.text)
  }

  /** What one more link adds to a list: its own bytes, and a comma after the one before. */
  lemma OneLinkMore(links: seq<Link>, l: Link)
    ensures ListBytes(links + [l]) == ListBytes(links) + l.bytes + if links == [] then 0 else 1
  {
    assert (links + [l])[..|links|] == links;
  }

  /** Verified scopes count with their list. */
  lemma VerifiedCounts(o: Observation)
    requires o.verified.Some?
    ensures ObservationBytes(o) == ObservationBytes(o.(verified := None)) + ListBytes(o.verified.value)
  {
  }

  // ---------------------------------------------------------------------------------------
  // A prefix of the nodes

  function Ids(nodes: seq<Node>): (r: set<nat>)
    ensures forall id :: id in r <==> exists i :: 0 <= i < |nodes| && nodes[i].id == id
  {
    set i | 0 <= i < |nodes| :: nodes[i].id
  }

  /** The links among the first `n` that point to one of the nodes. */
  function PointingTo(links: seq<Link>, n: nat, ids: set<nat>): (r: seq<Link>)
    requires n <= |links|
    ensures |r| <= n
  {
    if n == 0 then []
    else
      var before := PointingTo(links, n - 1, ids);
      if links[n - 1].node in ids then before + [links[n - 1]] else before
  }

  /** Exactly the links that point to one of the nodes are kept. */
  lemma {:induction false} PointingExactly(links: seq<Link>, n: nat, ids: set<nat>)
    requires n <= |links|
    ensures forall l :: l in PointingTo(links, n, ids) <==> l.node in ids && exists i :: 0 <= i < n && links[i] == l
  {
    if n > 0 {
      PointingExactly(links, n - 1, ids);
      var before := PointingTo(links, n - 1, ids);
      assert forall l :: l in before + [links[n - 1]] <==> l in before || l == links[n - 1];
    }
  }

  function Pointing(links: seq<Link>, ids: set<nat>): seq<Link> { PointingTo(links, |links|, ids) }

  function Clip<T>(s: seq<T>, max: nat): seq<T> { if |s| <= max then s else s[..max] }

  function KeptNode(n: Node, ids: set<nat>, text: Text): Node
  {
    n.(relations := Pointing(n.relations, ids), location := if n.location.end > |text| then NOWHERE else n.location)
  }

  function KeptNodes(nodes: seq<Node>, count: nat, ids: set<nat>, text: Text): (r: seq<Node>)
    requires count <= |nodes|
    ensures |r| == count && forall i :: 0 <= i < count ==> r[i] == KeptNode(nodes[i], ids, text)
  {
    if count == 0 then [] else KeptNodes(nodes, count - 1, ids, text) + [KeptNode(nodes[count - 1], ids, text)]
  }

  /** The observation cut to its first `count` nodes. */
  function Prefix(o: Observation, count: nat): Observation
    requires count <= |Clip(o.nodes, MAX_NODES)|
  {
    var nodes := Clip(o.nodes, MAX_NODES);
    var ids := Ids(nodes[..count]);
    var text := Clip(o.text, MAX_TEXT);
    Observation(KeptNodes(nodes, count, ids, text), Clip(Pointing(o.regions, ids), MAX_REGIONS),
                if o.verified.Some? then Some(Pointing(o.verified.value, ids)) else None, text, o.bytes)
  }

  predicate Fits(o: Observation, count: nat)
    requires count <= |Clip(o.nodes, MAX_NODES)|
  {
    ObservationBytes(Prefix(o, count)) <= TARGET_BYTES
  }

  /** For every number of nodes, whether that prefix fits. */
  function Verdicts(o: Observation): (r: seq<bool>)
    ensures |r| == |Clip(o.nodes, MAX_NODES)| + 1 && forall k :: 0 <= k < |r| ==> r[k] == Fits(o, k)
  {
    seq(|Clip(o.nodes, MAX_NODES)| + 1, k requires 0 <= k <= |Clip(o.nodes, MAX_NODES)| => Fits(o, k))
  }

  /** Binary search for the largest fitting position, or the lowest. */
  function Search(fits: seq<bool>, low: nat, high: nat): (r: nat)
    requires low <= high < |fits|
    ensures low <= r <= high
    ensures r == low || fits[r]
    ensures r < high ==> !fits[r + 1]
    decreases high - low
  {
    if low == high then low
    else
      var mid := (low + high + 1) / 2;
      if fits[mid] then Search(fits, mid, high) else Search(fits, low, mid - 1)
  }

  function KeptCount(o: Observation): (r: nat)
    ensures r <= |Clip(o.nodes, MAX_NODES)|
  {
    Search(Verdicts(o), 0, |Clip(o.nodes, MAX_NODES)|)
  }

  // ---------------------------------------------------------------------------------------
  // More nodes need more bytes

  lemma {:induction false} LongerLinks(links: seq<Link>, n: nat, a: set<nat>, b: set<nat>)
    requires n <= |links| && a <= b
    ensures |PointingTo(links, n, a)| <= |PointingTo(links, n, b)|
    ensures LinkBytes(PointingTo(links, n, a)) <= LinkBytes(PointingTo(links, n, b))
  {
    if n > 0 {
      LongerLinks(links, n - 1, a, b);
    }
  }

  /** The bytes of the first `n` kept nodes. */
  function KeptBytes(nodes: seq<Node>, n: nat, ids: set<nat>, text: Text): nat
    requires n <= |nodes|
  {
    if n == 0 then 0 else KeptBytes(nodes, n - 1, ids, text) + NodeBytes(KeptNode(nodes[n - 1], ids, text))
  }

  lemma {:induction false} KeptBytesAreNodesBytes(nodes: seq<Node>, n: nat, ids: set<nat>, text: Text)
    requires n <= |nodes|
    ensures NodesBytes(KeptNodes(nodes, n, ids, text)) == KeptBytes(nodes, n, ids, text)
  {
    hide NodeBytes, KeptNode;
    if n > 0 {
      KeptBytesAreNodesBytes(nodes, n - 1, ids, text);
      NodesBytesSnoc(KeptNodes(nodes, n - 1, ids, text), KeptNode(nodes[n - 1], ids, text));
    }
  }

  lemma {:induction false} LongerNodes(nodes: seq<Node>, m: nat, n: nat, a: set<nat>, b: set<nat>, text: Text)
    requires m <= n <= |nodes| && a <= b
    ensures KeptBytes(nodes, m, a, text) <= KeptBytes(nodes, n, b, text)
    decreases n
  {
    hide NodeBytes, KeptNode;
    if m < n {
      LongerNodes(nodes, m, n - 1, a, b, text);
    } else if n > 0 {
      LongerNodes(nodes, m - 1, n - 1, a, b, text);
      LongerNode(nodes[n - 1], a, b, text);
    }
  }

  lemma LongerNode(n: Node, a: set<nat>, b: set<nat>, text: Text)
    requires a <= b
    ensures NodeBytes(KeptNode(n, a, text)) <= NodeBytes(KeptNode(n, b, text))
  {
    LongerLinks(n.relations, |n.relations|, a, b);
  }

  lemma NodesBytesSnoc(nodes: seq<Node>, last: Node)
    ensures NodesBytes(nodes + [last]) == NodesBytes(nodes) + NodeBytes(last)
  {
  }

  // ---------------------------------------------------------------------------------------
  // Regions come in the order of their nodes

  predicate IsAt(nodes: seq<Node>, p: nat, id: nat) { p < |nodes| && nodes[p].id == id }

  ghost predicate Names(nodes: seq<Node>, id: nat) { exists p: nat :: IsAt(nodes, p, id) }

  /** Regions are pushed while the nodes are walked, at most one per node, and frames are appended
      with their nodes and their regions: each region names a node, and no region names a node
      before the node of an earlier region. */
  ghost predicate InNodeOrder(nodes: seq<Node>, regions: seq<Link>)
  {
    && (forall i :: 0 <= i < |regions| ==> Names(nodes, regions[i].node))
    && (forall i, j, p: nat, q: nat ::
          0 <= i < j < |regions| && IsAt(nodes, p, regions[i].node) && IsAt(nodes, q, regions[j].node) ==> p < q)
  }

  /** Appending a frame whose elements are not in the earlier frames keeps the order. */
  lemma FramesKeepOrder(nodes: seq<Node>, regions: seq<Link>, frameNodes: seq<Node>, frameRegions: seq<Link>)
    requires InNodeOrder(nodes, regions) && InNodeOrder(frameNodes, frameRegions) && Ids(nodes) !! Ids(frameNodes)
    ensures InNodeOrder(nodes + frameNodes, regions + frameRegions)
  {
    var allNodes, all := nodes + frameNodes, regions + frameRegions;
    forall i | 0 <= i < |all| ensures Names(allNodes, all[i].node) {
      if i < |regions| {
        var p: nat :| IsAt(nodes, p, regions[i].node);
        assert allNodes[p] == nodes[p] && IsAt(allNodes, p, all[i].node);
      } else {
        var p: nat :| IsAt(frameNodes, p, frameRegions[i - |regions|].node);
        assert allNodes[|nodes| + p] == frameNodes[p] && IsAt(allNodes, |nodes| + p, all[i].node);
      }
    }
    forall i, j, p: nat, q: nat | 0 <= i < j < |all| && IsAt(allNodes, p, all[i].node) && IsAt(allNodes, q, all[j].node)
      ensures p < q
    {
      NamedWithin(nodes, regions, frameNodes, frameRegions, i, p);
      NamedWithin(nodes, regions, frameNodes, frameRegions, j, q);
      if j < |regions| {
        assert IsAt(nodes, p, regions[i].node) && IsAt(nodes, q, regions[j].node);
      } else if i >= |regions| {
        assert IsAt(frameNodes, p - |nodes|, frameRegions[i - |regions|].node);
        assert IsAt(frameNodes, q - |nodes|, frameRegions[j - |regions|].node);
      }
    }
  }

  lemma NamedWithin(nodes: seq<Node>, regions: seq<Link>, frameNodes: seq<Node>, frameRegions: seq<Link>, i: nat, p: nat)
    requires InNodeOrder(nodes, regions) && InNodeOrder(frameNodes, frameRegions) && Ids(nodes) !! Ids(frameNodes)
    requires i < |regions| + |frameRegions| && IsAt(nodes + frameNodes, p, (regions + frameRegions)[i].node)
    ensures i < |regions| <==> p < |nodes|
  {
    var id := (nodes + frameNodes)[p].id;
    assert if p < |nodes| then nodes[p].id == id && id in Ids(nodes) else frameNodes[p - |nodes|].id == id && id in Ids(frameNodes);
    if i < |regions| {
      var q: nat :| IsAt(nodes, q, regions[i].node);
      assert nodes[q].id == id && id in Ids(nodes);
    } else {
      var q: nat :| IsAt(frameNodes, q, frameRegions[i - |regions|].node);
      assert frameNodes[q].id == id && id in Ids(frameNodes);
    }
  }

  /** A region is kept only together with all before it. */
  lemma EarlierKept(nodes: seq<Node>, regions: seq<Link>, count: nat, i: nat, j: nat)
    requires InNodeOrder(nodes, regions) && count <= |nodes| && i < j < |regions|
    requires regions[j].node in Ids(nodes[..count])
    ensures regions[i].node in Ids(nodes[..count])
  {
    var q: nat :| q < count && nodes[..count][q].id == regions[j].node;
    var p: nat :| IsAt(nodes, p, regions[i].node);
    assert IsAt(nodes, q, regions[j].node);
    assert nodes[..count][p].id == regions[i].node;
  }

  lemma {:induction false} PointingIsPrefix(links: seq<Link>, n: nat, ids: set<nat>)
    requires n <= |links| && forall i, j :: 0 <= i < j < |links| && links[j].node in ids ==> links[i].node in ids
    ensures PointingTo(links, n, ids) <= links[..n]
    ensures n > 0 && links[n - 1].node in ids ==> PointingTo(links, n, ids) == links[..n]
  {
    if n > 0 {
      PointingIsPrefix(links, n - 1, ids);
      assert links[..n] == links[..n - 1] + [links[n - 1]];
      assert n > 1 && links[n - 1].node in ids ==> links[n - 2].node in ids;
    }
  }

  /** The first nodes are named by the first regions. */
  lemma KeptRegionsAreFirst(nodes: seq<Node>, regions: seq<Link>, count: nat)
    requires InNodeOrder(nodes, regions) && count <= |nodes|
    ensures Pointing(regions, Ids(nodes[..count])) <= regions
  {
    var ids := Ids(nodes[..count]);
    forall i, j | 0 <= i < j < |regions| && regions[j].node in ids ensures regions[i].node in ids {
      EarlierKept(nodes, regions, count, i, j);
    }
    hide InNodeOrder, Ids;
    PointingIsPrefix(regions, |regions|, ids);
  }

  lemma {:induction false} PrefixBytes(a: seq<Link>, b: seq<Link>)
    requires a <= b
    ensures LinkBytes(a) <= LinkBytes(b)
    decreases |b|
  {
    if |a| < |b| {
      PrefixBytes(a, b[..|b| - 1]);
    } else {
      assert a == b;
    }
  }

  lemma RegionsMonotone(nodes: seq<Node>, regions: seq<Link>, m: nat, n: nat)
    requires InNodeOrder(nodes, regions) && m <= n <= |nodes|
    ensures ListBytes(Clip(Pointing(regions, Ids(nodes[..m])), MAX_REGIONS))
         <= ListBytes(Clip(Pointing(regions, Ids(nodes[..n])), MAX_REGIONS))
  {
    hide LinkBytes, InNodeOrder;
    var a, b := Pointing(regions, Ids(nodes[..m])), Pointing(regions, Ids(nodes[..n]));
    KeptRegionsAreFirst(nodes, regions, m);
    KeptRegionsAreFirst(nodes, regions, n);
    assert Ids(nodes[..m]) <= Ids(nodes[..n]) by { MorePrefixIds(nodes, m, n); }
    LongerLinks(regions, |regions|, Ids(nodes[..m]), Ids(nodes[..n]));
    assert a <= b;
    PrefixBytes(Clip(a, MAX_REGIONS), Clip(b, MAX_REGIONS));
  }

  lemma MorePrefixIds(nodes: seq<Node>, m: nat, n: nat)
    requires m <= n <= |nodes|
    ensures Ids(nodes[..m]) <= Ids(nodes[..n])
  {
    forall id | id in Ids(nodes[..m]) ensures id in Ids(nodes[..n]) {
      var i :| 0 <= i < m && nodes[..m][i].id == id;
      assert nodes[..n][i].id == id;
    }
  }

  /** A longer prefix of the nodes needs at least as many bytes, however many regions there are:
      those of the shorter one come first. */
  lemma PrefixMonotone(o: Observation, m: nat, n: nat)
    requires m <= n <= |Clip(o.nodes, MAX_NODES)| && InNodeOrder(o.nodes, o.regions)
    ensures ObservationBytes(Prefix(o, m)) <= ObservationBytes(Prefix(o, n))
  {
    var nodes := Clip(o.nodes, MAX_NODES);
    var a, b := Ids(nodes[..m]), Ids(nodes[..n]);
    MorePrefixIds(nodes, m, n);
    assert nodes[..m] == o.nodes[..m] && nodes[..n] == o.nodes[..n];
    LongerNodes(nodes, m, n, a, b, Clip(o.text, MAX_TEXT));
    KeptBytesAreNodesBytes(nodes, m, a, Clip(o.text, MAX_TEXT));
    KeptBytesAreNodesBytes(nodes, n, b, Clip(o.text, MAX_TEXT));
    RegionsMonotone(o.nodes, o.regions, m, n);
    if o.verified.Some? {
      LongerLinks(o.verified.value, |o.verified.value|, a, b);
    }
    hide InNodeOrder, NodesBytes, LinkBytes, KeptBytes, PointingTo, Ids;
  }

  /** The kept nodes are the longest prefix within the byte target, or none. */
  lemma KeepsLongestPrefix(o: Observation, n: nat)
    requires 0 < n <= |Clip(o.nodes, MAX_NODES)| && InNodeOrder(o.nodes, o.regions)
    ensures ObservationBytes(Prefix(o, n)) <= 2 * 1024 * 1024 - 4096 <==> n <= KeptCount(o)
  {
    hide ObservationBytes, Prefix, InNodeOrder, Search, Verdicts;
    var kept := KeptCount(o);
    if n <= kept {
      PrefixMonotone(o, n, kept);
    } else {
      PrefixMonotone(o, kept + 1, n);
    }
  }

  // ---------------------------------------------------------------------------------------
  // The text

  const OPENING: Text := [91, 114, 101, 102, 61]
  const CLOSING: Unit := 93

  /** The reference a line names: the first `[ref=...]` that is not empty. */
  function RefIn(line: Text, from: nat): (r: Option<Text>)
    requires from <= |line|
    ensures r.Some? ==> r.value != []
    decreases |line| - from
  {
    if |line| - from < |OPENING| + 2 then None
    else
      var start := from + |OPENING|;
      if line[from..start] == OPENING && line[start] != CLOSING && IndexOf(line, CLOSING, start) < |line|
      then Some(line[start..IndexOf(line, CLOSING, start)])
      else RefIn(line, from + 1)
  }

  function RefOf(line: Text): Option<Text> { RefIn(line, 0) }

  /** At this position the line has an opening, a name that is not empty, and its closing. */
  predicate NamesAt(line: Text, i: nat, name: Text)
  {
    && name != [] && CLOSING !in name && i + |OPENING| + |name| < |line|
    && line[i..i + |OPENING|] == OPENING && line[i + |OPENING|..i + |OPENING| + |name|] == name
    && line[i + |OPENING| + |name|] == CLOSING
  }

  /** A line names exactly the reference at its first such position, if it has one. */
  lemma {:induction false} RefExactlyWhen(line: Text, from: nat, name: Text)
    requires from <= |line|
    ensures RefIn(line, from) == Some(name)
       <==> exists i: nat :: from <= i && NamesAt(line, i, name)
                             && forall j: nat, other :: from <= j < i ==> !NamesAt(line, j, other)
    decreases |line| - from
  {
    NamedHere(line, from, name);
    if from < |line| {
      RefExactlyWhen(line, from + 1, name);
      if RefIn(line, from) == Some(name) && !NamesAt(line, from, name) {
        var i: nat :| from + 1 <= i && NamesAt(line, i, name) && forall j: nat, other :: from + 1 <= j < i ==> !NamesAt(line, j, other);
        forall j: nat, other | from <= j < i ensures !NamesAt(line, j, other) {
          if j == from {
            NamedHere(line, from, other);
          }
        }
      }
      if i: nat :| from <= i && NamesAt(line, i, name) && forall j: nat, other :: from <= j < i ==> !NamesAt(line, j, other) {
        if i > from {
          NothingHere(line, from);
          assert NamesAt(line, i, name) && forall j: nat, other :: from + 1 <= j < i ==> !NamesAt(line, j, other);
        }
      }
    }
  }

  /** The name at a position is what the search takes there. */
  lemma NamedHere(line: Text, from: nat, name: Text)
    requires from <= |line|
    ensures NamesAt(line, from, name) ==> RefIn(line, from) == Some(name)
    ensures RefIn(line, from) == Some(name) ==>
              NamesAt(line, from, name) || (from < |line| && RefIn(line, from + 1) == Some(name) && forall other :: !NamesAt(line, from, other))
  {
    hide IndexOf;
    var start := from + |OPENING|;
    if NamesAt(line, from, name) {
      EndsAt(line, start, name);
    }
    forall other | NamesAt(line, from, other) ensures RefIn(line, from) == Some(other) {
      EndsAt(line, start, other);
    }
  }

  lemma EndsAt(line: Text, start: nat, name: Text)
    requires start + |name| < |line| && line[start..start + |name|] == name && CLOSING !in name && line[start + |name|] == CLOSING
    ensures IndexOf(line, CLOSING, start) == start + |name|
    ensures name != [] ==> line[start] != CLOSING
  {
    forall k | start <= k < start + |name| ensures line[k] != CLOSING {
      assert line[k] == name[k - start];
    }
  }

  lemma NothingHere(line: Text, from: nat)
    requires from < |line| && forall other :: !NamesAt(line, from, other)
    ensures RefIn(line, from) == RefIn(line, from + 1)
  {
    hide IndexOf;
    var start := from + |OPENING|;
    if |line| - from >= |OPENING| + 2 && line[from..start] == OPENING && line[start] != CLOSING && IndexOf(line, CLOSING, start) < |line| {
      var name := line[start..IndexOf(line, CLOSING, start)];
      assert NamesAt(line, from, name);
    }
  }

  /** `text.split("\n")` */
  function Split(text: Text): (r: seq<Text>)
    ensures |r| > 0
  {
    var end := IndexOf(text, NEWLINE, 0);
    if end == |text| then [text] else [text[..end]] + Split(text[end + 1..])
  }

  /** `lines.join("\n")` */
  function Join(lines: seq<Text>): Text
  {
    if lines == [] then []
    else if |lines| == 1 then lines[0]
    else Join(lines[..|lines| - 1]) + [NEWLINE] + lines[|lines| - 1]
  }

  function Refs(nodes: seq<Node>): set<Text> { set i | 0 <= i < |nodes| && nodes[i].ref != [] :: nodes[i].ref }

  predicate Stays(line: Text, refs: set<Text>) { RefOf(line).None? || RefOf(line).value in refs }

  function KeptLines(lines: seq<Text>, refs: set<Text>): (r: seq<Text>)
    ensures |r| <= |lines| && forall l :: l in r <==> l in lines && Stays(l, refs)
  {
    if lines == [] then []
    else
      var before := KeptLines(lines[..|lines| - 1], refs);
      if Stays(lines[|lines| - 1], refs) then before + [lines[|lines| - 1]] else before
  }

  /** Where the j-th line starts in the joined text. */
  function Offset(lines: seq<Text>, j: nat): nat
    requires j <= |lines|
  {
    if j == 0 then 0 else Offset(lines, j - 1) + |lines[j - 1]| + 1
  }

  /** The last line that names this reference, or the number of lines. */
  function LineOfRef(lines: seq<Text>, ref: Text, n: nat): (j: nat)
    requires n <= |lines|
    ensures j < n || j == |lines|
  {
    if n == 0 then |lines|
    else if RefOf(lines[n - 1]) == Some(ref) then n - 1
    else LineOfRef(lines, ref, n - 1)
  }

  lemma {:induction false} LineOfRefMeaning(lines: seq<Text>, ref: Text, n: nat)
    requires n <= |lines|
    ensures var j := LineOfRef(lines, ref, n);
      && (j < |lines| ==> RefOf(lines[j]) == Some(ref))
      && forall k :: (if j < |lines| then j + 1 else 0) <= k < n ==> RefOf(lines[k]) != Some(ref)
  {
    if n > 0 && RefOf(lines[n - 1]) != Some(ref) {
      LineOfRefMeaning(lines, ref, n - 1);
    }
  }

  /** The last node with its reference carries the location. */
  predicate Carries(nodes: seq<Node>, i: nat)
    requires i < |nodes|
  {
    nodes[i].ref != [] && forall k :: i < k < |nodes| ==> nodes[k].ref != nodes[i].ref
  }

  function LocationOf(nodes: seq<Node>, lines: seq<Text>, i: nat): Location
    requires i < |nodes|
  {
    if Carries(nodes, i) then LocationAt(lines, LineOfRef(lines, nodes[i].ref, |lines|)) else NOWHERE
  }

  function LocationAt(lines: seq<Text>, j: nat): Location
  {
    if j < |lines| then Location(Offset(lines, j), Offset(lines, j) + |lines[j]|) else NOWHERE
  }

  function Located(nodes: seq<Node>, lines: seq<Text>): (r: seq<Node>)
    ensures |r| == |nodes| && forall i :: 0 <= i < |r| ==> r[i] == nodes[i].(location := LocationOf(nodes, lines, i))
  {
    seq(|nodes|, i requires 0 <= i < |nodes| => nodes[i].(location := LocationOf(nodes, lines, i)))
  }

  function Trimmed(o: Observation): Observation
  {
    var p := Prefix(o, KeptCount(o));
    var lines := KeptLines(Split(p.text), Refs(p.nodes));
    p.(nodes := Located(p.nodes, lines), text := Join(lines))
  }

  lemma {:induction false} JoinLength(lines: seq<Text>)
    requires lines != []
    ensures |Join(lines)| + 1 == Offset(lines, |lines|)
  {
    if |lines| > 1 {
      var front := lines[..|lines| - 1];
      JoinLength(front);
      OffsetOfPrefix(lines, |lines| - 1, |lines| - 1);
    }
  }

  lemma {:induction false} OffsetOfPrefix(lines: seq<Text>, n: nat, j: nat)
    requires j <= n <= |lines|
    ensures Offset(lines[..n], j) == Offset(lines, j)
  {
    if j > 0 {
      OffsetOfPrefix(lines, n, j - 1);
    }
  }

  /** The j-th line stands in the joined text exactly at its offset. */
  lemma {:induction false} LineAtOffset(lines: seq<Text>, j: nat)
    requires j < |lines|
    ensures Offset(lines, j) + |lines[j]| <= |Join(lines)|
    ensures Join(lines)[Offset(lines, j)..Offset(lines, j) + |lines[j]|] == lines[j]
  {
    JoinLength(lines);
    if |lines| > 1 {
      var front := lines[..|lines| - 1];
      JoinLength(front);
      OffsetOfPrefix(lines, |lines| - 1, |lines| - 1);
      OffsetOfPrefix(lines, |lines| - 1, j);
      if j < |lines| - 1 {
        LineAtOffset(front, j);
        assert front[j] == lines[j];
      }
    }
  }

  lemma {:induction false} SplitLines(text: Text)
    ensures forall l :: l in Split(text) ==> NEWLINE !in l
    decreases |text|
  {
    var end := IndexOf(text, NEWLINE, 0);
    if end < |text| {
      SplitLines(text[end + 1..]);
    }
  }

  lemma JoinCons(first: Text, rest: seq<Text>)
    requires rest != []
    ensures Join([first] + rest) == first + [NEWLINE] + Join(rest)
    decreases |rest|
  {
    var all := [first] + rest;
    assert all[..|all| - 1] == [first] + rest[..|rest| - 1];
    if |rest| > 1 {
      JoinCons(first, rest[..|rest| - 1]);
    } else {
      assert all[..1] == [first];
    }
  }

  /** Joining what splitting gave is the text again. */
  lemma {:induction false} JoinOfSplit(text: Text)
    ensures Join(Split(text)) == text
    decreases |text|
  {
    var end := IndexOf(text, NEWLINE, 0);
    if end < |text| {
      JoinOfSplit(text[end + 1..]);
      JoinCons(text[..end], Split(text[end + 1..]));
      assert text == text[..end] + [NEWLINE] + text[end + 1..];
    }
  }

  lemma SplitFirstLine(first: Text, tail: Text)
    requires NEWLINE !in first
    ensures Split(first) == [first] && Split(first + [NEWLINE] + tail) == [first] + Split(tail)
  {
    assert forall k :: 0 <= k < |first| ==> first[k] in first;
    var text := first + [NEWLINE] + tail;
    assert text[|first|] == NEWLINE && forall k :: 0 <= k < |first| ==> text[k] == first[k];
    assert IndexOf(text, NEWLINE, 0) == |first|;
    assert text[..|first|] == first && text[|first| + 1..] == tail;
  }

  /** Splitting what was joined gives the lines again. */
  lemma {:induction false} SplitOfJoin(lines: seq<Text>)
    requires lines != [] && forall l :: l in lines ==> NEWLINE !in l
    ensures Split(Join(lines)) == lines
    decreases |lines|
  {
    hide Split, IndexOf;
    var first, rest := lines[0], lines[1..];
    assert lines == [first] + rest && first in lines;
    SplitFirstLine(first, Join(rest));
    if rest != [] {
      JoinCons(first, rest);
      SplitOfJoin(rest);
    }
  }

  /** A location that is not empty shows exactly one line, and that line names the node. */
  ghost predicate ShowsItsLine(n: Node, lines: seq<Text>, text: Text)
  {
    n.location != NOWHERE ==>
      exists j :: 0 <= j < |lines| && RefOf(lines[j]) == Some(n.ref)
        && n.location == Location(Offset(lines, j), Offset(lines, j) + |lines[j]|)
        && n.location.end <= |text| && text[n.location.start..n.location.end] == lines[j]
  }

  /** The links kept are exactly those that point to a kept node. */
  ghost predicate Closed(kept: seq<Link>, links: seq<Link>, ids: set<nat>)
  {
    forall l :: l in kept <==> l in links && l.node in ids
  }

  lemma PointingIsClosed(links: seq<Link>, ids: set<nat>)
    ensures Closed(Pointing(links, ids), links, ids)
  {
    PointingExactly(links, |links|, ids);
  }

  /** A trimmed observation is linked: its nodes are a prefix, and relations, regions and verified
      scopes point into it. */
  lemma TrimmedIsLinked(o: Observation)
    ensures var t := Trimmed(o);
      && |t.nodes| == KeptCount(o) && |t.regions| <= MAX_REGIONS
      && Ids(t.nodes) == Ids(o.nodes[..KeptCount(o)])
      && (forall i :: 0 <= i < |t.nodes| ==>
            t.nodes[i].id == o.nodes[i].id && t.nodes[i].ref == o.nodes[i].ref
            && Closed(t.nodes[i].relations, o.nodes[i].relations, Ids(t.nodes)))
      && (forall l :: l in t.regions ==> l in o.regions && l.node in Ids(t.nodes))
      && (t.verified.Some? <==> o.verified.Some?)
      && (o.verified.Some? ==> Closed(t.verified.value, o.verified.value, Ids(t.nodes)))
  {
    hide Pointing, KeptCount, Closed, Join, KeptLines, Refs, Split, RefIn, LocationOf;
    var t := Trimmed(o);
    var n := KeptCount(o);
    var ids := Ids(o.nodes[..n]);
    assert Clip(o.nodes, MAX_NODES)[..n] == o.nodes[..n];
    forall i | 0 <= i < n ensures Closed(t.nodes[i].relations, o.nodes[i].relations, ids) {
      PointingIsClosed(o.nodes[i].relations, ids);
    }
    if o.verified.Some? {
      PointingIsClosed(o.verified.value, ids);
    }
    PointingIsClosed(o.regions, ids);
  }

  lemma TrimmedRegionsAreFirst(o: Observation)
    requires InNodeOrder(o.nodes, o.regions)
    ensures Trimmed(o).regions <= o.regions
  {
    hide InNodeOrder, Pointing, Join, KeptLines, Refs, Split, LocationOf, Located, KeptNodes, KeptNode, Ids, KeptCount;
    var n := KeptCount(o);
    KeptRegionsAreFirst(o.nodes, o.regions, n);
    assert Clip(o.nodes, MAX_NODES)[..n] == o.nodes[..n];
  }

  lemma PrefixKeepsOrder(nodes: seq<Node>, regions: seq<Link>, firstNodes: seq<Node>, firstRegions: seq<Link>)
    requires InNodeOrder(nodes, regions) && firstRegions <= regions
    requires |firstNodes| <= |nodes| && forall i :: 0 <= i < |firstNodes| ==> firstNodes[i].id == nodes[i].id
    requires forall l :: l in firstRegions ==> l.node in Ids(firstNodes)
    ensures InNodeOrder(firstNodes, firstRegions)
  {
    forall i | 0 <= i < |firstRegions| ensures Names(firstNodes, firstRegions[i].node) {
      assert firstRegions[i] in firstRegions;
      var p: nat :| p < |firstNodes| && firstNodes[p].id == firstRegions[i].node;
      assert IsAt(firstNodes, p, firstRegions[i].node);
    }
    forall i, j, p: nat, q: nat
      | 0 <= i < j < |firstRegions| && IsAt(firstNodes, p, firstRegions[i].node) && IsAt(firstNodes, q, firstRegions[j].node)
      ensures p < q
    {
      assert IsAt(nodes, p, regions[i].node) && IsAt(nodes, q, regions[j].node);
    }
  }

  /** A trimmed observation can be trimmed again: its regions still come in the order of its nodes. */
  lemma TrimmedKeepsOrder(o: Observation)
    requires InNodeOrder(o.nodes, o.regions)
    ensures InNodeOrder(Trimmed(o).nodes, Trimmed(o).regions)
  {
    TrimmedIsLinked(o);
    TrimmedRegionsAreFirst(o);
    hide Trimmed, Closed, InNodeOrder, Ids;
    PrefixKeepsOrder(o.nodes, o.regions, Trimmed(o).nodes, Trimmed(o).regions);
  }

  /** The trimmed text is the kept lines: those of the clipped text that name no node, or a kept
      one; and each location shows a line of its node. */
  lemma TrimmedTextIsLocated(o: Observation)
    ensures var t := Trimmed(o);
      var lines := KeptLines(Split(Clip(o.text, MAX_TEXT)), Refs(t.nodes));
      && t.text == Join(lines) && (lines != [] ==> Split(t.text) == lines)
      && (forall l :: l in lines <==> l in Split(Clip(o.text, MAX_TEXT)) && Stays(l, Refs(t.nodes)))
      && forall i :: 0 <= i < |t.nodes| ==> ShowsItsLine(t.nodes[i], lines, t.text)
  {
    hide KeptCount, Pointing, Join, RefIn, Split, KeptNode;
    var p := Prefix(o, KeptCount(o));
    var t := Trimmed(o);
    SameRefs(t.nodes, p.nodes);
    var lines := KeptLines(Split(p.text), Refs(p.nodes));
    SplitLines(p.text);
    if lines != [] {
      SplitOfJoin(lines);
    }
    forall i | 0 <= i < |t.nodes| ensures ShowsItsLine(t.nodes[i], lines, t.text) {
      var j := LineOfRef(lines, p.nodes[i].ref, |lines|);
      LineOfRefMeaning(lines, p.nodes[i].ref, |lines|);
      if j < |lines| {
        LineAtOffset(lines, j);
      }
    }
  }

  /** Which lines stay: exactly those that name no node, or one that is kept. */
  lemma LinesKeptExactly(lines: seq<Text>, nodes: seq<Node>, l: Text)
    ensures l in KeptLines(lines, Refs(nodes))
       <==> l in lines && forall name :: RefOf(l) == Some(name) ==> exists i :: 0 <= i < |nodes| && nodes[i].ref == name
  {
    hide RefIn;
  }

  /** What trimming keeps of a node: all of it, with the relations to kept nodes, and its location if that
      lies within the kept text. */
  lemma NodeKeptExactly(n: Node, ids: set<nat>, text: Text, link: Link)
    ensures var r := KeptNode(n, ids, text);
      && (r.id, r.ref, r.bytes) == (n.id, n.ref, n.bytes)
      && (link in r.relations <==> link in n.relations && link.node in ids)
      && r.location == if n.location.end <= |text| then n.location else Location(0, 0)
  {
    PointingExactly(n.relations, |n.relations|, ids);
  }

  lemma SameRefs(a: seq<Node>, b: seq<Node>)
    requires |a| == |b| && forall i :: 0 <= i < |a| ==> a[i].ref == b[i].ref
    ensures Refs(a) == Refs(b)
  {
  }

  /** Every kept line that names a node is shown by a node, unless a later line names it too. */
  lemma EveryRefLineHasItsNode(o: Observation, j: nat)
    requires var lines := KeptLines(Split(Clip(o.text, MAX_TEXT)), Refs(Trimmed(o).nodes));
      j < |lines| && RefOf(lines[j]).Some? && forall k :: j < k < |lines| ==> RefOf(lines[k]) != RefOf(lines[j])
    ensures var lines := KeptLines(Split(Clip(o.text, MAX_TEXT)), Refs(Trimmed(o).nodes));
      exists i :: 0 <= i < |Trimmed(o).nodes| && Some(Trimmed(o).nodes[i].ref) == RefOf(lines[j])
        && Trimmed(o).nodes[i].location == Location(Offset(lines, j), Offset(lines, j) + |lines[j]|)
  {
    hide KeptCount, Pointing, Join, RefIn, Split, KeptNode;
    var p := Prefix(o, KeptCount(o));
    var t := Trimmed(o);
    SameRefs(t.nodes, p.nodes);
    var lines := KeptLines(Split(p.text), Refs(p.nodes));
    assert lines[j] in lines;
    var ref := RefOf(lines[j]).value;
    LastWithRef(p.nodes, ref, |p.nodes|);
    var i :| 0 <= i < |p.nodes| && p.nodes[i].ref == ref && Carries(p.nodes, i);
    LineOfRefMeaning(lines, ref, |lines|);
    assert LineOfRef(lines, ref, |lines|) == j;
  }

  lemma {:induction false} LastWithRef(nodes: seq<Node>, ref: Text, n: nat)
    requires n <= |nodes| && ref != [] && exists i :: 0 <= i < n && nodes[i].ref == ref
    requires forall k :: n <= k < |nodes| ==> nodes[k].ref != ref
    ensures exists i :: 0 <= i < |nodes| && nodes[i].ref == ref && Carries(nodes, i)
  {
    if nodes[n - 1].ref != ref {
      LastWithRef(nodes, ref, n - 1);
    } else {
      assert Carries(nodes, n - 1);
    }
  }

  // ---------------------------------------------------------------------------------------
  // The trimming itself

  lemma {:induction false} LineOfRefSnoc(lines: seq<Text>, line: Text, ref: Text, n: nat)
    requires n <= |lines|
    ensures var before := LineOfRef(lines, ref, n);
      LineOfRef(lines + [line], ref, n) == if before < |lines| then before else |lines| + 1
  {
    if n > 0 {
      LineOfRefSnoc(lines, line, ref, n - 1);
    }
  }

  lemma LastLineSnoc(lines: seq<Text>, line: Text, ref: Text)
    ensures var before := LineOfRef(lines, ref, |lines|);
      LineOfRef(lines + [line], ref, |lines| + 1)
      == if RefOf(line) == Some(ref) then |lines| else if before < |lines| then before else |lines| + 1
  {
    hide RefOf;
    LineOfRefSnoc(lines, line, ref, |lines|);
  }

  lemma OffsetBefore(lines: seq<Text>, line: Text, j: nat)
    requires j <= |lines|
    ensures Offset(lines + [line], j) == Offset(lines, j)
  {
  }

  /** What one more line changes: the location of the node that carries its reference. */
  lemma LocationSnoc(nodes: seq<Node>, lines: seq<Text>, line: Text, i: nat)
    requires i < |nodes|
    ensures LocationOf(nodes, lines + [line], i)
         == if Carries(nodes, i) && RefOf(line) == Some(nodes[i].ref)
            then Location(Offset(lines, |lines|), Offset(lines, |lines|) + |line|)
            else LocationOf(nodes, lines, i)
  {
    hide RefOf, Carries, LineOfRef, LocationAt, Offset;
    LastLineSnoc(lines, line, nodes[i].ref);
    var j := LineOfRef(lines, nodes[i].ref, |lines|);
    if j < |lines| {
      LocationAtSnoc(lines, line, j);
    }
    LocationAtLast(lines, line);
  }

  lemma LocationAtSnoc(lines: seq<Text>, line: Text, j: nat)
    requires j != |lines|
    ensures LocationAt(lines + [line], j) == LocationAt(lines, j)
  {
    hide Offset;
    if j < |lines| {
      OffsetBefore(lines, line, j);
    }
  }

  lemma LocationAtLast(lines: seq<Text>, line: Text)
    ensures LocationAt(lines + [line], |lines|) == Location(Offset(lines, |lines|), Offset(lines, |lines|) + |line|)
    ensures LocationAt(lines, |lines|) == NOWHERE == LocationAt(lines + [line], |lines| + 1)
  {
    hide Offset;
    OffsetBefore(lines, line, |lines|);
  }

  /** The node that carries each reference. */
  ghost predicate Indexes(byRef: map<Text, nat>, nodes: seq<Node>)
  {
    && byRef.Keys == Refs(nodes)
    && (forall ref :: ref in byRef ==> byRef[ref] < |nodes| && nodes[byRef[ref]].ref == ref && Carries(nodes, byRef[ref]))
  }

  method IndexRefs(nodes: seq<Node>) returns (byRef: map<Text, nat>)
    ensures Indexes(byRef, nodes)
  {
    byRef := map[];
    for i := 0 to |nodes|
      invariant forall ref :: ref in byRef <==> ref != [] && exists k :: 0 <= k < i && nodes[k].ref == ref
      invariant forall ref :: ref in byRef ==> byRef[ref] < i && nodes[byRef[ref]].ref == ref
      invariant forall ref :: ref in byRef ==> forall k :: byRef[ref] < k < i ==> nodes[k].ref != ref
    {
      if nodes[i].ref != [] {
        byRef := byRef[nodes[i].ref := i];
      }
    }
    assert byRef.Keys == Refs(nodes);
  }

  method LocateLines(nodes: seq<Node>, all: seq<Text>) returns (located: seq<Node>, lines: seq<Text>)
    ensures lines == KeptLines(all, Refs(nodes)) && located == Located(nodes, lines)
  {
    var byRef := IndexRefs(nodes);
    var locations := seq(|nodes|, _ => NOWHERE);
    lines := [];
    var offset := 0;
    for k := 0 to |all|
      invariant lines == KeptLines(all[..k], Refs(nodes)) && offset == Offset(lines, |lines|)
      invariant |locations| == |nodes| && forall i :: 0 <= i < |nodes| ==> locations[i] == LocationOf(nodes, lines, i)
    {
      assert all[..k + 1][..k] == all[..k];
      var ref := RefOf(all[k]);
      if ref.None? || ref.value in byRef {
        locations := LocateLine(nodes, byRef, lines, all[k], offset, locations);
        OffsetSnoc(lines, all[k]);
        lines := lines + [all[k]];
        offset := offset + |all[k]| + 1;
      }
    }
    assert all[..|all|] == all;
    located := seq(|nodes|, i requires 0 <= i < |nodes| => nodes[i].(location := locations[i]));
  }

  lemma OffsetSnoc(lines: seq<Text>, line: Text)
    ensures Offset(lines + [line], |lines| + 1) == Offset(lines, |lines|) + |line| + 1
  {
    OffsetBefore(lines, line, |lines|);
  }

  method LocateLine(nodes: seq<Node>, byRef: map<Text, nat>, lines: seq<Text>, line: Text, offset: nat,
                    before: seq<Location>)
    returns (after: seq<Location>)
    requires Indexes(byRef, nodes) && |before| == |nodes| && offset == Offset(lines, |lines|)
    requires forall i :: 0 <= i < |nodes| ==> before[i] == LocationOf(nodes, lines, i)
    requires Stays(line, Refs(nodes))
    ensures |after| == |nodes| && forall i :: 0 <= i < |nodes| ==> after[i] == LocationOf(nodes, lines + [line], i)
  {
    after := before;
    var ref := RefOf(line);
    if ref.Some? {
      after := after[byRef[ref.value] := Location(offset, offset + |line|)];
    }
    hide LocationOf, Offset, RefIn;
    forall i | 0 <= i < |nodes| ensures after[i] == LocationOf(nodes, lines + [line], i) {
      LocationSnoc(nodes, lines, line, i);
    }
  }

  /** Which limits were exceeded when an observation was trimmed. */
  datatype LimitEvent = LimitEvent(bytes: bool, nodes: bool, regions: bool, text: bool)

  class StructuredObservation {
    var nodes: seq<Node>
    var regions: seq<Link>
    var verifiedScopeNodeIds: Option<seq<Link>>
    var renderedText: Text
    var completeWithinScope: bool
    var truncated: bool
    var limitEvents: seq<LimitEvent>
    const bytes: nat

    function Value(): Observation
      reads this
    {
      Observation(nodes, regions, verifiedScopeNodeIds, renderedText, bytes)
    }

    constructor (nodes: seq<Node>, regions: seq<Link>, verified: Option<seq<Link>>, text: Text, bytes: nat)
      ensures Value() == Observation(nodes, regions, verified, text, bytes)
      ensures completeWithinScope && !truncated && limitEvents == []
    {
      this.nodes, this.regions, verifiedScopeNodeIds, renderedText, this.bytes := nodes, regions, verified, text, bytes;
      completeWithinScope, truncated, limitEvents := true, false, [];
    }

    method Apply(o: Observation, count: nat)
      requires count <= |Clip(o.nodes, MAX_NODES)| && o.bytes == bytes
      modifies this`nodes, this`regions, this`verifiedScopeNodeIds, this`renderedText
      ensures Value() == Prefix(o, count)
    {
      var text := Clip(o.text, MAX_TEXT);
      var candidates := Clip(o.nodes, MAX_NODES);
      var ids := Ids(candidates[..count]);
      nodes := KeptNodes(candidates, count, ids, text);
      if o.verified.Some? {
        verifiedScopeNodeIds := Some(Pointing(o.verified.value, ids));
      } else {
        verifiedScopeNodeIds := None;
      }
      regions := Clip(Pointing(o.regions, ids), MAX_REGIONS);
      renderedText := text;
    }

    method ApplyAndMeasure(o: Observation, count: nat) returns (fits: bool)
      requires count <= |Clip(o.nodes, MAX_NODES)| && o.bytes == bytes
      modifies this`nodes, this`regions, this`verifiedScopeNodeIds, this`renderedText
      ensures Value() == Prefix(o, count) && fits == Fits(o, count)
    {
      hide Prefix, ObservationBytes;
      Apply(o, count);
      fits := ObservationBytes(Value()) <= TARGET_BYTES;
    }

    method ApplyLongest(o: Observation)
      requires o.bytes == bytes
      modifies this`nodes, this`regions, this`verifiedScopeNodeIds, this`renderedText
      ensures Value() == Prefix(o, KeptCount(o))
    {
      hide Prefix, Fits, Verdicts;
      ghost var verdicts := Verdicts(o);
      var low, high := 0, |Clip(o.nodes, MAX_NODES)|;
      while low < high
        invariant 0 <= low <= high <= |Clip(o.nodes, MAX_NODES)|
        invariant Search(verdicts, low, high) == KeptCount(o)
      {
        var mid := (low + high + 1) / 2;
        var fits := ApplyAndMeasure(o, mid);
        if fits {
          low := mid;
        } else {
          high := mid - 1;
        }
      }
      Apply(o, low);
    }

    /** A trimmed observation no longer counts as complete, and it says which limits it met. */
    method TrimObservation(event: LimitEvent)
      modifies this
      ensures Value() == Trimmed(old(Value()))
      ensures !completeWithinScope && truncated && limitEvents == Clip(old(limitEvents), 1) + [event]
    {
      hide Prefix, KeptLines, Split, Join, Located;
      completeWithinScope := false;
      truncated := true;
      limitEvents := Clip(limitEvents, 1) + [event];
      ApplyLongest(Value());
      var located, lines := LocateLines(nodes, Split(renderedText));
      nodes := located;
      renderedText := Join(lines);
    }
  }
}
