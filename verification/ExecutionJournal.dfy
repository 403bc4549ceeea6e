/** The operations of the execution journal over its ledger, and what they guarantee over any
    run: no write is forgotten, and no cleanup is closed without a current proof. */
module ExecutionJournal {
  import opened Wrappers
  import opened ExecutionLedger

  const MAX_PENDING := 50

  // ---------------------------------------------------------------------------------------
  // Proofs made in the UI

  /** A UI confirmation that an invalidation removes: all of them, or those of one record. */
  predicate Invalidated(c: Confirmation, ref: Option<Ref>) { c.source == UI && (ref.None? || c.ref == ref.value) }

  function Surviving(cs: seq<Confirmation>, ref: Option<Ref>): (r: seq<Confirmation>)
    ensures forall c :: c in r <==> c in cs && !Invalidated(c, ref)
  {
    if cs == [] then []
    else
      var before := Surviving(cs[..|cs| - 1], ref);
      if Invalidated(cs[|cs| - 1], ref) then before else before + [cs[|cs| - 1]]
  }

  predicate LosesProof(cs: seq<Confirmation>, ref: Option<Ref>, r: Record)
  {
    exists c :: c in cs && Invalidated(c, ref) && c.ref == r.ref
  }

  function Reopened(r: Record): Record
    requires r.cleanup.Some?
  {
    r.(cleanup := Some(r.cleanup.value.(status := PENDING, resolution := None)))
  }

  function ReopenUnproven(records: seq<Record>, cs: seq<Confirmation>, ref: Option<Ref>): (t: seq<Record>)
    ensures |t| == |records|
    ensures forall i :: 0 <= i < |t| ==>
      t[i] == if records[i].Is(COMPLETED) && LosesProof(cs, ref, records[i]) then Reopened(records[i]) else records[i]
  {
    seq(|records|, i requires 0 <= i < |records| =>
      if records[i].Is(COMPLETED) && LosesProof(cs, ref, records[i]) then Reopened(records[i]) else records[i])
  }

  function InvalidateUi(s: State, ref: Option<Ref>): (t: State)
    ensures t == s.(records := t.records, confirmations := t.confirmations) && |t.records| == |s.records|
  {
    s.(records := ReopenUnproven(s.records, s.confirmations, ref), confirmations := Surviving(s.confirmations, ref))
  }

  /** What a UI observation concludes: a record's row contradicts its baseline, or a fresh read
      shows the record as it was before it was changed. */
  datatype UiFinding = Contradicts(ref: Ref) | Restores(index: nat, captureKey: Key, evidence: set<EvidenceRef>)

  /** The last write in the list that counts, if any. */
  function LastListed(rules: Rules, writes: seq<Write>, r: Record, n: nat): Option<Write>
    requires n <= |writes|
  {
    if n == 0 then None else if Counts(rules, writes[n - 1], r) then Some(writes[n - 1])
    else LastListed(rules, writes, r, n - 1)
  }

  function ApplyFinding(rules: Rules, s: State, f: UiFinding): (t: State)
    ensures t == s.(records := t.records, confirmations := t.confirmations) && |t.records| == |s.records|
  {
    match f
    case Contradicts(ref) => InvalidateUi(s, Some(ref))
    case Restores(i, captureKey, evidence) =>
      if i >= |s.records| || s.records[i].cleanup.None? || s.records[i].ownership != EXISTING then s
      else
        var r := s.records[i];
        var w := LastListed(rules, s.writes, r, |s.writes|);
        if w.Some? && w.value.sub.how != PUT && w.value.sub.how != PATCH then s
        else
          var c := Confirmation(UI, r.ref, if w.Some? then w.value.sub.key else captureKey, captureKey, evidence);
          s.(records := s.records[i := r.(cleanup := Some(r.cleanup.value.(status := COMPLETED, resolution := Some(RESTORED))),
                                          evidence := r.evidence + evidence)],
             confirmations := Others(s.confirmations, r.ref) + [c])
  }

  function Others(cs: seq<Confirmation>, ref: Ref): (r: seq<Confirmation>)
    ensures forall c :: c in r <==> c in cs && c.ref != ref
  {
    if cs == [] then []
    else
      var before := Others(cs[..|cs| - 1], ref);
      if cs[|cs| - 1].ref == ref then before else before + [cs[|cs| - 1]]
  }

  function ApplyFindings(rules: Rules, s: State, findings: seq<UiFinding>, n: nat): (t: State)
    requires n <= |findings|
    ensures t == s.(records := t.records, confirmations := t.confirmations) && |t.records| == |s.records|
  {
    if n == 0 then s else ApplyFinding(rules, ApplyFindings(rules, s, findings, n - 1), findings[n - 1])
  }

  // ---------------------------------------------------------------------------------------
  // Observing requests

  datatype Receipt = Receipt(
    how: Method, url: Url, time: Option<real>, status: Option<nat>, confirmed: bool, request: Option<Body>,
    response: Option<Body>, evidence: set<EvidenceRef>)

  datatype ReadData = ReadData(
    time: Option<real>, scope: Url, recordKeys: set<RecordKey>, states: map<RecordKey, Value>,
    evidence: set<EvidenceRef>)

  /** One observed request: a business write with evidence, a complete successful read, sightings
      of records whose creation awaits its receipt, or none of these. */
  datatype Request = Request(key: Key, write: Option<Receipt>, read: Option<ReadData>, sightings: seq<Pending>)

  function IndexOf(order: seq<Key>, key: Key): (i: int)
    ensures -1 <= i < |order| && (i >= 0 ==> order[i] == key) && (i == -1 <==> key !in order)
  {
    if order == [] then -1
    else if order[0] == key then 0
    else
      var i := IndexOf(order[1..], key);
      if i == -1 then -1 else i + 1
  }

  function Ordered(s: State, key: Key): State
  {
    if key in s.order then s
    else if |s.order| < MAX_ORDER then s.(order := s.order + [key])
    else s.(orderTruncated := true)
  }

  function PositionOf(writes: seq<Write>, key: Key): (i: nat)
    ensures i <= |writes| && (i < |writes| ==> writes[i].sub.key == key)
    ensures forall k :: 0 <= k < i ==> writes[k].sub.key != key
  {
    if writes == [] || writes[0].sub.key == key then 0 else 1 + PositionOf(writes[1..], key)
  }

  function WriteOf(key: Key, sequence: int, r: Receipt): Write
  {
    Write(Submission(key, r.how, r.url, r.request, r.response), sequence, r.time, r.status, r.confirmed, r.evidence)
  }

  /** A receipt seen again: an incomplete one adds evidence to a confirmed one, any other replaces
      what it knows. */
  function Merged(previous: Write, next: Write): Write
  {
    if previous.confirmed && !next.confirmed then previous.(evidence := previous.evidence + next.evidence)
    else
      next.(time := if next.time.Some? then next.time else previous.time,
            sub := next.sub.(request := if next.sub.request.Some? then next.sub.request else previous.sub.request,
                             response := if next.sub.response.Some? then next.sub.response else previous.sub.response))
  }

  predicate SaysOtherwise(a: Write, b: Write)
  {
    a.sub.request != b.sub.request || a.sub.response != b.sub.response || a.status != b.status || a.confirmed != b.confirmed
  }

  /** The latest receipts; dropping an older one is remembered. */
  function Capped(s: State): State
  {
    if |s.writes| > MAX_RECEIPTS
    then s.(writes := s.writes[|s.writes| - MAX_RECEIPTS..], writesTruncated := true) else s
  }

  function StoreWrite(s: State, w: Write): (r: State)
    ensures |r.records| == |s.records|
  {
    var i := PositionOf(s.writes, w.sub.key);
    if i == |s.writes| then Capped(InvalidateUi(s.(writes := s.writes + [w]), None))
    else
      var merged := Merged(s.writes[i], w);
      var t := s.(writes := s.writes[i := merged]);
      Capped(if SaysOtherwise(s.writes[i], merged) then InvalidateUi(t, None) else t)
  }

  function FindRead(receipts: seq<Read>, key: Key): Option<Read>
  {
    if receipts == [] then None
    else if receipts[0].key == key then Some(receipts[0])
    else FindRead(receipts[1..], key)
  }

  function WithoutRead(receipts: seq<Read>, key: Key): (r: seq<Read>)
    ensures forall x :: x in r <==> x in receipts && x.key != key
  {
    if receipts == [] then []
    else if receipts[0].key == key then WithoutRead(receipts[1..], key)
    else [receipts[0]] + WithoutRead(receipts[1..], key)
  }

  predicate ContradictedBy(r: Record, read: Read)
  {
    r.initial.Some? && r.key in read.states && read.states[r.key] != r.initial.value
  }

  /** UI proofs of records that a new read shows in another state are invalid. */
  function Contradict(s: State, read: Read, n: nat): (t: State)
    requires n <= |s.records|
    ensures t == s.(records := t.records, confirmations := t.confirmations) && |t.records| == |s.records|
  {
    if n == 0 then s
    else
      var t := Contradict(s, read, n - 1);
      if ContradictedBy(s.records[n - 1], read) then InvalidateUi(t, Some(s.records[n - 1].ref)) else t
  }

  function LatestReads(receipts: seq<Read>): (r: seq<Read>)
    ensures forall x :: x in r ==> x in receipts
  {
    if |receipts| > MAX_RECEIPTS then receipts[|receipts| - MAX_RECEIPTS..] else receipts
  }

  function StoreRead(s: State, read: Read): (r: State)
    ensures |r.records| == |s.records|
  {
    var previous := FindRead(s.receipts, read.key);
    var t := if previous.None? || previous.value.states != read.states then Contradict(s, read, |s.records|) else s;
    t.(receipts := LatestReads(WithoutRead(s.receipts, read.key) + [read]))
  }

  function Sighted(pending: seq<Pending>, sightings: seq<Pending>, n: nat): seq<Pending>
    requires n <= |sightings|
  {
    if n == 0 then pending
    else
      var before := Sighted(pending, sightings, n - 1);
      if sightings[n - 1] in before || |before| >= MAX_PENDING then before else before + [sightings[n - 1]]
  }

  function ObserveRequest(s: State, q: Request): (r: State)
    ensures |r.records| == |s.records|
  {
    var a := Ordered(s, q.key);
    var sequence := IndexOf(a.order, q.key);
    var u := if q.write.Some? then StoreWrite(a, WriteOf(q.key, sequence, q.write.value)) else a;
    var v := if q.read.Some? && sequence >= 0
             then StoreRead(u, Read(q.key, sequence, q.read.value.time, q.read.value.scope, q.read.value.recordKeys,
                                    q.read.value.states, q.read.value.evidence))
             else u;
    v.(pending := Sighted(v.pending, q.sightings, |q.sightings|))
  }

  function ObserveRequests(s: State, requests: seq<Request>, n: nat): State
    requires n <= |requests|
  {
    if n == 0 then s else ObserveRequest(ObserveRequests(s, requests, n - 1), requests[n - 1])
  }

  // ---------------------------------------------------------------------------------------
  // Registering records

  const TO_CLEAN_UP := Some(Cleanup(PENDING, None, None))

  function Creation(rules: Rules, writes: seq<Write>, p: Pending, n: nat): Option<Write>
    requires n <= |writes|
  {
    if n == 0 then None else if rules.creates(writes[n - 1].sub, p) then Some(writes[n - 1])
    else Creation(rules, writes, p, n - 1)
  }

  /** Pending records become records once their creation is confirmed, and are given up once it is
      known to have failed. `recordOf` gives the identity of the created record. */
  function SettlePending(rules: Rules, recordOf: Pending -> Record, s: State, todo: seq<Pending>, kept: seq<Pending>): (t: State)
    ensures t == s.(records := t.records, pending := t.pending) && s.records <= t.records
    decreases |todo|
  {
    if todo == [] then s.(pending := kept)
    else
      var p := todo[0];
      var w := Creation(rules, s.writes, p, |s.writes|);
      if w.None? || !w.value.confirmed then SettlePending(rules, recordOf, s, todo[1..], kept + [p])
      else if !Successful(rules, w.value) then SettlePending(rules, recordOf, s, todo[1..], kept)
      else if |s.records| >= MAX_RECORDS then SettlePending(rules, recordOf, s, todo[1..], kept + [p])
      else
        var r := recordOf(p).(ownership := CREATED_THIS_RUN, cleanup := TO_CLEAN_UP,
                              evidence := w.value.evidence + recordOf(p).evidence);
        SettlePending(rules, recordOf, s.(records := s.records + [r]), todo[1..], kept)
  }

  predicate HasRef(records: seq<Record>, ref: Ref) { exists i :: 0 <= i < |records| && records[i].ref == ref }

  /** Records bound to a creation by name, or with an observed baseline that a write has changed,
      unless their reference is known. */
  function Register(records: seq<Record>, found: seq<Record>, n: nat): (t: seq<Record>)
    requires n <= |found|
    ensures records <= t
  {
    if n == 0 then records
    else
      var before := Register(records, found, n - 1);
      if |before| >= MAX_RECORDS || HasRef(before, found[n - 1].ref) then before
      else before + [found[n - 1].(cleanup := TO_CLEAN_UP)]
  }

  /** Observed renames of named resources. */
  function Renamed(records: seq<Record>, names: map<Ref, Name>): (t: seq<Record>)
    ensures |t| == |records|
    ensures forall i :: 0 <= i < |t| ==>
      t[i] == if records[i].ref in names then records[i].(name := Some(names[records[i].ref])) else records[i]
  {
    seq(|records|, i requires 0 <= i < |records| =>
      if records[i].ref in names then records[i].(name := Some(names[records[i].ref])) else records[i])
  }

  datatype Observation = Observation(
    acts: bool, requests: seq<Request>, recordOf: Pending -> Record, names: map<Ref, Name>, found: seq<Record>,
    findings: seq<UiFinding>)

  /** The ledger as an observation leaves it before reconciling. */
  function Gathered(rules: Rules, s: State, o: Observation): State
  {
    var a := if o.acts then InvalidateUi(s, None) else s;
    var b := ObserveRequests(a, o.requests, |o.requests|);
    var c := SettlePending(rules, o.recordOf, b, b.pending, []);
    c.(records := Register(Renamed(c.records, o.names), o.found, |o.found|))
  }

  function Observe(rules: Rules, s: State, o: Observation): State
  {
    var t := ReconcileAll(rules, Gathered(rules, s, o));
    ApplyFindings(rules, t, o.findings, |o.findings|)
  }

  // ---------------------------------------------------------------------------------------
  // Updates by the model

  /** A change to a record: what it may alter are the status of its cleanup, its evidence, its
      ownership and its initial state. Its identity and its reference stay. */
  datatype Change =
    | Amend(index: nat, status: Option<Status>, noted: bool, cited: Option<set<EvidenceRef>>,
            ownership: Option<Ownership>, initial: Option<Value>)
    | Add(record: Record)

  /** Of records that share a reference none can be addressed. */
  predicate Addressed(records: seq<Record>, i: nat)
  {
    i < |records| && forall k :: 0 <= k < |records| && k != i ==> records[k].ref != records[i].ref
  }

  function Amended(r: Record, c: Change): Record
    requires c.Amend?
  {
    r.(cleanup := if c.status.Some? then Some(Cleanup(c.status.value, None, None)) else r.cleanup,
       evidence := if c.cited.Some? then c.cited.value else r.evidence,
       ownership := if c.ownership.Some? then c.ownership.value else r.ownership,
       initial := if c.initial.Some? then c.initial else r.initial)
  }

  /** One change merged into the records, or none if it is refused. */
  function Merge(rules: Rules, s: State, records: seq<Record>, c: Change): Option<seq<Record>>
  {
    match c
    case Add(r) =>
      if |records| >= MAX_RECORDS || HasRef(records, r.ref) || r.Is(RETAINED) then None
      else Some(records + [r])
    case Amend(i, status, noted, _, _, _) =>
      if !Addressed(records, i) then None
      else
        var r := records[i];
        var amended := Amended(r, c);
        if amended.Is(BLOCKED) && status.Some? && !noted then None
        else if !amended.Is(RETAINED) then Some(records[i := amended])
        else
          var proof := RetentionProof(rules, s, r);
          if r.ownership != CREATED_THIS_RUN || (status.Some? && !noted) || proof.None? then None
          else Some(records[i := amended.(cleanup := Some(Cleanup(RETAINED, None, Some(proof.value.write.sub.key))),
                                          evidence := amended.evidence + proof.value.read.evidence)])
  }

  function MergeAll(rules: Rules, s: State, changes: seq<Change>, n: nat): Option<seq<Record>>
    requires n <= |changes|
  {
    if n == 0 then Some(s.records)
    else
      var before := MergeAll(rules, s, changes, n - 1);
      if before.None? then None else Merge(rules, s, before.value, changes[n - 1])
  }

  /** What the ledger held of a record before: the first under its key. */
  function PriorOf(records: seq<Record>, key: RecordKey): (r: Option<Record>)
    ensures r.Some? ==> r.value in records && r.value.key == key
  {
    if records == [] then None else if records[0].key == key then Some(records[0]) else PriorOf(records[1..], key)
  }

  /** Ownership and a known initial state stay, and ownership by this run is never claimed. A
      record newly called completed must cite evidence of a stored confirmation. */
  predicate Admissible(s: State, r: Record)
  {
    var prior := PriorOf(s.records, r.key);
    && (prior.Some? ==> prior.value.ownership == r.ownership)
    && (prior.Some? && prior.value.initial.Some? ==> r.initial == prior.value.initial)
    && (r.ownership == CREATED_THIS_RUN ==> exists p :: p in s.records && p.key == r.key && p.ownership == CREATED_THIS_RUN)
    && (r.Is(COMPLETED) && !(prior.Some? && prior.value.Is(COMPLETED)) ==>
          exists c :: c in s.confirmations && c.ref == r.ref && c.evidence * r.evidence != {})
  }

  datatype Revision = Revision(created: seq<Record>, changes: seq<Change>, findings: seq<UiFinding>)

  /** Creations completed by a UI row are registered even if the update is then refused. */
  function WithCreated(s: State, created: seq<Record>): (t: State)
    ensures t == s.(records := t.records) && s.records <= t.records
  {
    s.(records := s.records + seq(|created|, i requires 0 <= i < |created| =>
         created[i].(ownership := CREATED_THIS_RUN, cleanup := TO_CLEAN_UP)))
  }

  function Accepted(rules: Rules, s: State, changes: seq<Change>): Option<seq<Record>>
  {
    var merged := MergeAll(rules, s, changes, |changes|);
    if merged.Some? && forall i :: 0 <= i < |merged.value| ==> Admissible(s, merged.value[i]) then merged else None
  }

  function Update(rules: Rules, s: State, r: Revision): (State, bool)
  {
    var t := WithCreated(s, r.created);
    var records := Accepted(rules, t, r.changes);
    if records.None? then (t, false)
    else
      var u := ApplyFindings(rules, t.(records := records.value), r.findings, |r.findings|);
      (ReconcileAll(rules, u), true)
  }

  /** All pending cleanups are given up at once. */
  function Block(s: State): (t: State)
    ensures t == s.(records := t.records) && |t.records| == |s.records|
  {
    s.(records := seq(|s.records|, i requires 0 <= i < |s.records| =>
         if s.records[i].Is(PENDING)
         then s.records[i].(cleanup := Some(s.records[i].cleanup.value.(status := BLOCKED))) else s.records[i]))
  }

  // ---------------------------------------------------------------------------------------
  // Runs

  datatype Event = Observing(observation: Observation) | Updating(revision: Revision) | Blocking

  function Step(rules: Rules, s: State, e: Event): State
  {
    match e
    case Observing(o) => Observe(rules, s, o)
    case Updating(r) => Update(rules, s, r).0
    case Blocking => Block(s)
  }

  /** The ledger after the first `n` events of a fresh run. */
  function After(rules: Rules, events: seq<Event>, n: nat): State
    requires n <= |events|
  {
    if n == 0 then FRESH else Step(rules, After(rules, events, n - 1), events[n - 1])
  }

  // ---------------------------------------------------------------------------------------
  // Every operation leaves the records settled

  lemma InvalidationKeepsSettled(rules: Rules, s: State, ref: Option<Ref>)
    requires Settled(rules, s)
    ensures Settled(rules, InvalidateUi(s, ref)) && SameRefs(s.records, InvalidateUi(s, ref).records)
  {
  }

  lemma RestorationKeepsSettled(rules: Rules, s: State, f: UiFinding)
    requires f.Restores? && Settled(rules, s)
    ensures Settled(rules, ApplyFinding(rules, s, f)) && SameRefs(s.records, ApplyFinding(rules, s, f).records)
  {
  }

  lemma {:induction false} FindingsKeepSettled(rules: Rules, s: State, findings: seq<UiFinding>, n: nat)
    requires n <= |findings| && Settled(rules, s)
    ensures var t := ApplyFindings(rules, s, findings, n); Settled(rules, t) && SameRefs(s.records, t.records)
  {
    hide Settled, ApplyFinding, InvalidateUi;
    if n > 0 {
      FindingsKeepSettled(rules, s, findings, n - 1);
      var t := ApplyFindings(rules, s, findings, n - 1);
      match findings[n - 1]
      case Contradicts(ref) =>
        InvalidationKeepsSettled(rules, t, Some(ref));
        assert ApplyFinding(rules, t, findings[n - 1]) == InvalidateUi(t, Some(ref)) by { FindingIsInvalidation(rules, t, ref); }
      case Restores(_, _, _) => RestorationKeepsSettled(rules, t, findings[n - 1]);
    }
  }

  lemma FindingIsInvalidation(rules: Rules, s: State, ref: Ref)
    ensures ApplyFinding(rules, s, Contradicts(ref)) == InvalidateUi(s, Some(ref))
  {
  }

  /** Whatever the ledger was and however references are shared, the last record of each reference is
      proven after an observation; with distinct references every record is settled. */
  lemma ObserveSettles(rules: Rules, s: State, o: Observation)
    ensures LastProven(rules, Observe(rules, s, o))
    ensures DistinctRefs(Gathered(rules, s, o).records) ==> Settled(rules, Observe(rules, s, o))
  {
    hide Settled, LastProven, ApplyFindings, Reconcile;
    var g := Gathered(rules, s, o);
    ReconcileAllProves(rules, g);
    FindingsKeepProven(rules, ReconcileAll(rules, g), o.findings, |o.findings|);
    if DistinctRefs(g.records) {
      ReconcileAllSettles(rules, g);
      FindingsKeepSettled(rules, ReconcileAll(rules, g), o.findings, |o.findings|);
    }
  }

  /** The same after an accepted update, whatever statuses it proposed. */
  lemma UpdateSettles(rules: Rules, s: State, r: Revision)
    requires Update(rules, s, r).1
    ensures LastProven(rules, Update(rules, s, r).0)
    ensures DistinctRefs(Update(rules, s, r).0.records) ==> Settled(rules, Update(rules, s, r).0)
  {
    var t := WithCreated(s, r.created);
    var u := ApplyFindings(rules, t.(records := Accepted(rules, t, r.changes).value), r.findings, |r.findings|);
    hide Settled, LastProven, ApplyFindings, Reconcile, Accepted, WithCreated;
    ReconcileAllProves(rules, u);
    if DistinctRefs(Update(rules, s, r).0.records) {
      ReconcileKeepsRefs(rules, u, |u.records|);
      ReconcileAllSettles(rules, u);
    }
  }

  lemma {:induction false} ReconcileKeepsRefs(rules: Rules, s: State, n: nat)
    requires n <= |s.records|
    ensures SameRefs(s.records, Reconcile(rules, s, n).records)
  {
    hide ReconciledConfirmations, NetworkProof, LatestWrite;
    if n > 0 {
      ReconcileKeepsRefs(rules, s, n - 1);
    }
  }

  lemma BlockSettles(rules: Rules, s: State)
    requires Settled(rules, s)
    ensures Settled(rules, Block(s)) && SameRefs(s.records, Block(s).records)
  {
  }

  // ---------------------------------------------------------------------------------------
  // Records are only added, and every confirmation has its record

  predicate SameObject(a: Record, b: Record) { b.ref == a.ref && b.key == a.key && b.identity == a.identity }

  /** The records of `a` are the first of `b`, the same objects with the same ownership and initial state. */
  predicate Extends(a: seq<Record>, b: seq<Record>)
  {
    |a| <= |b|
    && forall i :: 0 <= i < |a| ==> SameObject(a[i], b[i]) && b[i].ownership == a[i].ownership && b[i].initial == a[i].initial
  }

  predicate RefsKnown(s: State) { forall c :: c in s.confirmations ==> HasRef(s.records, c.ref) }

  predicate Grown(s: State, t: State) { Extends(s.records, t.records) && (RefsKnown(s) ==> RefsKnown(t)) }

  lemma GrownTransitive(s: State, t: State, u: State)
    requires Grown(s, t) && Grown(t, u)
    ensures Grown(s, u)
  {
  }

  /** Confirmations only go, records keep their references. */
  lemma FewerGrown(s: State, t: State)
    requires Extends(s.records, t.records) && forall c :: c in t.confirmations ==> c in s.confirmations || HasRef(t.records, c.ref)
    ensures Grown(s, t)
  {
  }

  lemma InvalidateGrown(s: State, ref: Option<Ref>)
    ensures Grown(s, InvalidateUi(s, ref)) && SameRefs(s.records, InvalidateUi(s, ref).records)
  {
  }

  lemma {:induction false} ReconcileGrown(rules: Rules, s: State, n: nat)
    requires n <= |s.records|
    ensures Grown(s, Reconcile(rules, s, n))
  {
    if n == 0 {
      FewerGrown(s, s);
    } else {
      hide Grown, ReconcileRecord;
      var t := Reconcile(rules, s, n - 1);
      ReconcileGrown(rules, s, n - 1);
      ReconcileRecordGrown(rules, t, n - 1);
      GrownTransitive(s, t, Reconcile(rules, s, n));
    }
  }

  lemma ReconcileRecordGrown(rules: Rules, s: State, i: nat)
    requires i < |s.records|
    ensures Grown(s, ReconcileRecord(rules, s, i))
  {
    hide NetworkProof, RetentionProof, LatestWrite;
  }

  lemma FindingGrown(rules: Rules, s: State, f: UiFinding)
    ensures Grown(s, ApplyFinding(rules, s, f))
  {
  }

  lemma {:induction false} FindingsGrown(rules: Rules, s: State, findings: seq<UiFinding>, n: nat)
    requires n <= |findings|
    ensures Grown(s, ApplyFindings(rules, s, findings, n))
  {
    hide ApplyFinding;
    if n == 0 {
      FewerGrown(s, s);
    } else {
      hide Grown;
      var t := ApplyFindings(rules, s, findings, n - 1);
      FindingsGrown(rules, s, findings, n - 1);
      FindingGrown(rules, t, findings[n - 1]);
      GrownTransitive(s, t, ApplyFindings(rules, s, findings, n));
    }
  }

  lemma SameRecordsGrown(s: State, t: State)
    requires t.records == s.records && t.confirmations == s.confirmations
    ensures Grown(s, t) && Grown(t, s)
  {
  }

  lemma StoreWriteGrown(s: State, w: Write)
    ensures Grown(s, StoreWrite(s, w))
  {
    hide Grown, InvalidateUi;
    var i := PositionOf(s.writes, w.sub.key);
    var t := if i == |s.writes| then s.(writes := s.writes + [w])
             else s.(writes := s.writes[i := Merged(s.writes[i], w)]);
    var u := if i == |s.writes| || SaysOtherwise(s.writes[i], Merged(s.writes[i], w)) then InvalidateUi(t, None) else t;
    SameRecordsGrown(s, t);
    SameRecordsGrown(t, t);
    InvalidateGrown(t, None);
    GrownTransitive(s, t, u);
    SameRecordsGrown(u, Capped(u));
    GrownTransitive(s, u, Capped(u));
    assert StoreWrite(s, w) == Capped(u);
  }

  lemma {:induction false} ContradictGrown(s: State, read: Read, n: nat)
    requires n <= |s.records|
    ensures Grown(s, Contradict(s, read, n))
  {
    hide Grown, InvalidateUi;
    if n == 0 {
      SameRecordsGrown(s, s);
    } else {
      var t := Contradict(s, read, n - 1);
      ContradictGrown(s, read, n - 1);
      InvalidateGrown(t, Some(s.records[n - 1].ref));
      GrownTransitive(s, t, InvalidateUi(t, Some(s.records[n - 1].ref)));
    }
  }

  lemma StoreReadGrown(s: State, read: Read)
    ensures Grown(s, StoreRead(s, read))
  {
    hide Grown, Contradict, WithoutRead, LatestReads, FindRead;
    var previous := FindRead(s.receipts, read.key);
    var t := if previous.None? || previous.value.states != read.states then Contradict(s, read, |s.records|) else s;
    ContradictGrown(s, read, |s.records|);
    SameRecordsGrown(s, s);
    SameRecordsGrown(t, StoreRead(s, read));
    GrownTransitive(s, t, StoreRead(s, read));
  }

  lemma ObserveRequestGrown(s: State, q: Request)
    ensures Grown(s, ObserveRequest(s, q))
  {
    hide Grown, StoreWrite, StoreRead, IndexOf, Sighted;
    var t := Ordered(s, q.key);
    var sequence := IndexOf(t.order, q.key);
    SameRecordsGrown(s, t);
    var u := if q.write.Some? then StoreWrite(t, WriteOf(q.key, sequence, q.write.value)) else t;
    SameRecordsGrown(t, t);
    if q.write.Some? {
      StoreWriteGrown(t, WriteOf(q.key, sequence, q.write.value));
    }
    GrownTransitive(s, t, u);
    SameRecordsGrown(u, u);
    var v := u;
    if q.read.Some? && sequence >= 0 {
      var read := Read(q.key, sequence, q.read.value.time, q.read.value.scope, q.read.value.recordKeys,
                       q.read.value.states, q.read.value.evidence);
      StoreReadGrown(u, read);
      v := StoreRead(u, read);
    }
    GrownTransitive(s, u, v);
    SameRecordsGrown(v, ObserveRequest(s, q));
    GrownTransitive(s, v, ObserveRequest(s, q));
  }

  lemma {:induction false} ObserveRequestsGrown(s: State, requests: seq<Request>, n: nat)
    requires n <= |requests|
    ensures Grown(s, ObserveRequests(s, requests, n))
  {
    hide Grown, ObserveRequest;
    if n == 0 {
      SameRecordsGrown(s, s);
    } else {
      var t := ObserveRequests(s, requests, n - 1);
      ObserveRequestsGrown(s, requests, n - 1);
      ObserveRequestGrown(t, requests[n - 1]);
      GrownTransitive(s, t, ObserveRequests(s, requests, n));
    }
  }

  lemma RegisteringGrown(s: State, names: map<Ref, Name>, found: seq<Record>)
    ensures Grown(s, s.(records := Register(Renamed(s.records, names), found, |found|)))
  {
    var t := s.(records := Register(Renamed(s.records, names), found, |found|));
    assert Renamed(s.records, names) <= t.records;
    hide Register;
    FewerGrown(s, t);
  }

  lemma GatheredGrown(rules: Rules, s: State, o: Observation)
    ensures Grown(s, Gathered(rules, s, o))
  {
    var a := if o.acts then InvalidateUi(s, None) else s;
    var b := ObserveRequests(a, o.requests, |o.requests|);
    var c := SettlePending(rules, o.recordOf, b, b.pending, []);
    var d := c.(records := Register(Renamed(c.records, o.names), o.found, |o.found|));
    InvalidateGrown(s, None);
    SameRecordsGrown(s, s);
    ObserveRequestsGrown(a, o.requests, |o.requests|);
    RegisteringGrown(c, o.names, o.found);
    hide ObserveRequests, InvalidateUi, Register, Renamed;
    FewerGrown(b, c);
    hide Grown, SettlePending;
    GrownTransitive(s, a, b);
    GrownTransitive(s, b, c);
    GrownTransitive(s, c, d);
  }

  // ---------------------------------------------------------------------------------------
  // What each operation does to the ledger

  /** An invalidation takes exactly the UI proofs in question, and reopens exactly the completed records
      that had one. */
  lemma InvalidationTakes(s: State, ref: Option<Ref>)
    ensures var t := InvalidateUi(s, ref);
      && (forall c :: c in t.confirmations <==> c in s.confirmations && !(c.source == UI && (ref.Some? ==> c.ref == ref.value)))
      && forall i :: 0 <= i < |s.records| ==>
           var r := s.records[i];
           var lost := exists c :: c in s.confirmations && c.source == UI && c.ref == r.ref && (ref.Some? ==> c.ref == ref.value);
           t.records[i] == if r.cleanup.Some? && r.cleanup.value.status == COMPLETED && lost
                           then r.(cleanup := Some(Cleanup(PENDING, None, r.cleanup.value.retainedAt))) else r
  {
  }

  /** A receipt seen again: what is confirmed stays confirmed, and an unconfirmed receipt only adds its
      evidence to a confirmed one. Otherwise the later receipt holds, and where it says nothing of time,
      request or response, the earlier one. */
  lemma ReceiptsMerge(a: Write, b: Write)
    requires a.sub.key == b.sub.key
    ensures var m := Merged(a, b);
      && m.sub.key == a.sub.key && (m.confirmed <==> a.confirmed || b.confirmed)
      && (a.confirmed && !b.confirmed ==> m.(evidence := {}) == a.(evidence := {})
                                          && forall e :: e in m.evidence <==> e in a.evidence || e in b.evidence)
      && (!a.confirmed || b.confirmed ==>
            && (m.sequence, m.status, m.evidence, m.sub.how, m.sub.url)
               == (b.sequence, b.status, b.evidence, b.sub.how, b.sub.url)
            && m.time == (match b.time case Some(_) => b.time case None => a.time)
            && m.sub.request == (match b.sub.request case Some(_) => b.sub.request case None => a.sub.request)
            && m.sub.response == (match b.sub.response case Some(_) => b.sub.response case None => a.sub.response))
  {
  }

  /** A receipt of a new write, or one that tells something new of its request, response, status or
      confirmation, costs all UI proofs; any other leaves records and proofs alone. Of the writes the
      latest two hundred stay, and the ledger says so when it drops one. */
  lemma WriteStoredExactly(s: State, w: Write)
    ensures var t := StoreWrite(s, w);
      var i := PositionOf(s.writes, w.sub.key);
      var stored := if i == |s.writes| then w else Merged(s.writes[i], w);
      var all := if i == |s.writes| then s.writes + [w] else s.writes[i := stored];
      var news := i == |s.writes| || s.writes[i].sub.request != stored.sub.request
                  || s.writes[i].sub.response != stored.sub.response || s.writes[i].status != stored.status
                  || s.writes[i].confirmed != stored.confirmed;
      && t.records == (if news then InvalidateUi(s, None) else s).records
      && t.confirmations == (if news then InvalidateUi(s, None) else s).confirmations
      && (|all| <= 200 ==> t.writes == all && t.writesTruncated == s.writesTruncated)
      && (|all| > 200 ==> t.writes == all[|all| - 200..] && t.writesTruncated)
      && (t.order, t.orderTruncated, t.receipts, t.pending) == (s.order, s.orderTruncated, s.receipts, s.pending)
  {
    hide Merged, PositionOf, Surviving, ReopenUnproven;
  }

  /** The read shows the record in another state than its known initial one. */
  predicate ShowsChanged(r: Record, read: Read)
  {
    match r.initial
    case Some(v) => r.key in read.states && read.states[r.key] != v
    case None => false
  }

  lemma {:induction false} ContradictionTakes(s: State, read: Read, n: nat)
    requires n <= |s.records|
    ensures forall c :: c in Contradict(s, read, n).confirmations
              <==> c in s.confirmations
                   && !(c.source == UI && exists i :: 0 <= i < n && s.records[i].ref == c.ref && ShowsChanged(s.records[i], read))
  {
    if n > 0 {
      ContradictionTakes(s, read, n - 1);
      var t := Contradict(s, read, n - 1);
      InvalidationTakes(t, Some(s.records[n - 1].ref));
      hide InvalidateUi, Contradict;
      assert ContradictedBy(s.records[n - 1], read) <==> ShowsChanged(s.records[n - 1], read);
      assert Contradict(s, read, n)
          == if ShowsChanged(s.records[n - 1], read) then InvalidateUi(t, Some(s.records[n - 1].ref)) else t by {
        ContradictStep(s, read, n);
      }
    }
  }

  lemma ContradictStep(s: State, read: Read, n: nat)
    requires 0 < n <= |s.records|
    ensures var t := Contradict(s, read, n - 1);
      Contradict(s, read, n) == if ShowsChanged(s.records[n - 1], read) then InvalidateUi(t, Some(s.records[n - 1].ref)) else t
  {
  }

  /** A read that is new, or shows other states than before, costs the UI proofs of the records it shows
      changed; it then stands as the last read, in the place of one of the same request. */
  lemma ReadStoredExactly(s: State, read: Read)
    ensures var t := StoreRead(s, read);
      var news := forall x :: x in s.receipts && x.key == read.key && FindRead(s.receipts, read.key) == Some(x) ==> x.states != read.states;
      && (forall c :: c in t.confirmations <==>
            c in s.confirmations
            && !(news && c.source == UI && exists i :: 0 <= i < |s.records| && s.records[i].ref == c.ref && ShowsChanged(s.records[i], read)))
      && (forall x :: x in t.receipts ==> x == read || (x in s.receipts && x.key != read.key))
      && 0 < |t.receipts| <= 200 && t.receipts[|t.receipts| - 1] == read
      && (|s.receipts| < 200 ==> forall x :: x in s.receipts && x.key != read.key ==> x in t.receipts)
  {
    ContradictionTakes(s, read, |s.records|);
    FoundIsThere(s.receipts, read.key);
    WithoutIsShorter(s.receipts, read.key);
    hide Contradict, FindRead, WithoutRead;
  }

  lemma {:induction false} FoundIsThere(receipts: seq<Read>, key: Key)
    ensures var x := FindRead(receipts, key);
      (x.Some? ==> x.value in receipts && x.value.key == key) && (x.None? ==> forall y :: y in receipts ==> y.key != key)
  {
    if receipts != [] {
      FoundIsThere(receipts[1..], key);
    }
  }

  lemma {:induction false} WithoutIsShorter(receipts: seq<Read>, key: Key)
    ensures |WithoutRead(receipts, key)| <= |receipts|
  {
    if receipts != [] {
      WithoutIsShorter(receipts[1..], key);
    }
  }

  /** Sightings wait behind those before them, each once, and at most fifty at a time. */
  lemma {:induction false} SightedExactly(pending: seq<Pending>, sightings: seq<Pending>, n: nat)
    requires n <= |sightings|
    ensures var r := Sighted(pending, sightings, n);
      && pending <= r && (|r| <= 50 || r == pending)
      && (forall p :: p in r <==> p in pending || (p in sightings[..n] && p in r))
      && (|r| < 50 ==> forall p :: p in sightings[..n] ==> p in r)
      && ((forall i, j :: 0 <= i < j < |pending| ==> pending[i] != pending[j]) ==>
            forall i, j :: 0 <= i < j < |r| ==> r[i] != r[j])
  {
    if n > 0 {
      SightedExactly(pending, sightings, n - 1);
      assert sightings[..n] == sightings[..n - 1] + [sightings[n - 1]];
    }
  }

  /** Each request takes the next place in the order, once; beyond two thousand the ledger says that it
      has lost track. */
  lemma RequestTakesPlace(s: State, q: Request)
    ensures var t := ObserveRequest(s, q);
      if q.key in s.order then t.order == s.order && t.orderTruncated == s.orderTruncated
      else if |s.order| < 2000 then t.order == s.order + [q.key] && t.orderTruncated == s.orderTruncated
      else t.order == s.order && t.orderTruncated
  {
    hide StoreWrite, StoreRead, IndexOf, Sighted;
    var a := Ordered(s, q.key);
    var sequence := IndexOf(a.order, q.key);
    var u := if q.write.Some? then StoreWrite(a, WriteOf(q.key, sequence, q.write.value)) else a;
    if q.write.Some? {
      WriteStoredExactly(a, WriteOf(q.key, sequence, q.write.value));
    }
    if q.read.Some? && sequence >= 0 {
      ReadsStored(u, Read(q.key, sequence, q.read.value.time, q.read.value.scope, q.read.value.recordKeys,
                          q.read.value.states, q.read.value.evidence));
    }
  }

  /** A request without a write or a read stores none; what a read brings is stored at its place. */
  lemma RequestBrings(s: State, q: Request)
    ensures var t := ObserveRequest(s, q);
      && (q.write.None? && (q.read.None? || q.key !in t.order) ==>
            (t.writes, t.receipts, t.records, t.confirmations) == (s.writes, s.receipts, s.records, s.confirmations))
      && (q.read.Some? && q.key in t.order ==>
            |t.receipts| > 0 && var x := t.receipts[|t.receipts| - 1];
            x.key == q.key && x.sequence < |t.order| && t.order[x.sequence] == q.key
            && (x.time, x.scope, x.recordKeys, x.states, x.evidence)
               == (q.read.value.time, q.read.value.scope, q.read.value.recordKeys, q.read.value.states, q.read.value.evidence))
  {
    RequestTakesPlace(s, q);
    hide StoreWrite, StoreRead, Sighted;
    var a := Ordered(s, q.key);
    var sequence := IndexOf(a.order, q.key);
    var u := if q.write.Some? then StoreWrite(a, WriteOf(q.key, sequence, q.write.value)) else a;
    if q.read.Some? && sequence >= 0 {
      ReadStoredExactly(u, Read(q.key, sequence, q.read.value.time, q.read.value.scope, q.read.value.recordKeys,
                                q.read.value.states, q.read.value.evidence));
    }
    hide IndexOf;
  }

  // ---------------------------------------------------------------------------------------
  // What becomes of sightings and findings

  /** The last write in the list that would have created the sighted record, if there is one. */
  ghost predicate LastCreation(rules: Rules, writes: seq<Write>, p: Pending, w: Write)
  {
    exists i :: 0 <= i < |writes| && writes[i] == w && rules.creates(w.sub, p)
                && forall j :: i < j < |writes| ==> !rules.creates(writes[j].sub, p)
  }

  lemma {:induction false} CreationExactlyWhen(rules: Rules, writes: seq<Write>, p: Pending, n: nat)
    requires n <= |writes|
    ensures Creation(rules, writes, p, n).None? <==> forall i :: 0 <= i < n ==> !rules.creates(writes[i].sub, p)
    ensures Creation(rules, writes, p, n).Some? ==>
              exists i :: 0 <= i < n && writes[i] == Creation(rules, writes, p, n).value && rules.creates(writes[i].sub, p)
                          && forall j :: i < j < n ==> !rules.creates(writes[j].sub, p)
  {
    if n > 0 {
      CreationExactlyWhen(rules, writes, p, n - 1);
    }
  }

  datatype Fate = Waits | Failed | Made

  /** What the last creation that could have made the sighted record tells of it. */
  ghost predicate HasFate(rules: Rules, writes: seq<Write>, p: Pending, fate: Fate)
  {
    match fate
    case Waits =>
      (forall i :: 0 <= i < |writes| ==> !rules.creates(writes[i].sub, p))
      || exists w :: LastCreation(rules, writes, p, w) && !w.confirmed
    case Failed => exists w :: LastCreation(rules, writes, p, w) && w.confirmed && !Successful(rules, w)
    case Made => exists w :: LastCreation(rules, writes, p, w) && w.confirmed && Successful(rules, w)
  }

  ghost function FateOf(rules: Rules, writes: seq<Write>, p: Pending): (fate: Fate)
    ensures HasFate(rules, writes, p, fate)
  {
    CreationExactlyWhen(rules, writes, p, |writes|);
    var w := Creation(rules, writes, p, |writes|);
    assert w.Some? ==> LastCreation(rules, writes, p, w.value);
    if w.None? || !w.value.confirmed then Waits else if Successful(rules, w.value) then Made else Failed
  }

  lemma FatesDiffer(rules: Rules, writes: seq<Write>, p: Pending, fate: Fate)
    requires HasFate(rules, writes, p, fate)
    ensures fate == FateOf(rules, writes, p)
  {
    hide Creation, Successful;
  }

  /** A sighting waits until the receipt of its creation is complete, is given up if that failed, and
      becomes a record to be cleaned up if it succeeded, unless there are fifty already. */
  lemma {:induction false} PendingSettledExactly(rules: Rules, recordOf: Pending -> Record, s: State, todo: seq<Pending>,
                                                 kept: seq<Pending>, p: Pending)
    ensures var t := SettlePending(rules, recordOf, s, todo, kept);
      && (p in kept ==> p in t.pending) && (p in t.pending ==> p in kept || p in todo)
      && (p in todo && HasFate(rules, s.writes, p, Waits) ==> p in t.pending)
      && (p in todo && HasFate(rules, s.writes, p, Failed) ==> (p in t.pending ==> p in kept))
      && (p in todo && HasFate(rules, s.writes, p, Made) ==>
            (p in t.pending && |t.records| >= 50)
            || exists r :: r in t.records && MadeFrom(rules, s.writes, r, recordOf(p), p))
      && (|t.records| < 50 && p in t.pending ==> p in kept || HasFate(rules, s.writes, p, Waits))
    decreases |todo|
  {
    if todo != [] {
      var q := todo[0];
      var w := Creation(rules, s.writes, q, |s.writes|);
      var fate := FateOf(rules, s.writes, q);
      if HasFate(rules, s.writes, q, Waits) { FatesDiffer(rules, s.writes, q, Waits); }
      if HasFate(rules, s.writes, q, Failed) { FatesDiffer(rules, s.writes, q, Failed); }
      if HasFate(rules, s.writes, q, Made) { FatesDiffer(rules, s.writes, q, Made); }
      CreationExactlyWhen(rules, s.writes, q, |s.writes|);
      assert w.Some? ==> LastCreation(rules, s.writes, q, w.value);
      hide Creation, Successful, HasFate;
      if fate == Waits {
        PendingSettledExactly(rules, recordOf, s, todo[1..], kept + [q], p);
      } else if fate == Failed {
        PendingSettledExactly(rules, recordOf, s, todo[1..], kept, p);
      } else if |s.records| >= MAX_RECORDS {
        PendingSettledExactly(rules, recordOf, s, todo[1..], kept + [q], p);
      } else {
        var r := recordOf(q).(ownership := CREATED_THIS_RUN, cleanup := TO_CLEAN_UP,
                              evidence := w.value.evidence + recordOf(q).evidence);
        var u := s.(records := s.records + [r]);
        PendingSettledExactly(rules, recordOf, u, todo[1..], kept, p);
        assert r in u.records && MadeFrom(rules, s.writes, r, recordOf(q), q);
      }
    }
  }

  /** The record is the sighted one, created by this run, to be cleaned up, with the evidence of both. */
  ghost predicate MadeFrom(rules: Rules, writes: seq<Write>, r: Record, sighted: Record, p: Pending)
  {
    && SameObject(sighted, r) && r.name == sighted.name && r.initial == sighted.initial
    && r.ownership == CREATED_THIS_RUN && r.cleanup == Some(Cleanup(PENDING, None, None))
    && exists w :: LastCreation(rules, writes, p, w) && forall e :: e in r.evidence <==> e in w.evidence || e in sighted.evidence
  }

  /** What is found is registered once per reference, to be cleaned up, as long as there is room. */
  lemma {:induction false} RegisteredExactly(records: seq<Record>, found: seq<Record>, n: nat)
    requires n <= |found|
    ensures var t := Register(records, found, n);
      && (forall i :: 0 <= i < n ==> HasRef(t, found[i].ref) || |t| >= 50)
      && (forall i :: |records| <= i < |t| ==>
            !HasRef(t[..i], t[i].ref) && exists k :: 0 <= k < n && t[i] == found[k].(cleanup := Some(Cleanup(PENDING, None, None))))
      && (|t| <= 50 || t == records)
  {
    if n > 0 {
      RegisteredExactly(records, found, n - 1);
      var before, t := Register(records, found, n - 1), Register(records, found, n);
      forall i | 0 <= i < n ensures HasRef(t, found[i].ref) || |t| >= 50 {
        if |before| < 50 && HasRef(before, found[i].ref) {
          var j :| 0 <= j < |before| && before[j].ref == found[i].ref;
          assert t[j].ref == found[i].ref;
        } else if |before| < 50 {
          assert t[|t| - 1].ref == found[n - 1].ref;
        }
      }
      forall i | |records| <= i < |t|
        ensures !HasRef(t[..i], t[i].ref) && exists k :: 0 <= k < n && t[i] == found[k].(cleanup := Some(Cleanup(PENDING, None, None)))
      {
        if i < |before| {
          assert t[..i] == before[..i];
        } else {
          assert t[..i] == before;
          assert t[i] == found[n - 1].(cleanup := Some(Cleanup(PENDING, None, None)));
        }
      }
    }
  }

  /** The last write in the list that concerns the record and was not refused is of the given kinds, or
      there is none. */
  ghost predicate LastCountingIs(rules: Rules, writes: seq<Write>, r: Record, w: Option<Write>)
  {
    match w
    case None => forall i :: 0 <= i < |writes| ==> !rules.matches(writes[i].sub, r.identity) || Rejected(rules, writes[i])
    case Some(x) =>
      exists i :: 0 <= i < |writes| && writes[i] == x && rules.matches(x.sub, r.identity) && !Rejected(rules, x)
        && forall j :: i < j < |writes| ==> !rules.matches(writes[j].sub, r.identity) || Rejected(rules, writes[j])
  }

  lemma {:induction false} LastListedMeans(rules: Rules, writes: seq<Write>, r: Record, n: nat)
    requires n <= |writes|
    ensures LastCountingIs(rules, writes[..n], r, LastListed(rules, writes, r, n))
  {
    hide Rejected;
    if n > 0 {
      LastListedMeans(rules, writes, r, n - 1);
      assert writes[..n] == writes[..n - 1] + [writes[n - 1]];
      if !Counts(rules, writes[n - 1], r) && LastListed(rules, writes, r, n - 1).Some? {
        var x := LastListed(rules, writes, r, n - 1).value;
        var before := writes[..n - 1];
        var i :| 0 <= i < n - 1 && before[i] == x
                 && forall j :: i < j < n - 1 ==> !rules.matches(before[j].sub, r.identity) || Rejected(rules, before[j]);
        assert writes[..n][i] == x;
        forall j | i < j < n ensures !rules.matches(writes[..n][j].sub, r.identity) || Rejected(rules, writes[..n][j]) {
          if j < n - 1 {
            assert before[j] == writes[j];
          }
        }
      }
    }
  }

  /** A page that shows an existing record as it was before completes its cleanup, unless its last write
      is neither a replacement nor a patch; the page's proof replaces all others of the reference. */
  lemma RestorationTakesEffect(rules: Rules, s: State, i: nat, captureKey: Key, evidence: set<EvidenceRef>, w: Option<Write>)
    requires i < |s.records| && LastCountingIs(rules, s.writes, s.records[i], w)
    ensures var t := ApplyFinding(rules, s, Restores(i, captureKey, evidence));
      var r := s.records[i];
      if r.cleanup.Some? && r.ownership == EXISTING && (w.Some? ==> w.value.sub.how == PUT || w.value.sub.how == PATCH)
      then && t.records == s.records[i := t.records[i]]
           && t.records[i] == r.(cleanup := Some(Cleanup(COMPLETED, Some(RESTORED), r.cleanup.value.retainedAt)),
                                 evidence := t.records[i].evidence)
           && (forall e :: e in t.records[i].evidence <==> e in r.evidence || e in evidence)
           && forall c :: c in t.confirmations <==>
                (c in s.confirmations && c.ref != r.ref)
                || c == Confirmation(UI, r.ref, match w case Some(x) => x.sub.key case None => captureKey, captureKey, evidence)
      else t == s
  {
    LastListedMeans(rules, s.writes, s.records[i], |s.writes|);
    assert s.writes[..|s.writes|] == s.writes;
    SameLastCounting(rules, s.writes, s.records[i], w, LastListed(rules, s.writes, s.records[i], |s.writes|));
    hide LastListed, Rejected;
  }

  /** So a page shown last that shows the record as it was leaves it completed, with its proof, after the
      whole observation. */
  lemma RestorationCompletes(rules: Rules, s: State, o: Observation, w: Option<Write>)
    requires o.findings != [] && o.findings[|o.findings| - 1].Restores?
    requires var t, f := ApplyFindings(rules, ReconcileAll(rules, Gathered(rules, s, o)), o.findings, |o.findings| - 1),
                         o.findings[|o.findings| - 1];
      f.index < |t.records| && t.records[f.index].cleanup.Some? && t.records[f.index].ownership == EXISTING
      && LastCountingIs(rules, t.writes, t.records[f.index], w) && (w.Some? ==> w.value.sub.how == PUT || w.value.sub.how == PATCH)
    ensures var t, i := Observe(rules, s, o), o.findings[|o.findings| - 1].index;
      i < |t.records| && t.records[i].Is(COMPLETED) && t.records[i].cleanup.value.resolution == Some(RESTORED)
      && exists c :: c in t.confirmations && c.ref == t.records[i].ref && c.source == UI
  {
    hide Gathered, Reconcile, ApplyFinding, LastCountingIs;
    var before := ApplyFindings(rules, ReconcileAll(rules, Gathered(rules, s, o)), o.findings, |o.findings| - 1);
    var f := o.findings[|o.findings| - 1];
    RestorationTakesEffect(rules, before, f.index, f.captureKey, f.evidence, w);
    assert Observe(rules, s, o) == ApplyFinding(rules, before, f);
    var r := before.records[f.index];
    var proof := Confirmation(UI, r.ref, match w case Some(x) => x.sub.key case None => f.captureKey, f.captureKey, f.evidence);
    hide ApplyFindings, Observe;
    assert proof in ApplyFinding(rules, before, f).confirmations && proof.ref == r.ref && proof.source == UI;
  }

  lemma SameLastCounting(rules: Rules, writes: seq<Write>, r: Record, a: Option<Write>, b: Option<Write>)
    requires LastCountingIs(rules, writes, r, a) && LastCountingIs(rules, writes, r, b)
    ensures a == b
  {
    hide Rejected;
  }

  /** After a command that acts nothing is proven in the UI but what its own page shows restored. */
  lemma ActingTakesUiProofs(rules: Rules, s: State, o: Observation)
    requires o.acts && forall f :: f in o.findings ==> !f.Restores?
    ensures NoUi(Observe(rules, s, o))
  {
    var a := InvalidateUi(s, None);
    InvalidationTakes(s, None);
    RequestsAddNoUi(a, o.requests, |o.requests|);
    hide InvalidateUi, ObserveRequests, SettlePending, Register, Renamed;
    var g := Gathered(rules, s, o);
    ReconcileAddsNoUi(rules, g, |g.records|);
    FindingsAddNoUi(rules, ReconcileAll(rules, g), o.findings, |o.findings|);
    hide Reconcile, ApplyFindings;
  }

  lemma {:induction false} FindingsAddNoUi(rules: Rules, s: State, findings: seq<UiFinding>, n: nat)
    requires n <= |findings| && NoUi(s) && forall f :: f in findings ==> !f.Restores?
    ensures NoUi(ApplyFindings(rules, s, findings, n))
  {
    if n > 0 {
      FindingsAddNoUi(rules, s, findings, n - 1);
      assert findings[n - 1] in findings;
    }
  }

  lemma {:induction false} RequestsAddNoUi(s: State, requests: seq<Request>, n: nat)
    requires n <= |requests| && NoUi(s)
    ensures NoUi(ObserveRequests(s, requests, n))
  {
    hide StoreWrite, StoreRead, IndexOf, Sighted;
    if n > 0 {
      RequestsAddNoUi(s, requests, n - 1);
      var t, q := Ordered(ObserveRequests(s, requests, n - 1), requests[n - 1].key), requests[n - 1];
      var sequence := IndexOf(t.order, q.key);
      var u := if q.write.Some? then StoreWrite(t, WriteOf(q.key, sequence, q.write.value)) else t;
      if q.write.Some? {
        StoreWriteAddsNoUi(t, WriteOf(q.key, sequence, q.write.value));
      }
      if q.read.Some? && sequence >= 0 {
        StoreReadStores(u, Read(q.key, sequence, q.read.value.time, q.read.value.scope, q.read.value.recordKeys,
                                q.read.value.states, q.read.value.evidence));
      }
    }
  }

  /** Giving up turns pending cleanups into blocked ones, and nothing else. */
  lemma BlockingChanges(s: State, i: nat)
    requires i < |s.records|
    ensures var r, t := s.records[i], Block(s);
      t == s.(records := t.records) && |t.records| == |s.records|
      && match r.cleanup
         case None => t.records[i] == r
         case Some(c) =>
           t.records[i] == r.(cleanup := Some(Cleanup(if c.status == PENDING then BLOCKED else c.status, c.resolution, c.retainedAt)))
  {
  }

  /** There is something to report exactly when the ledger has dropped a write, a sighting waits, a record
      is to be cleaned up and neither is completed nor retained, or a write that was not refused concerns
      no such record, a creation none that this run has created. */
  lemma NoticeExactlyWhen(rules: Rules, s: State)
    ensures !NothingOutstanding(rules, s)
       <==> || s.writesTruncated || |s.pending| > 0
            || (exists r :: r in s.records && r.cleanup.Some? && r.cleanup.value.status in {PENDING, BLOCKED})
            || (exists w :: w in s.writes && !Rejected(rules, w)
                            && forall r :: r in s.records && r.cleanup.Some? && rules.matches(w.sub, r.identity) ==>
                                 w.sub.how == POST && r.ownership != CREATED_THIS_RUN)
  {
    hide Rejected;
    if NothingOutstanding(rules, s) {
      forall w | w in s.writes && !Rejected(rules, w)
        ensures exists r :: r in s.records && r.cleanup.Some? && rules.matches(w.sub, r.identity)
                            && (w.sub.how != POST || r.ownership == CREATED_THIS_RUN)
      {
        var i :| 0 <= i < |s.writes| && s.writes[i] == w;
        assert !Unresolved(rules, s, s.writes[i]);
      }
    } else if !s.writesTruncated && s.pending == [] {
      if k :| 0 <= k < |s.writes| && Unresolved(rules, s, s.writes[k]) {
        assert s.writes[k] in s.writes;
      } else {
        var i :| 0 <= i < |s.records| && s.records[i].cleanup.Some? && !s.records[i].Is(COMPLETED) && !s.records[i].Is(RETAINED);
        assert s.records[i] in s.records;
      }
    }
  }

  // ---------------------------------------------------------------------------------------
  // What an update may change

  /** The first record under its key, which later claims about the object are held against. */
  predicate FirstUnderKey(records: seq<Record>, i: nat)
    requires i < |records|
  {
    forall j :: 0 <= j < i ==> records[j].key != records[i].key
  }

  /** The ownership is that of `a`, and so is the initial state if that is known. */
  predicate SharesBaseline(a: Record, b: Record)
  {
    b.ownership == a.ownership && (a.initial.Some? ==> b.initial == a.initial)
  }

  /** Records stay the same objects, and the first under each key keeps its ownership and, once known,
      its initial state. */
  predicate KeepsBaselines(a: seq<Record>, b: seq<Record>)
  {
    |a| <= |b|
    && forall i :: 0 <= i < |a| ==>
         SameObject(a[i], b[i])
         && (FirstUnderKey(a, i) ==> SharesBaseline(a[i], b[i]))
  }

  predicate Advanced(s: State, t: State) { KeepsBaselines(s.records, t.records) && (RefsKnown(s) ==> RefsKnown(t)) }

  lemma GrownAdvances(s: State, t: State)
    requires Grown(s, t)
    ensures Advanced(s, t)
  {
    hide RefsKnown;
  }

  lemma AdvancedTransitive(s: State, t: State, u: State)
    requires Advanced(s, t) && Advanced(t, u)
    ensures Advanced(s, u)
  {
    hide RefsKnown;
    forall i | 0 <= i < |s.records| && FirstUnderKey(s.records, i) ensures FirstUnderKey(t.records, i) {
    }
  }

  /** Some record under this key is one that this run has created. */
  predicate Owned(records: seq<Record>, key: RecordKey)
  {
    exists i :: 0 <= i < |records| && records[i].key == key && records[i].ownership == CREATED_THIS_RUN
  }

  lemma {:induction false} MergeAllKeepsObjects(rules: Rules, s: State, changes: seq<Change>, n: nat)
    requires n <= |changes|
    ensures var merged := MergeAll(rules, s, changes, n);
      merged.Some? ==> |s.records| <= |merged.value|
                       && forall i :: 0 <= i < |s.records| ==> SameObject(s.records[i], merged.value[i])
  {
    hide RetentionProof;
    if n > 0 {
      MergeAllKeepsObjects(rules, s, changes, n - 1);
    }
  }

  lemma {:induction false} PriorIsFirst(records: seq<Record>, i: nat)
    requires i < |records| && FirstUnderKey(records, i)
    ensures PriorOf(records, records[i].key) == Some(records[i])
  {
    if i > 0 {
      assert records[0].key != records[i].key;
      assert FirstUnderKey(records[1..], i - 1) by {
        forall j | 0 <= j < i - 1 ensures records[1..][j].key != records[1..][i - 1].key {
          assert records[1..][j] == records[j + 1];
        }
      }
      PriorIsFirst(records[1..], i - 1);
    }
  }

  /** Accepted changes leave every object its baseline, make none this run's creation, and give any
      other record of an object the ownership and the known initial state of the first. */
  lemma AcceptedKeepsBaselines(rules: Rules, s: State, changes: seq<Change>)
    requires Accepted(rules, s, changes).Some?
    ensures var merged := Accepted(rules, s, changes).value;
      && KeepsBaselines(s.records, merged)
      && (forall key :: Owned(merged, key) ==> Owned(s.records, key))
      && forall i, j :: 0 <= i < |s.records| && FirstUnderKey(s.records, i) && 0 <= j < |merged| ==>
           (merged[j].key == s.records[i].key ==> SharesBaseline(s.records[i], merged[j]))
  {
    var merged := Accepted(rules, s, changes).value;
    MergeAllKeepsObjects(rules, s, changes, |changes|);
    hide MergeAll;
    forall i | 0 <= i < |s.records| && FirstUnderKey(s.records, i)
      ensures PriorOf(s.records, s.records[i].key) == Some(s.records[i])
    {
      PriorIsFirst(s.records, i);
    }
    hide PriorOf;
    assert forall j :: 0 <= j < |merged| ==> Admissible(s, merged[j]);
  }

  /** After an accepted update every record under a key that the ledger held has the ownership of the
      first record under it, and its initial state if that was known; none has become this run's
      creation. */
  lemma UpdateKeepsBaselines(rules: Rules, s: State, r: Revision)
    requires Update(rules, s, r).1
    ensures var t := Update(rules, s, r).0;
      && KeepsBaselines(s.records, t.records)
      && (forall key :: Owned(t.records, key) ==> Owned(s.records, key) || exists c :: c in r.created && c.key == key)
      && forall i, j :: 0 <= i < |s.records| && FirstUnderKey(s.records, i) && 0 <= j < |t.records| ==>
           (t.records[j].key == s.records[i].key ==> SharesBaseline(s.records[i], t.records[j]))
  {
    var w := WithCreated(s, r.created);
    var u := w.(records := Accepted(rules, w, r.changes).value);
    var v := ApplyFindings(rules, u, r.findings, |r.findings|);
    var t := Update(rules, s, r).0;
    AcceptedKeepsBaselines(rules, w, r.changes);
    FindingsGrown(rules, u, r.findings, |r.findings|);
    ReconcileGrown(rules, v, |v.records|);
    hide Accepted, ApplyFindings, Reconcile, RefsKnown, KeepsBaselines;
    CreatedOwned(s, r.created);
    GrownTransitive(u, v, t);
    assert |t.records| == |u.records|;
    OwnedAlike(u.records, t.records);
    assert forall i :: 0 <= i < |s.records| && FirstUnderKey(s.records, i) ==> FirstUnderKey(w.records, i) && w.records[i] == s.records[i];
    BaselinesOf(s.records, w.records, u.records, t.records);
  }

  lemma BaselinesOf(a: seq<Record>, b: seq<Record>, c: seq<Record>, d: seq<Record>)
    requires a <= b && KeepsBaselines(b, c) && Extends(c, d)
    ensures KeepsBaselines(a, d)
  {
    forall i | 0 <= i < |a| ensures FirstUnderKey(a, i) ==> FirstUnderKey(b, i) {
    }
  }

  lemma OwnedAlike(a: seq<Record>, b: seq<Record>)
    requires Extends(a, b) && |a| == |b|
    ensures forall key :: Owned(b, key) ==> Owned(a, key)
  {
  }

  lemma CreatedOwned(s: State, created: seq<Record>)
    ensures forall key :: Owned(WithCreated(s, created).records, key) ==>
              Owned(s.records, key) || exists c :: c in created && c.key == key
  {
    var t := WithCreated(s, created);
    forall i | 0 <= i < |t.records| && t.records[i].ownership == CREATED_THIS_RUN
      ensures Owned(s.records, t.records[i].key) || exists c :: c in created && c.key == t.records[i].key
    {
      if i >= |s.records| {
        assert created[i - |s.records|] in created;
      }
    }
  }

  lemma StepAdvances(rules: Rules, s: State, e: Event)
    ensures Advanced(s, Step(rules, s, e))
  {
    match e
    case Observing(o) =>
      hide Grown, Gathered, Reconcile, ApplyFindings;
      var g := Gathered(rules, s, o);
      var t := ReconcileAll(rules, g);
      GatheredGrown(rules, s, o);
      ReconcileGrown(rules, g, |g.records|);
      GrownTransitive(s, g, t);
      FindingsGrown(rules, t, o.findings, |o.findings|);
      GrownTransitive(s, t, Observe(rules, s, o));
      GrownAdvances(s, Observe(rules, s, o));
    case Updating(r) => UpdateAdvances(rules, s, r);
    case Blocking =>
      FewerGrown(s, Block(s));
      GrownAdvances(s, Block(s));
  }

  lemma UpdateAdvances(rules: Rules, s: State, r: Revision)
    ensures Advanced(s, Update(rules, s, r).0)
  {
    var t := WithCreated(s, r.created);
    FewerGrown(s, t);
    GrownAdvances(s, t);
    var records := Accepted(rules, t, r.changes);
    if records.Some? {
      var u := t.(records := records.value);
      AcceptedKeepsBaselines(rules, t, r.changes);
      AcceptedAdvances(t, u);
      hide Grown, Accepted, WithCreated, Reconcile, ApplyFindings, Advanced, KeepsBaselines;
      var v := ApplyFindings(rules, u, r.findings, |r.findings|);
      AdvancedTransitive(s, t, u);
      FindingsGrown(rules, u, r.findings, |r.findings|);
      GrownAdvances(u, v);
      AdvancedTransitive(s, u, v);
      ReconcileGrown(rules, v, |v.records|);
      GrownAdvances(v, Update(rules, s, r).0);
      AdvancedTransitive(s, v, Update(rules, s, r).0);
    }
  }

  lemma AcceptedAdvances(t: State, u: State)
    requires KeepsBaselines(t.records, u.records) && u.confirmations == t.confirmations
    ensures Advanced(t, u)
  {
    forall ref | HasRef(t.records, ref) ensures HasRef(u.records, ref) {
      var i :| 0 <= i < |t.records| && t.records[i].ref == ref;
      assert u.records[i].ref == ref;
    }
  }

  /** Over any run records stay the same objects, and no baseline is ever rewritten: between any two
      moments the first record under each key keeps its ownership and its known initial state. */
  lemma {:induction false} BaselinesAreKept(rules: Rules, events: seq<Event>, m: nat, n: nat)
    requires m <= n <= |events|
    ensures KeepsBaselines(After(rules, events, m).records, After(rules, events, n).records)
    ensures RefsKnown(After(rules, events, n))
    decreases n
  {
    hide Step, KeepsBaselines, RefsKnown;
    if n > 0 {
      StepAdvances(rules, After(rules, events, n - 1), events[n - 1]);
      BaselinesAreKept(rules, events, if m < n then m else n - 1, n - 1);
      if m < n {
        AdvancedTransitiveRecords(After(rules, events, m), After(rules, events, n - 1), After(rules, events, n));
      }
    } else {
      FreshKnown();
    }
    if m == n {
      BaselinesThemselves(After(rules, events, n).records);
    }
  }

  lemma AdvancedTransitiveRecords(s: State, t: State, u: State)
    requires KeepsBaselines(s.records, t.records) && KeepsBaselines(t.records, u.records)
    ensures KeepsBaselines(s.records, u.records)
  {
    forall i | 0 <= i < |s.records| && FirstUnderKey(s.records, i) ensures FirstUnderKey(t.records, i) {
    }
  }

  lemma BaselinesThemselves(records: seq<Record>)
    ensures KeepsBaselines(records, records)
  {
  }

  lemma FreshKnown()
    ensures RefsKnown(FRESH)
  {
  }

  /** What a change leaves in the records: a new record behind the others, or in place of the one it
      names the same object, with the status, evidence, ownership and initial state it gives, or else those
      it had. A status given takes back how and where the record was closed; a record that is to be kept
      is kept at its latest write, with the evidence of the read that shows it. */
  lemma ChangeTakesEffect(rules: Rules, s: State, records: seq<Record>, c: Change)
    ensures c.Add? ==>
      Merge(rules, s, records, c)
      == if |records| < 50 && !HasRef(records, c.record.ref)
            && !(c.record.cleanup.Some? && c.record.cleanup.value.status == RETAINED)
         then Some(records + [c.record]) else None
    ensures c.Amend? && Merge(rules, s, records, c).Some? ==>
      var t := Merge(rules, s, records, c).value;
      && c.index < |records| && t == records[c.index := t[c.index]]
      && var a, b := records[c.index], t[c.index];
      var proof := RetentionProof(rules, s, a);
      && SameObject(a, b) && b.name == a.name
      && b.ownership == (match c.ownership case Some(o) => o case None => a.ownership)
      && b.initial == (if c.initial.Some? then c.initial else a.initial)
      && (if b.cleanup.Some? && b.cleanup.value.status == RETAINED
          then && proof.Some? && b.cleanup.value == Cleanup(RETAINED, None, Some(proof.value.write.sub.key))
               && (c.status.Some? ==> c.status.value == RETAINED) && (c.status.None? ==> a.Is(RETAINED))
               && b.evidence == (match c.cited case Some(e) => e case None => a.evidence) + proof.value.read.evidence
          else && b.cleanup == (match c.status case Some(status) => Some(Cleanup(status, None, None)) case None => a.cleanup)
               && b.evidence == match c.cited case Some(e) => e case None => a.evidence)
  {
    hide RetentionProof;
  }

  /** The change asks for nothing that the ledger of `s` forbids of its record: `first` is the first
      record under the same key. */
  ghost predicate Permitted(rules: Rules, s: State, c: Change, first: Record)
    requires c.Amend? && c.index < |s.records|
  {
    var r := s.records[c.index];
    var status := if c.status.Some? then c.status else if r.cleanup.Some? then Some(r.cleanup.value.status) else None;
    var evidence := if c.cited.Some? then c.cited.value else r.evidence;
    && (c.ownership.Some? ==> c.ownership.value == first.ownership)
    && (c.initial.Some? && first.initial.Some? ==> c.initial == first.initial)
    && (c.status == Some(BLOCKED) || c.status == Some(RETAINED) ==> c.noted)
    && (status == Some(COMPLETED) && !first.Is(COMPLETED) ==>
          exists p :: p in s.confirmations && p.ref == r.ref && p.evidence * evidence != {})
    && (status == Some(RETAINED) ==> r.ownership == CREATED_THIS_RUN && RetentionProof(rules, s, r).Some?)
  }

  /** When a ledger in itself has no clash, one change is accepted exactly if its record is the only one
      under its reference and the change is permitted. */
  lemma AmendAcceptedExactlyWhen(rules: Rules, s: State, c: Change, first: Record, findings: seq<UiFinding>)
    requires c.Amend? && Update(rules, s, Revision([], [], findings)).1
    requires c.index < |s.records| ==> PriorOf(s.records, s.records[c.index].key) == Some(first)
    ensures Update(rules, s, Revision([], [c], findings)).1
       <==> && c.index < |s.records|
            && (forall k :: 0 <= k < |s.records| && s.records[k].ref == s.records[c.index].ref ==> k == c.index)
            && Permitted(rules, s, c, first)
  {
    var w := WithCreated(s, []);
    assert w == s;
    NoChangeAdmissible(rules, s, findings);
    assert MergeAll(rules, s, [c], 1) == Merge(rules, s, s.records, c) by { assert MergeAll(rules, s, [c], 0) == Some(s.records); }
    if Addressed(s.records, c.index) {
      AmendedAdmissible(rules, s, c, first);
    }
    hide RetentionProof, Admissible, Permitted, ApplyFindings, Reconcile;
    var merged := Merge(rules, s, s.records, c);
    if merged.Some? {
      assert forall k :: 0 <= k < |s.records| && k != c.index ==> merged.value[k] == s.records[k];
    }
  }

  /** When an update that changes nothing is accepted: if records of one object agree on its baseline, and
      none is closed by evidence of nothing while the first is open; so always if no object has two. */
  lemma UnchangedAcceptedExactlyWhen(rules: Rules, s: State, findings: seq<UiFinding>)
    ensures Update(rules, s, Revision([], [], findings)).1
       <==> forall i, j :: 0 <= i < |s.records| && FirstUnderKey(s.records, i) && 0 <= j < |s.records| ==>
              (s.records[j].key == s.records[i].key ==>
                 SharesBaseline(s.records[i], s.records[j])
                 && (s.records[j].Is(COMPLETED) && !s.records[i].Is(COMPLETED) ==>
                       exists c :: c in s.confirmations && c.ref == s.records[j].ref && c.evidence * s.records[j].evidence != {}))
  {
    assert WithCreated(s, []) == s;
    assert MergeAll(rules, s, [], 0) == Some(s.records);
    hide ApplyFindings, Reconcile, Admissible;
    forall j | 0 <= j < |s.records| ensures exists i :: 0 <= i <= j && FirstUnderKey(s.records, i) && s.records[i].key == s.records[j].key {
      FirstExists(s.records, j);
    }
    forall i, j | 0 <= i < |s.records| && FirstUnderKey(s.records, i) && 0 <= j < |s.records| && s.records[j].key == s.records[i].key
      ensures Admissible(s, s.records[j]) <==>
                SharesBaseline(s.records[i], s.records[j])
                && (s.records[j].Is(COMPLETED) && !s.records[i].Is(COMPLETED) ==>
                      exists c :: c in s.confirmations && c.ref == s.records[j].ref && c.evidence * s.records[j].evidence != {})
    {
      PriorIsFirst(s.records, i);
      AdmissibleBy(s, s.records[i], s.records[j]);
    }
  }

  lemma AdmissibleBy(s: State, first: Record, r: Record)
    requires PriorOf(s.records, r.key) == Some(first)
    ensures Admissible(s, r) <==>
              SharesBaseline(first, r)
              && (r.Is(COMPLETED) && !first.Is(COMPLETED) ==>
                    exists c :: c in s.confirmations && c.ref == r.ref && c.evidence * r.evidence != {})
  {
  }

  lemma {:induction false} FirstExists(records: seq<Record>, j: nat)
    requires j < |records|
    ensures exists i :: 0 <= i <= j && FirstUnderKey(records, i) && records[i].key == records[j].key
    decreases j
  {
    if !FirstUnderKey(records, j) {
      var k :| 0 <= k < j && records[k].key == records[j].key;
      FirstExists(records, k);
    }
  }

  /** A refused update leaves the ledger as it was, but for creations that a UI row completed: they are
      this run's, to be cleaned up. */
  lemma RefusedKeepsLedger(rules: Rules, s: State, r: Revision, i: nat)
    requires !Update(rules, s, r).1
    ensures var t := Update(rules, s, r).0;
      && t == s.(records := t.records) && |t.records| == |s.records| + |r.created|
      && (i < |s.records| ==> t.records[i] == s.records[i])
      && (|s.records| <= i < |t.records| ==>
            t.records[i] == r.created[i - |s.records|].(ownership := CREATED_THIS_RUN, cleanup := Some(Cleanup(PENDING, None, None))))
  {
    hide Accepted;
  }

  lemma NoChangeAdmissible(rules: Rules, s: State, findings: seq<UiFinding>)
    requires Update(rules, s, Revision([], [], findings)).1
    ensures forall i :: 0 <= i < |s.records| ==> Admissible(s, s.records[i])
  {
    assert WithCreated(s, []) == s;
    hide Admissible;
  }

  lemma AmendedAdmissible(rules: Rules, s: State, c: Change, first: Record)
    requires c.Amend? && c.index < |s.records| && Addressed(s.records, c.index) && Admissible(s, s.records[c.index])
    requires PriorOf(s.records, s.records[c.index].key) == Some(first)
    ensures var merged := Merge(rules, s, s.records, c);
      (merged.Some? && Admissible(s, merged.value[c.index])) <==> Permitted(rules, s, c, first)
  {
    hide RetentionProof;
  }

  // ---------------------------------------------------------------------------------------
  // What this run has created

  predicate SightedIn(requests: seq<Request>, n: nat, p: Pending)
  {
    exists j :: 0 <= j < n <= |requests| && p in requests[j].sightings
  }

  /** A sighting whose creation the ledger holds confirmed and successful, for this key. */
  ghost predicate CreationShown(rules: Rules, writes: seq<Write>, recordOf: Pending -> Record, p: Pending, key: RecordKey)
  {
    recordOf(p).key == key
    && exists w :: w in writes && rules.creates(w.sub, p) && w.confirmed && Successful(rules, w)
  }

  /** Why the event may make an object one that this run has created: a sighting, now or before, with a
      confirmed and successful creation, a creation bound by name, or one that the UI completed. */
  ghost predicate Entitles(rules: Rules, s: State, e: Event, key: RecordKey)
  {
    match e
    case Observing(o) =>
      || (exists f :: f in o.found && f.key == key && f.ownership == CREATED_THIS_RUN)
      || (exists p :: (p in s.pending || SightedIn(o.requests, |o.requests|, p))
                      && CreationShown(rules, Step(rules, s, e).writes, o.recordOf, p, key))
    case Updating(r) => exists c :: c in r.created && c.key == key
    case Blocking => false
  }

  lemma {:induction false} CreationIsListed(rules: Rules, writes: seq<Write>, p: Pending, n: nat)
    requires n <= |writes|
    ensures var w := Creation(rules, writes, p, n); w.Some? ==> w.value in writes && rules.creates(w.value.sub, p)
  {
    if n > 0 {
      CreationIsListed(rules, writes, p, n - 1);
    }
  }

  lemma {:induction false} SettlingOwns(rules: Rules, recordOf: Pending -> Record, s: State, todo: seq<Pending>,
                                        kept: seq<Pending>, key: RecordKey)
    requires Owned(SettlePending(rules, recordOf, s, todo, kept).records, key)
    ensures Owned(s.records, key) || exists p :: p in todo && CreationShown(rules, s.writes, recordOf, p, key)
    decreases |todo|
  {
    if todo != [] {
      var p := todo[0];
      var w := Creation(rules, s.writes, p, |s.writes|);
      CreationIsListed(rules, s.writes, p, |s.writes|);
      hide Creation, Successful, CreationShown, Owned;
      assert forall q :: q in todo[1..] ==> q in todo;
      if w.None? || !w.value.confirmed {
        SettlingOwns(rules, recordOf, s, todo[1..], kept + [p], key);
      } else if !Successful(rules, w.value) {
        SettlingOwns(rules, recordOf, s, todo[1..], kept, key);
      } else if |s.records| >= MAX_RECORDS {
        SettlingOwns(rules, recordOf, s, todo[1..], kept + [p], key);
      } else {
        var r := recordOf(p).(ownership := CREATED_THIS_RUN, cleanup := TO_CLEAN_UP,
                              evidence := w.value.evidence + recordOf(p).evidence);
        SettlingOwns(rules, recordOf, s.(records := s.records + [r]), todo[1..], kept, key);
        OwnedByOneMore(s.records, r, key);
        if r.key == key {
          ShownByCreation(rules, s.writes, recordOf, p, key, w.value);
        }
      }
    }
  }

  lemma OwnedByOneMore(records: seq<Record>, r: Record, key: RecordKey)
    ensures Owned(records + [r], key) ==> Owned(records, key) || r.key == key
  {
  }

  lemma ShownByCreation(rules: Rules, writes: seq<Write>, recordOf: Pending -> Record, p: Pending, key: RecordKey, w: Write)
    requires w in writes && rules.creates(w.sub, p) && w.confirmed && Successful(rules, w) && recordOf(p).key == key
    ensures CreationShown(rules, writes, recordOf, p, key)
  {
  }

  lemma {:induction false} RegisteringOwns(records: seq<Record>, found: seq<Record>, n: nat, key: RecordKey)
    requires n <= |found| && Owned(Register(records, found, n), key)
    ensures Owned(records, key) || exists f :: f in found && f.key == key && f.ownership == CREATED_THIS_RUN
  {
    if n > 0 {
      var before := Register(records, found, n - 1);
      if Owned(before, key) {
        RegisteringOwns(records, found, n - 1, key);
      } else {
        assert found[n - 1] in found;
      }
    }
  }

  lemma {:induction false} StillSighted(pending: seq<Pending>, sightings: seq<Pending>, n: nat)
    requires n <= |sightings|
    ensures forall p :: p in Sighted(pending, sightings, n) ==> p in pending || p in sightings
  {
    if n > 0 {
      StillSighted(pending, sightings, n - 1);
    }
  }

  lemma {:induction false} PendingWasSighted(s: State, requests: seq<Request>, n: nat)
    requires n <= |requests|
    ensures forall p :: p in ObserveRequests(s, requests, n).pending ==> p in s.pending || SightedIn(requests, n, p)
  {
    hide ObserveRequest, Sighted;
    if n > 0 {
      PendingWasSighted(s, requests, n - 1);
      var t := ObserveRequests(s, requests, n - 1);
      StillSighted(t.pending, requests[n - 1].sightings, |requests[n - 1].sightings|);
      RequestKeepsPending(t, requests[n - 1]);
    }
  }

  lemma RequestKeepsPending(s: State, q: Request)
    ensures ObserveRequest(s, q).pending == Sighted(s.pending, q.sightings, |q.sightings|)
  {
    hide StoreWrite, StoreRead, IndexOf, Sighted;
    var a := Ordered(s, q.key);
    var sequence := IndexOf(a.order, q.key);
    var u := if q.write.Some? then StoreWrite(a, WriteOf(q.key, sequence, q.write.value)) else a;
    if q.write.Some? {
      WriteStoredExactly(a, WriteOf(q.key, sequence, q.write.value));
    }
    if q.read.Some? && sequence >= 0 {
      ReadKeepsPending(u, Read(q.key, sequence, q.read.value.time, q.read.value.scope, q.read.value.recordKeys,
                               q.read.value.states, q.read.value.evidence));
    }
  }

  lemma ReadKeepsPending(s: State, read: Read)
    ensures StoreRead(s, read).pending == s.pending
  {
    hide Contradict, FindRead, WithoutRead;
  }

  lemma ObservingOwns(rules: Rules, s: State, o: Observation, key: RecordKey)
    requires Owned(Observe(rules, s, o).records, key)
    ensures Owned(s.records, key) || Entitles(rules, s, Observing(o), key)
  {
    hide RefsKnown, Owned, CreationShown, Extends;
    var a := if o.acts then InvalidateUi(s, None) else s;
    var b := ObserveRequests(a, o.requests, |o.requests|);
    var c := SettlePending(rules, o.recordOf, b, b.pending, []);
    var d := Gathered(rules, s, o);
    var t := ReconcileAll(rules, d);
    FindingsGrown(rules, t, o.findings, |o.findings|);
    ReconcileGrown(rules, d, |d.records|);
    RestKeepsReceipts(rules, a, o, b);
    ObserveRequestsGrown(a, o.requests, |o.requests|);
    InvalidateGrown(s, None);
    SameRecordsGrown(s, s);
    PendingWasSighted(a, o.requests, |o.requests|);
    hide ApplyFindings, Reconcile, ObserveRequests, SettlePending, Register, InvalidateUi, Renamed;
    OwnedAlike(t.records, Observe(rules, s, o).records);
    OwnedAlike(d.records, t.records);
    RegisteringOwns(Renamed(c.records, o.names), o.found, |o.found|, key) by { assert Owned(d.records, key); }
    if !(exists f :: f in o.found && f.key == key && f.ownership == CREATED_THIS_RUN) {
      OwnedAlike(c.records, Renamed(c.records, o.names)) by { RenamingExtends(c.records, o.names); }
      SettlingOwns(rules, o.recordOf, b, b.pending, [], key);
      OwnedAlike(a.records, b.records) by { RequestsKeepCount(a, o.requests, |o.requests|); }
      OwnedAlike(s.records, a.records);
    }
  }

  lemma RenamingExtends(records: seq<Record>, names: map<Ref, Name>)
    ensures Extends(records, Renamed(records, names))
  {
  }

  lemma {:induction false} RequestsKeepCount(s: State, requests: seq<Request>, n: nat)
    requires n <= |requests|
    ensures |ObserveRequests(s, requests, n).records| == |s.records|
  {
    hide ObserveRequest;
    if n > 0 {
      RequestsKeepCount(s, requests, n - 1);
    }
  }

  lemma StepOwns(rules: Rules, s: State, e: Event, key: RecordKey)
    requires Owned(Step(rules, s, e).records, key)
    ensures Owned(s.records, key) || Entitles(rules, s, e, key)
  {
    match e
    case Observing(o) => ObservingOwns(rules, s, o, key);
    case Updating(r) =>
      CreatedOwned(s, r.created);
      if Update(rules, s, r).1 {
        UpdateKeepsBaselines(rules, s, r);
      }
      hide Accepted, WithCreated, Reconcile, ApplyFindings, Owned;
    case Blocking => OwnedAlike(s.records, Block(s).records);
  }

  /** Over any run: an object that the ledger takes for this run's creation was made one by an event
      entitled to, and by no update of the model. */
  lemma {:induction false} OwnershipHasCause(rules: Rules, events: seq<Event>, n: nat, key: RecordKey)
    requires n <= |events| && Owned(After(rules, events, n).records, key)
    ensures exists k: nat :: k < n && Entitles(rules, After(rules, events, k), events[k], key)
  {
    hide Step, Entitles;
    if n > 0 {
      StepOwns(rules, After(rules, events, n - 1), events[n - 1], key);
      if Owned(After(rules, events, n - 1).records, key) {
        OwnershipHasCause(rules, events, n - 1, key);
      }
    }
  }

  // ---------------------------------------------------------------------------------------
  // Settled over any run

  /** A record registered although its update was refused is settled: it is pending, and no
      confirmation names it. */
  lemma CreatedSettles(rules: Rules, s: State, created: seq<Record>)
    requires Settled(rules, s) && RefsKnown(s) && DistinctRefs(WithCreated(s, created).records)
    ensures Settled(rules, WithCreated(s, created))
  {
  }

  lemma StepSettles(rules: Rules, s: State, e: Event)
    requires Settled(rules, s) && RefsKnown(s) && DistinctRefs(Step(rules, s, e).records)
    ensures Settled(rules, Step(rules, s, e))
  {
    match e
    case Observing(o) =>
      var g := Gathered(rules, s, o);
      var t := ReconcileAll(rules, g);
      ReconcileGrown(rules, g, |g.records|);
      FindingsGrown(rules, t, o.findings, |o.findings|);
      hide Settled, Gathered, Reconcile, ApplyFindings, RefsKnown;
      ObserveSettles(rules, s, o);
    case Updating(r) =>
      hide Settled, Accepted, ApplyFindings, Reconcile;
      if Update(rules, s, r).1 {
        UpdateSettles(rules, s, r);
      } else {
        CreatedSettles(rules, s, r.created);
      }
    case Blocking => BlockSettles(rules, s);
  }

  /** As long as record references are distinct, after any run every record is settled: closed only
      with a stored confirmation, retained only with a read that still shows it, and every network
      confirmation justified by the latest write and the most recent later read. */
  lemma {:induction false} RunSettles(rules: Rules, events: seq<Event>, n: nat)
    requires n <= |events| && DistinctRefs(After(rules, events, n).records)
    ensures Settled(rules, After(rules, events, n)) && RefsKnown(After(rules, events, n))
  {
    hide Settled, RefsKnown, DistinctRefs, Step;
    if n == 0 {
      FreshIsSettled(rules);
    } else {
      var s, e := After(rules, events, n - 1), events[n - 1];
      EarlierDistinct(rules, s, e);
      RunSettles(rules, events, n - 1);
      StepSettles(rules, s, e);
      StepKnown(rules, s, e);
    }
  }

  lemma FreshIsSettled(rules: Rules)
    ensures Settled(rules, FRESH) && RefsKnown(FRESH)
  {
  }

  lemma EarlierDistinct(rules: Rules, s: State, e: Event)
    requires DistinctRefs(Step(rules, s, e).records)
    ensures DistinctRefs(s.records)
  {
    StepAdvances(rules, s, e);
    hide Step, RefsKnown;
  }

  lemma StepKnown(rules: Rules, s: State, e: Event)
    requires RefsKnown(s)
    ensures RefsKnown(Step(rules, s, e))
  {
    StepAdvances(rules, s, e);
    hide Step, RefsKnown;
  }

  // ---------------------------------------------------------------------------------------
  // However references are shared, the last record of each is proven

  lemma InvalidationKeepsProven(rules: Rules, s: State, ref: Option<Ref>)
    requires LastProven(rules, s)
    ensures LastProven(rules, InvalidateUi(s, ref))
  {
    var t := InvalidateUi(s, ref);
    hide LatestWrite, Justified, StillThere, InvalidateUi;
    forall i | 0 <= i < |t.records| && LastOfRef(t.records, i) ensures Proven(rules, t, t.records[i]) {
      assert SameDuties(s.records, t.records) by { InvalidationKeepsDuties(s, ref); }
      assert LastOfRef(s.records, i);
      InvalidationKeepsProof(rules, s, ref, i);
    }
  }

  lemma InvalidationKeepsDuties(s: State, ref: Option<Ref>)
    ensures SameDuties(s.records, InvalidateUi(s, ref).records)
  {
  }

  lemma InvalidationKeepsProof(rules: Rules, s: State, ref: Option<Ref>, i: nat)
    requires i < |s.records| && Proven(rules, s, s.records[i])
    ensures Proven(rules, InvalidateUi(s, ref), InvalidateUi(s, ref).records[i])
  {
  }

  lemma RestorationKeepsProven(rules: Rules, s: State, f: UiFinding)
    requires f.Restores? && LastProven(rules, s)
    ensures LastProven(rules, ApplyFinding(rules, s, f))
  {
    var t := ApplyFinding(rules, s, f);
    assert SameDuties(s.records, t.records);
    hide LatestWrite, Justified, StillThere, ApplyFinding;
    forall i | 0 <= i < |t.records| && LastOfRef(t.records, i) ensures Proven(rules, t, t.records[i]) {
      assert LastOfRef(s.records, i);
      RestorationKeepsProof(rules, s, f, i);
    }
  }

  lemma RestorationKeepsProof(rules: Rules, s: State, f: UiFinding, i: nat)
    requires f.Restores? && i < |s.records| && Proven(rules, s, s.records[i])
    ensures Proven(rules, ApplyFinding(rules, s, f), ApplyFinding(rules, s, f).records[i])
  {
  }

  lemma {:induction false} FindingsKeepProven(rules: Rules, s: State, findings: seq<UiFinding>, n: nat)
    requires n <= |findings| && LastProven(rules, s)
    ensures LastProven(rules, ApplyFindings(rules, s, findings, n))
  {
    hide LastProven, ApplyFinding, InvalidateUi;
    if n > 0 {
      FindingsKeepProven(rules, s, findings, n - 1);
      var t := ApplyFindings(rules, s, findings, n - 1);
      match findings[n - 1]
      case Contradicts(ref) =>
        InvalidationKeepsProven(rules, t, Some(ref));
        FindingIsInvalidation(rules, t, ref);
      case Restores(_, _, _) => RestorationKeepsProven(rules, t, findings[n - 1]);
    }
  }

  lemma BlockKeepsProven(rules: Rules, s: State)
    requires LastProven(rules, s)
    ensures LastProven(rules, Block(s))
  {
    var t := Block(s);
    assert SameDuties(s.records, t.records);
    hide LatestWrite, Justified, StillThere, Block;
    forall i | 0 <= i < |t.records| && LastOfRef(t.records, i) ensures Proven(rules, t, t.records[i]) {
      assert LastOfRef(s.records, i);
      BlockKeepsProof(rules, s, i);
    }
  }

  lemma BlockKeepsProof(rules: Rules, s: State, i: nat)
    requires i < |s.records| && Proven(rules, s, s.records[i])
    ensures Proven(rules, Block(s), Block(s).records[i])
  {
  }

  /** A record registered although its update was refused is pending: nothing of it is closed. */
  lemma CreatedKeepsProven(rules: Rules, s: State, created: seq<Record>)
    requires LastProven(rules, s)
    ensures LastProven(rules, WithCreated(s, created))
  {
    var t := WithCreated(s, created);
    hide LatestWrite, Justified, StillThere;
    forall i | 0 <= i < |t.records| && LastOfRef(t.records, i) ensures Proven(rules, t, t.records[i]) {
      if i < |s.records| {
        assert LastOfRef(s.records, i);
        WritesAlone(rules, s, t, s.records[i]);
      }
    }
  }

  lemma WritesAlone(rules: Rules, s: State, t: State, r: Record)
    requires SameReceipts(s, t) && t.confirmations == s.confirmations && Proven(rules, s, r)
    ensures Proven(rules, t, r)
  {
  }

  lemma StepKeepsProven(rules: Rules, s: State, e: Event)
    requires LastProven(rules, s)
    ensures LastProven(rules, Step(rules, s, e))
  {
    hide LastProven, Reconcile, Gathered, ApplyFindings, Accepted;
    match e
    case Observing(o) => ObserveSettles(rules, s, o);
    case Updating(r) =>
      if Update(rules, s, r).1 {
        UpdateSettles(rules, s, r);
      } else {
        CreatedKeepsProven(rules, s, r.created);
      }
    case Blocking => BlockKeepsProven(rules, s);
  }

  lemma FreshIsProven(rules: Rules)
    ensures LastProven(rules, FRESH)
  {
  }

  /** After any run, with whatever references, the last record of each reference that is to be
      cleaned up is closed only with a proof. */
  lemma {:induction false} RunProves(rules: Rules, events: seq<Event>, n: nat)
    requires n <= |events|
    ensures LastProven(rules, After(rules, events, n))
  {
    hide LastProven, Step;
    if n == 0 {
      FreshIsProven(rules);
    } else {
      RunProves(rules, events, n - 1);
      StepKeepsProven(rules, After(rules, events, n - 1), events[n - 1]);
    }
  }

  // ---------------------------------------------------------------------------------------
  // No write is forgotten, and request order never changes

  predicate HasWrite(s: State, key: Key) { exists i :: 0 <= i < |s.writes| && s.writes[i].sub.key == key }

  predicate UniqueKeys(order: seq<Key>) { forall i, j :: 0 <= i < j < |order| ==> order[i] != order[j] }

  /** A receipt's sequence is the place of its request in the order; only a full order lacks one. */
  predicate InSequence(s: State, key: Key, sequence: int)
  {
    sequence == IndexOf(s.order, key) && (sequence == -1 ==> |s.order| == MAX_ORDER && s.orderTruncated)
  }

  predicate Sequenced(s: State)
  {
    && UniqueKeys(s.order) && |s.order| <= MAX_ORDER
    && (forall i :: 0 <= i < |s.writes| ==> InSequence(s, s.writes[i].sub.key, s.writes[i].sequence))
    && (forall i :: 0 <= i < |s.receipts| ==> InSequence(s, s.receipts[i].key, s.receipts[i].sequence))
  }

  /** Later states keep the order, and every write or the fact that one was dropped. */
  predicate Remembers(s: State, t: State)
  {
    && s.order <= t.order && (s.orderTruncated ==> t.orderTruncated) && (s.writesTruncated ==> t.writesTruncated)
    && (t.writesTruncated || forall i :: 0 <= i < |s.writes| ==> HasWrite(t, s.writes[i].sub.key))
  }

  predicate SameReceipts(s: State, t: State)
  {
    && t.order == s.order && t.orderTruncated == s.orderTruncated && t.writes == s.writes
    && t.writesTruncated == s.writesTruncated && t.receipts == s.receipts
  }

  lemma SameReceiptsRemember(s: State, t: State)
    requires SameReceipts(s, t)
    ensures Remembers(s, t) && (Sequenced(s) ==> Sequenced(t))
  {
  }

  lemma RemembersTransitive(s: State, t: State, u: State)
    requires Remembers(s, t) && Remembers(t, u)
    ensures Remembers(s, u)
  {
  }

  lemma {:induction false} IndexOfAppended(order: seq<Key>, key: Key, k: Key)
    ensures IndexOf(order + [key], k) == if k in order then IndexOf(order, k) else if k == key then |order| else -1
  {
    var longer := order + [key];
    if order != [] {
      assert longer[1..] == order[1..] + [key];
      if order[0] != k {
        IndexOfAppended(order[1..], key, k);
      }
    }
  }

  lemma StaysInSequence(s: State, key: Key, k: Key, sequence: int)
    requires |s.order| <= MAX_ORDER && InSequence(s, k, sequence)
    ensures InSequence(Ordered(s, key), k, sequence)
  {
    IndexOfAppended(s.order, key, k);
  }

  lemma TakesPlace(s: State, key: Key)
    requires |s.order| <= MAX_ORDER
    ensures var t := Ordered(s, key); InSequence(t, key, IndexOf(t.order, key))
  {
  }

  lemma OrderedRemembers(s: State, key: Key)
    requires Sequenced(s)
    ensures var t := Ordered(s, key);
      Sequenced(t) && Remembers(s, t) && InSequence(t, key, IndexOf(t.order, key))
  {
    TakesPlace(s, key);
    hide InSequence, IndexOf;
    var t := Ordered(s, key);
    forall k, sequence | InSequence(s, k, sequence) ensures InSequence(t, k, sequence) {
      StaysInSequence(s, key, k, sequence);
    }
  }

  lemma StoreWriteRemembers(s: State, w: Write)
    requires Sequenced(s) && InSequence(s, w.sub.key, w.sequence)
    ensures var t := StoreWrite(s, w);
      Sequenced(t) && Remembers(s, t) && (t.writesTruncated || HasWrite(t, w.sub.key))
  {
    hide IndexOf, InvalidateUi;
    var i := PositionOf(s.writes, w.sub.key);
    var writes := if i == |s.writes| then s.writes + [w] else s.writes[i := Merged(s.writes[i], w)];
    var t := s.(writes := writes);
    assert writes[i].sub.key == w.sub.key;
    assert HasWrite(t, w.sub.key);
    forall k | 0 <= k < |s.writes| ensures HasWrite(t, s.writes[k].sub.key) {
      assert writes[k].sub.key == s.writes[k].sub.key;
    }
    assert Sequenced(t);
    CappedRemembers(t);
    hide Sequenced, Remembers, HasWrite, InSequence;
    StoreWriteIsCapped(s, w, t);
    RemembersAll(s, t, StoreWrite(s, w));
  }

  /** Storing a write changes the writes, caps them, and touches nothing else of the receipts. */
  lemma StoreWriteIsCapped(s: State, w: Write, t: State)
    requires var i := PositionOf(s.writes, w.sub.key);
      t == s.(writes := if i == |s.writes| then s.writes + [w] else s.writes[i := Merged(s.writes[i], w)])
    ensures SameReceipts(Capped(t), StoreWrite(s, w))
  {
  }

  lemma RemembersAll(s: State, t: State, u: State)
    requires t.order == s.order && t.orderTruncated == s.orderTruncated && t.writesTruncated == s.writesTruncated
    requires t.receipts == s.receipts && SameReceipts(Capped(t), u)
    requires forall i :: 0 <= i < |s.writes| ==> HasWrite(t, s.writes[i].sub.key)
    requires Sequenced(Capped(t)) && Remembers(t, Capped(t))
    ensures Sequenced(u) && Remembers(s, u) && forall key :: HasWrite(t, key) ==> u.writesTruncated || HasWrite(u, key)
  {
  }

  lemma CappedRemembers(s: State)
    requires Sequenced(s)
    ensures Sequenced(Capped(s)) && Remembers(s, Capped(s))
  {
  }

  lemma StoreReadRemembers(s: State, read: Read)
    requires Sequenced(s) && InSequence(s, read.key, read.sequence)
    ensures Sequenced(StoreRead(s, read)) && Remembers(s, StoreRead(s, read))
  {
    ReadsStored(s, read);
    hide StoreRead, IndexOf;
    var t := StoreRead(s, read);
    forall i | 0 <= i < |t.receipts| ensures InSequence(t, t.receipts[i].key, t.receipts[i].sequence) {
      assert t.receipts[i] in t.receipts;
    }
  }

  /** Storing a read touches neither order nor writes, and adds no other read. */
  lemma ReadsStored(s: State, read: Read)
    ensures var t := StoreRead(s, read);
      && t.order == s.order && t.orderTruncated == s.orderTruncated && t.writes == s.writes
      && t.writesTruncated == s.writesTruncated && forall x :: x in t.receipts ==> x == read || x in s.receipts
  {
    hide FindRead, Contradict;
  }

  lemma ObserveRequestRemembers(s: State, q: Request)
    requires Sequenced(s)
    ensures var t := ObserveRequest(s, q);
      Sequenced(t) && Remembers(s, t) && (q.write.Some? ==> t.writesTruncated || HasWrite(t, q.key))
  {
    hide Sequenced, Remembers, HasWrite, StoreWrite, StoreRead, Sighted, IndexOf, Ordered, InSequence;
    var t := Ordered(s, q.key);
    var sequence := IndexOf(t.order, q.key);
    OrderedRemembers(s, q.key);
    var u := t;
    if q.write.Some? {
      u := StoreWrite(t, WriteOf(q.key, sequence, q.write.value));
      StoreWriteRemembers(t, WriteOf(q.key, sequence, q.write.value));
      OrderOfStoreWrite(t, WriteOf(q.key, sequence, q.write.value));
    } else {
      SameReceiptsRemember(t, t);
    }
    var v := u;
    if q.read.Some? && sequence >= 0 {
      var read := Read(q.key, sequence, q.read.value.time, q.read.value.scope, q.read.value.recordKeys,
                       q.read.value.states, q.read.value.evidence);
      SameOrderInSequence(t, u, q.key, sequence);
      StoreReadRemembers(u, read);
      v := StoreRead(u, read);
    } else {
      SameReceiptsRemember(u, u);
    }
    SameReceiptsRemember(v, ObserveRequest(s, q));
    RemembersTransitive(s, t, u);
    RemembersTransitive(s, u, v);
    RemembersTransitive(s, v, ObserveRequest(s, q));
    if q.write.Some? {
      RemembersTransitive(u, v, ObserveRequest(s, q));
      RemembersWrite(u, ObserveRequest(s, q), q.key);
    }
  }

  lemma RemembersWrite(s: State, t: State, key: Key)
    requires Remembers(s, t) && (s.writesTruncated || HasWrite(s, key))
    ensures t.writesTruncated || HasWrite(t, key)
  {
  }

  lemma OrderOfStoreWrite(s: State, w: Write)
    ensures StoreWrite(s, w).order == s.order && StoreWrite(s, w).orderTruncated == s.orderTruncated
  {
  }

  lemma SameOrderInSequence(s: State, t: State, key: Key, sequence: int)
    requires InSequence(s, key, sequence) && t.order == s.order && t.orderTruncated == s.orderTruncated
    ensures InSequence(t, key, sequence)
  {
  }

  predicate WritesIn(requests: seq<Request>, n: nat, key: Key)
  {
    exists i :: 0 <= i < n <= |requests| && requests[i].key == key && requests[i].write.Some?
  }

  lemma {:induction false} ObserveRequestsRemember(s: State, requests: seq<Request>, n: nat)
    requires n <= |requests| && Sequenced(s)
    ensures var t := ObserveRequests(s, requests, n);
      Sequenced(t) && Remembers(s, t) && forall key :: WritesIn(requests, n, key) ==> t.writesTruncated || HasWrite(t, key)
  {
    hide Sequenced, Remembers, ObserveRequest, HasWrite;
    if n == 0 {
      SameReceiptsRemember(s, s);
    } else {
      var t, u := ObserveRequests(s, requests, n - 1), ObserveRequests(s, requests, n);
      ObserveRequestsRemember(s, requests, n - 1);
      ObserveRequestRemembers(t, requests[n - 1]);
      RemembersTransitive(s, t, u);
      forall key | WritesIn(requests, n, key) ensures u.writesTruncated || HasWrite(u, key) {
        if WritesIn(requests, n - 1, key) {
          RemembersWrite(t, u, key);
        }
      }
    }
  }

  predicate WrittenIn(e: Event, key: Key)
  {
    e.Observing? && WritesIn(e.observation.requests, |e.observation.requests|, key)
  }

  lemma StepRemembers(rules: Rules, s: State, e: Event)
    requires Sequenced(s)
    ensures var t := Step(rules, s, e);
      Sequenced(t) && Remembers(s, t) && forall key :: WrittenIn(e, key) ==> t.writesTruncated || HasWrite(t, key)
  {
    hide Sequenced, Remembers, HasWrite, WritesIn;
    match e
    case Observing(o) =>
      var a := if o.acts then InvalidateUi(s, None) else s;
      var b := ObserveRequests(a, o.requests, |o.requests|);
      SameReceiptsRemember(s, a);
      ObserveRequestsRemember(a, o.requests, |o.requests|);
      RemembersTransitive(s, a, b);
      RestKeepsReceipts(rules, a, o, b);
      SameReceiptsRemember(b, Step(rules, s, e));
      RemembersTransitive(s, b, Step(rules, s, e));
      forall key | WrittenIn(e, key) ensures Step(rules, s, e).writesTruncated || HasWrite(Step(rules, s, e), key) {
        RemembersWrite(b, Step(rules, s, e), key);
      }
    case Updating(r) =>
      hide Accepted;
      SameReceiptsRemember(s, Update(rules, s, r).0);
    case Blocking => SameReceiptsRemember(s, Block(s));
  }

  /** After its requests, an observation touches only records, pending ones and confirmations. */
  lemma RestKeepsReceipts(rules: Rules, s: State, o: Observation, b: State)
    requires b == ObserveRequests(s, o.requests, |o.requests|)
    ensures var c := SettlePending(rules, o.recordOf, b, b.pending, []);
      var d := c.(records := Register(Renamed(c.records, o.names), o.found, |o.found|));
      var t := ReconcileAll(rules, d);
      SameReceipts(b, d) && SameReceipts(b, t) && SameReceipts(b, ApplyFindings(rules, t, o.findings, |o.findings|))
  {
  }

  /** The run has observed a business write under this key within its first `n` events. */
  predicate Recorded(events: seq<Event>, n: nat, key: Key)
  {
    exists i :: 0 <= i < n <= |events| && WrittenIn(events[i], key)
  }

  /** Over any run the request order only grows, every receipt keeps its place in it, and every
      write ever recorded is still there unless the journal says that it dropped some. */
  lemma {:induction false} RunRemembers(rules: Rules, events: seq<Event>, n: nat)
    requires n <= |events|
    ensures var s := After(rules, events, n);
      Sequenced(s) && forall key :: Recorded(events, n, key) ==> s.writesTruncated || HasWrite(s, key)
  {
    hide Sequenced, Remembers, HasWrite, WrittenIn, Step;
    if n == 0 {
      FreshIsSequenced();
    } else {
      var s, e := After(rules, events, n - 1), events[n - 1];
      RunRemembers(rules, events, n - 1);
      StepRemembers(rules, s, e);
      forall key | Recorded(events, n, key)
        ensures After(rules, events, n).writesTruncated || HasWrite(After(rules, events, n), key)
      {
        if Recorded(events, n - 1, key) {
          RemembersWrite(s, Step(rules, s, e), key);
        }
      }
    }
  }

  lemma FreshIsSequenced()
    ensures Sequenced(FRESH)
  {
  }

  /** Replaying old requests never moves them: a place once taken stays. */
  lemma {:induction false} PlacesAreFixed(rules: Rules, events: seq<Event>, m: nat, n: nat)
    requires m <= n <= |events|
    ensures After(rules, events, m).order <= After(rules, events, n).order
    ensures forall key :: key in After(rules, events, m).order ==>
              IndexOf(After(rules, events, n).order, key) == IndexOf(After(rules, events, m).order, key)
    decreases n
  {
    hide Sequenced, Step, IndexOf;
    if m < n {
      PlacesAreFixed(rules, events, m, n - 1);
      RunRemembers(rules, events, n - 1);
      StepRemembers(rules, After(rules, events, n - 1), events[n - 1]);
    }
    var a, b := After(rules, events, m).order, After(rules, events, n).order;
    forall key | key in a ensures IndexOf(b, key) == IndexOf(a, key) {
      IndexInPrefix(a, b, key);
    }
  }

  lemma {:induction false} IndexInPrefix(a: seq<Key>, b: seq<Key>, key: Key)
    requires a <= b && key in a
    ensures IndexOf(b, key) == IndexOf(a, key)
  {
    if a[0] != key {
      assert a[1..] <= b[1..] && key in a[1..];
      IndexInPrefix(a[1..], b[1..], key);
    }
  }

  // ---------------------------------------------------------------------------------------
  // One receipt of each kind for a request

  predicate OnePerKey(s: State)
  {
    && (forall i, j :: 0 <= i < j < |s.writes| ==> s.writes[i].sub.key != s.writes[j].sub.key)
    && (forall i, j :: 0 <= i < j < |s.receipts| ==> s.receipts[i].key != s.receipts[j].key)
  }

  predicate DistinctReads(receipts: seq<Read>)
  {
    forall i, j :: 0 <= i < j < |receipts| ==> receipts[i].key != receipts[j].key
  }

  lemma OneMoreRead(receipts: seq<Read>, read: Read)
    requires DistinctReads(receipts) && forall x :: x in receipts ==> x.key != read.key
    ensures DistinctReads([read] + receipts) && DistinctReads(receipts + [read])
  {
    assert forall j :: 0 <= j < |receipts| ==> receipts[j] in receipts;
  }

  lemma FewerReads(receipts: seq<Read>)
    requires DistinctReads(receipts) && receipts != []
    ensures DistinctReads(receipts[1..]) && forall x :: x in receipts[1..] ==> x.key != receipts[0].key
  {
  }

  lemma {:induction false} WithoutReadDistinct(receipts: seq<Read>, key: Key)
    requires DistinctReads(receipts)
    ensures DistinctReads(WithoutRead(receipts, key))
  {
    hide DistinctReads;
    if receipts != [] {
      FewerReads(receipts);
      WithoutReadDistinct(receipts[1..], key);
      if receipts[0].key != key {
        OneMoreRead(WithoutRead(receipts[1..], key), receipts[0]);
      }
    }
  }

  lemma StoreWriteOnePerKey(s: State, w: Write)
    requires OnePerKey(s)
    ensures OnePerKey(StoreWrite(s, w))
  {
    var i := PositionOf(s.writes, w.sub.key);
    var writes := if i == |s.writes| then s.writes + [w] else s.writes[i := Merged(s.writes[i], w)];
    StoreWriteIsCapped(s, w, s.(writes := writes));
    assert i < |s.writes| ==> writes[i].sub.key == s.writes[i].sub.key;
    hide StoreWrite, InvalidateUi, PositionOf, Merged;
    assert forall k, j :: 0 <= k < j < |writes| ==> writes[k].sub.key != writes[j].sub.key;
  }

  lemma StoreReadOnePerKey(s: State, read: Read)
    requires OnePerKey(s)
    ensures OnePerKey(StoreRead(s, read))
  {
    hide FindRead, Contradict;
    assert DistinctReads(s.receipts);
    WithoutReadDistinct(s.receipts, read.key);
    OneMoreRead(WithoutRead(s.receipts, read.key), read);
    hide WithoutRead;
  }

  lemma ObserveRequestOnePerKey(s: State, q: Request)
    requires OnePerKey(s)
    ensures OnePerKey(ObserveRequest(s, q))
  {
    hide StoreWrite, StoreRead, IndexOf, Sighted;
    var t := Ordered(s, q.key);
    var sequence := IndexOf(t.order, q.key);
    var u := if q.write.Some? then StoreWrite(t, WriteOf(q.key, sequence, q.write.value)) else t;
    if q.write.Some? {
      StoreWriteOnePerKey(t, WriteOf(q.key, sequence, q.write.value));
    }
    if q.read.Some? && sequence >= 0 {
      StoreReadOnePerKey(u, Read(q.key, sequence, q.read.value.time, q.read.value.scope, q.read.value.recordKeys,
                                 q.read.value.states, q.read.value.evidence));
    }
  }

  lemma {:induction false} ObserveRequestsOnePerKey(s: State, requests: seq<Request>, n: nat)
    requires n <= |requests| && OnePerKey(s)
    ensures OnePerKey(ObserveRequests(s, requests, n))
  {
    hide ObserveRequest, OnePerKey;
    if n > 0 {
      ObserveRequestsOnePerKey(s, requests, n - 1);
      ObserveRequestOnePerKey(ObserveRequests(s, requests, n - 1), requests[n - 1]);
    }
  }

  lemma StepOnePerKey(rules: Rules, s: State, e: Event)
    requires OnePerKey(s)
    ensures OnePerKey(Step(rules, s, e))
  {
    hide ObserveRequests, Accepted;
    match e
    case Observing(o) =>
      var a := if o.acts then InvalidateUi(s, None) else s;
      ObserveRequestsOnePerKey(a, o.requests, |o.requests|);
      RestKeepsReceipts(rules, a, o, ObserveRequests(a, o.requests, |o.requests|));
    case _ =>
  }

  /** As long as no request was too many for the order, no two writes and no two reads share a place:
      over any run the ledger of proofs is a function of the requests. */
  lemma {:induction false} RunSeparates(rules: Rules, events: seq<Event>, n: nat)
    requires n <= |events|
    ensures OnePerKey(After(rules, events, n))
    ensures !After(rules, events, n).orderTruncated ==> Separate(After(rules, events, n))
  {
    hide Step, Sequenced;
    if n > 0 {
      RunSeparates(rules, events, n - 1);
      StepOnePerKey(rules, After(rules, events, n - 1), events[n - 1]);
    }
    RunRemembers(rules, events, n);
    SequencedSeparate(After(rules, events, n));
  }

  lemma SequencedSeparate(s: State)
    requires Sequenced(s) && OnePerKey(s)
    ensures !s.orderTruncated ==> Separate(s)
  {
    hide IndexOf;
  }

  // ---------------------------------------------------------------------------------------
  // Closing out

  /** The write is neither refused nor accounted for by a record. */
  predicate Unresolved(rules: Rules, s: State, w: Write)
  {
    !Rejected(rules, w)
    && !exists i :: 0 <= i < |s.records| && s.records[i].cleanup.Some? && rules.matches(w.sub, s.records[i].identity)
                    && (w.sub.how != POST || s.records[i].ownership == CREATED_THIS_RUN)
  }

  /** There is no cleanup notice: nothing is pending, unaccounted for, or lost. */
  predicate NothingOutstanding(rules: Rules, s: State)
  {
    && !s.writesTruncated && s.pending == []
    && (forall i :: 0 <= i < |s.records| && s.records[i].cleanup.Some? ==>
          s.records[i].Is(COMPLETED) || s.records[i].Is(RETAINED))
    && (forall i :: 0 <= i < |s.writes| ==> !Unresolved(rules, s, s.writes[i]))
  }

  /** The write is accounted for by this record: its cleanup is completed with a stored
      confirmation, one of the network justified by the latest write and read, or it is retained
      and a read after its latest write still shows it. */
  ghost predicate ClosedBy(rules: Rules, s: State, w: Write, r: Record)
  {
    && r.cleanup.Some? && rules.matches(w.sub, r.identity)
    && (|| (r.Is(COMPLETED) && exists c :: c in s.confirmations && c.ref == r.ref && (c.source == NETWORK ==> Justified(rules, s, r, c)))
        || (r.Is(RETAINED) && StillThere(rules, s, r)))
  }

  ghost predicate ClosedOut(rules: Rules, s: State, w: Write)
  {
    Rejected(rules, w) || exists i :: 0 <= i < |s.records| && ClosedBy(rules, s, w, s.records[i])
  }

  lemma SettledWriteIsClosedOut(rules: Rules, s: State, k: nat)
    requires Settled(rules, s) && NothingOutstanding(rules, s) && k < |s.writes|
    ensures ClosedOut(rules, s, s.writes[k])
  {
    hide Justified, StillThere;
    var w := s.writes[k];
    assert !Unresolved(rules, s, w);
    if !Rejected(rules, w) {
      var i :| 0 <= i < |s.records| && s.records[i].cleanup.Some? && rules.matches(w.sub, s.records[i].identity)
               && (w.sub.how != POST || s.records[i].ownership == CREATED_THIS_RUN);
      var r := s.records[i];
      assert SettledRecord(rules, s, r);
      LatestIsLatest(rules, s, r);
      assert Counts(rules, s.writes[k], r);
      assert ClosedBy(rules, s, w, r);
    }
  }

  /** The last record with this reference that is to be cleaned up. */
  function LastWith(records: seq<Record>, ref: Ref, n: nat): (i: nat)
    requires n <= |records| && exists k :: 0 <= k < n && records[k].ref == ref && records[k].cleanup.Some?
    ensures i < n && records[i].ref == ref && LastUpTo(records, i, n)
  {
    if records[n - 1].ref == ref && records[n - 1].cleanup.Some? then n - 1 else LastWith(records, ref, n - 1)
  }

  /** The write belongs to a record whose reference is closed with a proof: the last record of that
      reference is retained and still there, or completed, and confirmed if a write concerns it. */
  ghost predicate ClosedByReference(rules: Rules, s: State, w: Write, i: nat, l: nat)
  {
    && i < |s.records| && l < |s.records| && s.records[l].ref == s.records[i].ref && LastOfRef(s.records, l)
    && s.records[i].cleanup.Some? && rules.matches(w.sub, s.records[i].identity)
    && (s.records[l].Is(COMPLETED) || s.records[l].Is(RETAINED)) && Proven(rules, s, s.records[l])
  }

  lemma ProvenWriteIsClosedByReference(rules: Rules, s: State, k: nat)
    requires LastProven(rules, s) && NothingOutstanding(rules, s) && k < |s.writes|
    ensures Rejected(rules, s.writes[k]) || exists i: nat, l: nat :: ClosedByReference(rules, s, s.writes[k], i, l)
  {
    hide Proven, Rejected;
    var w := s.writes[k];
    assert !Unresolved(rules, s, w);
    if !Rejected(rules, w) {
      var i :| 0 <= i < |s.records| && s.records[i].cleanup.Some? && rules.matches(w.sub, s.records[i].identity)
               && (w.sub.how != POST || s.records[i].ownership == CREATED_THIS_RUN);
      var l := LastWith(s.records, s.records[i].ref, |s.records|);
      assert ClosedByReference(rules, s, w, i, l);
    }
  }

  /** What a stored write concerns includes, with a record to be cleaned up, the last such record of
      its reference, as it does when a reference stands for an identity. */
  predicate AlikeByReference(rules: Rules, s: State)
  {
    forall i, l, k :: 0 <= i < |s.records| && 0 <= l < |s.records| && 0 <= k < |s.writes|
        && s.records[i].ref == s.records[l].ref && s.records[i].cleanup.Some? && LastOfRef(s.records, l)
        && rules.matches(s.writes[k].sub, s.records[i].identity)
      ==> rules.matches(s.writes[k].sub, s.records[l].identity)
  }

  lemma ClosedByReferenceIsClosed(rules: Rules, s: State, k: nat, i: nat, l: nat)
    requires AlikeByReference(rules, s) && k < |s.writes| && !Rejected(rules, s.writes[k])
    requires ClosedByReference(rules, s, s.writes[k], i, l)
    ensures ClosedBy(rules, s, s.writes[k], s.records[l])
  {
    hide Justified, StillThere;
    LatestIsLatest(rules, s, s.records[l]);
    assert Counts(rules, s.writes[k], s.records[l]);
  }

  /** Closeout conservation over any run, with whatever references: when it ends without a cleanup
      notice, every write it ever recorded is still known, and was refused or belongs to a record
      whose reference is closed with a proof. */
  lemma CloseoutByReference(rules: Rules, events: seq<Event>, key: Key)
    requires NothingOutstanding(rules, After(rules, events, |events|)) && Recorded(events, |events|, key)
    ensures var s := After(rules, events, |events|);
      exists k :: 0 <= k < |s.writes| && s.writes[k].sub.key == key
        && (Rejected(rules, s.writes[k]) || exists i: nat, l: nat :: ClosedByReference(rules, s, s.writes[k], i, l))
  {
    hide After, Recorded, LastProven, ClosedByReference, Sequenced, Rejected;
    var s := After(rules, events, |events|);
    RunRemembers(rules, events, |events|);
    RunProves(rules, events, |events|);
    var k :| 0 <= k < |s.writes| && s.writes[k].sub.key == key;
    ProvenWriteIsClosedByReference(rules, s, k);
  }

  /** Closeout conservation: when a run ends without a cleanup notice, every write it ever recorded
      is still known, and was refused or belongs to a record whose own cleanup is proven. */
  lemma CloseoutConserves(rules: Rules, events: seq<Event>, key: Key)
    requires var s := After(rules, events, |events|); NothingOutstanding(rules, s) && AlikeByReference(rules, s)
    requires Recorded(events, |events|, key)
    ensures var s := After(rules, events, |events|);
      exists k :: 0 <= k < |s.writes| && s.writes[k].sub.key == key && ClosedOut(rules, s, s.writes[k])
  {
    hide After, Recorded, ClosedByReference, ClosedBy, Rejected, AlikeByReference;
    var s := After(rules, events, |events|);
    CloseoutByReference(rules, events, key);
    var k :| 0 <= k < |s.writes| && s.writes[k].sub.key == key
             && (Rejected(rules, s.writes[k]) || exists i: nat, l: nat :: ClosedByReference(rules, s, s.writes[k], i, l));
    if !Rejected(rules, s.writes[k]) {
      var i: nat, l: nat :| ClosedByReference(rules, s, s.writes[k], i, l);
      ClosedByReferenceIsClosed(rules, s, k, i, l);
      assert l < |s.records| by { InLedger(rules, s, s.writes[k], i, l); }
    }
  }

  lemma InLedger(rules: Rules, s: State, w: Write, i: nat, l: nat)
    requires ClosedByReference(rules, s, w, i, l)
    ensures l < |s.records|
  {
  }

  // ---------------------------------------------------------------------------------------
  // Two records under one reference

  /** Requests for one record of one resource, told apart by the account in their body: 0 is the
      record's own, 1 and 2 are aliases of it. The one of alias 1 sends the configuration 0. */
  function AliasRules(): Rules
  {
    Rules((x: Submission, identity: Identity) => x.request == Some(0) || x.request == Some(identity),
          (x: Submission, p: Pending) => x.how == POST,
          (u: Url, identity: Identity, name: Option<Name>) => true, (u: Url, identity: Identity) => true,
          (b: Option<Body>) => true, (b: Option<Body>) => if b == Some(1) then Some(0) else None)
  }

  /** The record as a list asked for before the creation shows it, with alias 1. */
  function Baseline(): Record { Record("record", 0, 1, None, EXISTING, Some(0), TO_CLEAN_UP, {0}) }

  /** The created record, known from a later list with alias 2. */
  function CreatedRecord(): Record { Record("record", 0, 2, None, CREATED_THIS_RUN, None, TO_CLEAN_UP, {0}) }

  function Answered(how: Method, account: Body, confirmed: bool): Receipt
  {
    Receipt(how, 0, None, if confirmed then Some(200) else None, confirmed, Some(account), None, {0})
  }

  function Listed(found: bool): ReadData
  {
    ReadData(None, 0, if found then {0} else {}, if found then map[0 := 0] else map[], {0})
  }

  function Writing(key: Key, receipt: Receipt): Request { Request(key, Some(receipt), None, []) }

  function Reading(key: Key, found: bool): Request { Request(key, None, Some(Listed(found)), if found then [0] else []) }

  function OpeningRequests(): seq<Request> { [Request("list", None, None, []), Reading("query", false)] }

  function FirstRequests(): seq<Request>
  {
    [Writing("create", Answered(POST, 0, false)), Reading("list", true), Writing("restore", Answered(PUT, 1, true)),
     Reading("second list", true)]
  }

  function SecondRequests(): seq<Request>
  {
    [Writing("create", Answered(POST, 0, true)), Writing("deletion", Answered(DELETE, 2, true)),
     Reading("final list", false)]
  }

  /** A list is asked for before a creation is submitted and answered after it, so that it shows the
      record both as an existing one and as one that awaits its receipt. A write under one alias
      restores the existing one, which registers it. Then the creation is confirmed, and the record is
      deleted under the other alias. */
  function SharedRun(): seq<Event>
  {
    var recordOf := (p: Pending) => CreatedRecord();
    [Observing(Observation(false, OpeningRequests(), recordOf, map[], [], [])),
     Observing(Observation(false, FirstRequests(), recordOf, map[], [Baseline()], [])),
     Observing(Observation(false, SecondRequests(), recordOf, map[], [], []))]
  }

  function Submitted(): Write { WriteOf("create", 2, Answered(POST, 0, false)) }
  function Created(): Write { WriteOf("create", 2, Answered(POST, 0, true)) }
  function Restored(): Write { WriteOf("restore", 3, Answered(PUT, 1, true)) }
  function Deleted(): Write { WriteOf("deletion", 5, Answered(DELETE, 2, true)) }

  function ReadAt(key: Key, sequence: nat, found: bool): Read
  {
    var d := Listed(found);
    Read(key, sequence, d.time, d.scope, d.recordKeys, d.states, d.evidence)
  }

  function FirstReads(): seq<Read> { [ReadAt("query", 1, false), ReadAt("list", 0, true), ReadAt("second list", 4, true)] }

  function FirstOrder(): seq<Key> { ["list", "query", "create", "restore", "second list"] }

  function Opened(): State { FRESH.(order := ["list", "query"], receipts := [ReadAt("query", 1, false)]) }

  function FirstObserved(): State
  {
    State(FirstOrder(), false, [Submitted(), Restored()], false, FirstReads(), [], [0], [])
  }

  function RestorationOf(r: Record): Record { r.(cleanup := Some(Cleanup(COMPLETED, Some(RESTORED), None))) }

  function DeletionOf(r: Record): Record { r.(cleanup := Some(Cleanup(COMPLETED, Some(DELETED), None))) }

  function RestoredProof(): Confirmation { Confirmation(NETWORK, "record", "restore", "second list", {0}) }

  function DeletedProof(): Confirmation { Confirmation(NETWORK, "record", "deletion", "final list", {0}) }

  function FirstEnd(): State
  {
    FirstObserved().(records := [RestorationOf(Baseline())], confirmations := [RestoredProof()])
  }

  function SecondObserved(): State
  {
    FirstEnd().(order := FirstOrder() + ["deletion", "final list"], writes := [Created(), Restored(), Deleted()],
                receipts := FirstReads() + [ReadAt("final list", 6, false)])
  }

  function SharedEnd(): State
  {
    SecondObserved().(records := [RestorationOf(Baseline()), DeletionOf(CreatedRecord())], pending := [],
                      confirmations := [DeletedProof()])
  }

  lemma {:induction false} AllSurvive(cs: seq<Confirmation>, ref: Option<Ref>)
    requires forall c :: c in cs ==> c.source == NETWORK
    ensures Surviving(cs, ref) == cs
  {
    if cs != [] {
      AllSurvive(cs[..|cs| - 1], ref);
    }
  }

  lemma NothingInvalidated(s: State, ref: Option<Ref>)
    requires NoUi(s)
    ensures InvalidateUi(s, ref) == s
  {
    AllSurvive(s.confirmations, ref);
    assert ReopenUnproven(s.records, s.confirmations, ref) == s.records;
  }

  lemma NewWriteObserved(s: State, q: Request, w: Write)
    requires NoUi(s) && q.key !in s.order && |s.order| < MAX_ORDER && |s.writes| < MAX_RECEIPTS
    requires q.write.Some? && q.read.None? && q.sightings == [] && !HasWrite(s, q.key)
    requires w == WriteOf(q.key, |s.order|, q.write.value)
    ensures ObserveRequest(s, q) == s.(order := s.order + [q.key], writes := s.writes + [w])
  {
    IndexOfAppended(s.order, q.key, q.key);
    var t := Ordered(s, q.key);
    assert PositionOf(t.writes, q.key) == |t.writes|;
    NothingInvalidated(t.(writes := t.writes + [w]), None);
    hide InvalidateUi, IndexOf, PositionOf;
  }

  lemma {:induction false} NoReadDropped(receipts: seq<Read>, key: Key)
    requires forall x :: x in receipts ==> x.key != key
    ensures WithoutRead(receipts, key) == receipts
  {
    if receipts != [] {
      NoReadDropped(receipts[1..], key);
    }
  }

  lemma {:induction false} NothingContradicted(s: State, read: Read, n: nat)
    requires n <= |s.records| && forall r :: r in s.records ==> !ContradictedBy(r, read)
    ensures Contradict(s, read, n) == s
  {
    if n > 0 {
      NothingContradicted(s, read, n - 1);
    }
  }

  lemma NewReadObserved(s: State, q: Request, read: Read)
    requires |s.order| < MAX_ORDER && |s.receipts| < MAX_RECEIPTS && q.write.None? && q.read.Some?
    requires var d := q.read.value;
      read == Read(q.key, IndexOf(Ordered(s, q.key).order, q.key), d.time, d.scope, d.recordKeys, d.states, d.evidence)
    requires (forall x :: x in s.receipts ==> x.key != q.key) && forall r :: r in s.records ==> !ContradictedBy(r, read)
    ensures ObserveRequest(s, q)
         == Ordered(s, q.key).(receipts := s.receipts + [read], pending := Sighted(s.pending, q.sightings, |q.sightings|))
  {
    NoReadDropped(s.receipts, q.key);
    NothingContradicted(Ordered(s, q.key), read, |s.records|);
    hide IndexOf, Sighted, Contradict, WithoutRead, ContradictedBy, FindRead;
  }

  lemma OpeningObserved()
    ensures ObserveRequests(FRESH, OpeningRequests(), 2) == Opened()
  {
    var requests := OpeningRequests();
    var a := FRESH.(order := ["list"]);
    assert ObserveRequest(FRESH, requests[0]) == a;
    assert ObserveRequests(FRESH, requests, 1) == a by { assert ObserveRequests(FRESH, requests, 0) == FRESH; }
    IndexOfAppended(a.order, "query", "query");
    hide ObserveRequest, IndexOf;
    NewReadObserved(a, requests[1], ReadAt("query", 1, false));
  }

  lemma OpeningEnds()
    ensures After(AliasRules(), SharedRun(), 1) == Opened()
  {
    var o, b := SharedRun()[0].observation, Opened();
    OpeningObserved();
    assert |OpeningRequests()| == 2;
    assert SettlePending(AliasRules(), o.recordOf, b, [], []) == b;
    assert Reconcile(AliasRules(), b, 0) == b;
    assert b.records + [] == b.records;
    hide ObserveRequests, Gathered, SettlePending, AliasRules, OpeningRequests, FirstRequests, SecondRequests, Opened, Reconcile;
    PlainlyGathered(AliasRules(), FRESH, o, b, b);
    assert After(AliasRules(), SharedRun(), 0) == FRESH;
  }

  lemma SubmissionObserved()
    ensures ObserveRequest(Opened(), FirstRequests()[0])
         == FRESH.(order := ["list", "query", "create"], writes := [Submitted()], receipts := FirstReads()[..1])
  {
    assert FirstReads()[..1] == Opened().receipts;
    hide ObserveRequest, ReadAt;
    NewWriteObserved(Opened(), Writing("create", Answered(POST, 0, false)), Submitted());
  }

  lemma ListIsObserved(c: State)
    requires c == FRESH.(order := ["list", "query", "create"], writes := [Submitted()], receipts := FirstReads()[..1])
    ensures ObserveRequest(c, FirstRequests()[1]) == c.(receipts := FirstReads()[..2], pending := [0])
  {
    assert IndexOf(c.order, "list") == 0;
    assert FirstRequests()[1] == Reading("list", true);
    hide ObserveRequest, IndexOf, FirstRequests;
    NewReadObserved(c, Reading("list", true), ReadAt("list", 0, true));
  }

  lemma RestorationIsObserved(d: State)
    requires d == FRESH.(order := ["list", "query", "create"], writes := [Submitted()], receipts := FirstReads()[..2],
                         pending := [0])
    ensures ObserveRequest(d, FirstRequests()[2]) == d.(order := FirstOrder()[..4], writes := [Submitted(), Restored()])
  {
    hide ObserveRequest, FirstReads;
    NewWriteObserved(d, Writing("restore", Answered(PUT, 1, true)), Restored());
  }

  lemma SecondListIsObserved(e: State)
    requires e == FirstObserved().(order := FirstOrder()[..4], receipts := FirstReads()[..2])
    ensures ObserveRequest(e, FirstRequests()[3]) == FirstObserved()
  {
    var q, read := Reading("second list", true), ReadAt("second list", 4, true);
    assert FirstReads()[..2] + [read] == FirstReads();
    assert Sighted([0], [0], 1) == [0];
    SecondListPlaced(e.order);
    hide ObserveRequest, IndexOf, Sighted, Submitted, Restored, FirstOrder;
    NewReadObserved(e, q, read);
  }

  lemma SecondListPlaced(order: seq<Key>)
    requires order == FirstOrder()[..4]
    ensures |order| == 4 && "second list" !in order
    ensures order + ["second list"] == FirstOrder() && IndexOf(FirstOrder(), "second list") == 4
  {
    IndexOfAppended(order, "second list", "second list");
    hide IndexOf;
    assert order + ["second list"] == FirstOrder();
  }

  lemma FirstHalf()
    ensures ObserveRequests(Opened(), FirstRequests(), 2)
         == FRESH.(order := ["list", "query", "create"], writes := [Submitted()], receipts := FirstReads()[..2], pending := [0])
  {
    var requests := FirstRequests();
    SubmissionObserved();
    assert ObserveRequests(Opened(), requests, 0) == Opened();
    assert |requests| == 4;
    hide ObserveRequest, FirstReads, Submitted, Answered, Listed, Opened, FirstRequests;
    ListIsObserved(ObserveRequests(Opened(), requests, 1));
  }

  lemma FirstIsObserved()
    ensures ObserveRequests(Opened(), FirstRequests(), 4) == FirstObserved()
  {
    var requests := FirstRequests();
    FirstHalf();
    hide ObserveRequest, FirstReads, Submitted, Restored, Answered, Listed, Opened;
    RestorationIsObserved(ObserveRequests(Opened(), requests, 2));
    SecondListIsObserved(ObserveRequests(Opened(), requests, 3));
  }

  lemma PlainlyGathered(rules: Rules, s: State, o: Observation, b: State, c: State)
    requires !o.acts && o.names == map[] && |o.found| <= 1 && |c.records| < MAX_RECORDS
    requires o.found != [] ==> o.found[0].cleanup == TO_CLEAN_UP && !HasRef(c.records, o.found[0].ref)
    requires b == ObserveRequests(s, o.requests, |o.requests|) && c == SettlePending(rules, o.recordOf, b, b.pending, [])
    ensures Gathered(rules, s, o) == c.(records := c.records + o.found)
  {
    hide ObserveRequests, SettlePending;
    assert Renamed(c.records, o.names) == c.records;
    assert Register(c.records, o.found, 0) == c.records;
    if o.found != [] {
      assert Register(c.records, o.found, 1) == c.records + [o.found[0].(cleanup := TO_CLEAN_UP)];
    }
  }

  /** One pending record, before and after its creation is confirmed. */
  lemma PendingSettled(rules: Rules, recordOf: Pending -> Record, s: State, p: Pending, w: Write)
    requires s.pending == [p] && |s.records| < MAX_RECORDS && Creation(rules, s.writes, p, |s.writes|) == Some(w)
    requires w.confirmed ==> Successful(rules, w)
    requires recordOf(p).ownership == CREATED_THIS_RUN && recordOf(p).cleanup == TO_CLEAN_UP
    requires w.evidence <= recordOf(p).evidence
    ensures SettlePending(rules, recordOf, s, [p], [])
         == if w.confirmed then s.(records := s.records + [recordOf(p)], pending := []) else s
  {
    hide Creation, Successful;
    assert [p][1..] == [] && [] + [p] == [p];
    assert w.evidence + recordOf(p).evidence == recordOf(p).evidence;
    if w.confirmed {
      var t := s.(records := s.records + [recordOf(p)]);
      assert SettlePending(rules, recordOf, t, [], []) == t.(pending := []);
    } else {
      assert SettlePending(rules, recordOf, s, [], [p]) == s;
    }
  }

  lemma FirstAwaits(recordOf: Pending -> Record)
    requires recordOf(0) == CreatedRecord()
    ensures SettlePending(AliasRules(), recordOf, FirstObserved(), [0], []) == FirstObserved()
  {
    var rules, b := AliasRules(), FirstObserved();
    assert Creation(rules, b.writes, 0, 1) == Some(Submitted());
    hide SettlePending;
    PendingSettled(rules, recordOf, b, 0, Submitted());
  }

  lemma FirstGathered()
    ensures Gathered(AliasRules(), Opened(), SharedRun()[1].observation) == FirstObserved().(records := [Baseline()])
  {
    var o, b := SharedRun()[1].observation, FirstObserved();
    FirstIsObserved();
    FirstAwaits(o.recordOf);
    assert |FirstRequests()| == 4;
    hide ObserveRequests, Gathered, SettlePending, AliasRules, FirstRequests, SecondRequests, FirstReads, FirstOrder;
    PlainlyGathered(AliasRules(), Opened(), o, b, b);
  }

  /** Whatever its status, the existing record is proven restored. */
  lemma RestorationProven(s: State, r: Record)
    requires !s.orderTruncated && |s.writes| >= 2 && s.writes[1] == Restored() && s.writes[0] in {Submitted(), Created()}
    requires s.writes[2..] in {[], [Deleted()]}
    requires s.receipts in {FirstReads(), FirstReads() + [ReadAt("final list", 6, false)]}
    requires r == Baseline().(cleanup := r.cleanup)
    ensures NetworkProof(AliasRules(), s, r) == Some(Proof(Restored(), ReadAt("second list", 4, true)))
  {
    var rules, w, second := AliasRules(), Restored(), ReadAt("second list", 4, true);
    assert Latest(rules, s.writes, r, 1) == Some(s.writes[0]) by { assert Latest(rules, s.writes, r, 0) == None; }
    assert Latest(rules, s.writes, r, 2) == Some(w);
    assert LatestWrite(rules, s, r) == Some(w);
    hide Latest;
    RestorationIsRead(s, r);
  }

  lemma RestorationIsRead(s: State, r: Record)
    requires s.receipts in {FirstReads(), FirstReads() + [ReadAt("final list", 6, false)]}
    requires r == Baseline().(cleanup := r.cleanup)
    ensures RecentRead(AliasRules(), Restoration, s, r, Restored()) == Some(ReadAt("second list", 4, true))
  {
    var rules, w, all := AliasRules(), Restored(), s.receipts;
    assert Recent(rules, Restoration, all, r, w, 0) == None;
    assert Recent(rules, Restoration, all, r, w, 1) == None;
    assert Recent(rules, Restoration, all, r, w, 2) == None;
    assert Recent(rules, Restoration, all, r, w, 3) == Some(ReadAt("second list", 4, true));
  }

  lemma DeletionProven(s: State)
    requires s == SecondObserved().(records := s.records, confirmations := s.confirmations, pending := s.pending)
    ensures NetworkProof(AliasRules(), s, CreatedRecord()) == Some(Proof(Deleted(), ReadAt("final list", 6, false)))
  {
    var rules, r := AliasRules(), CreatedRecord();
    assert Latest(rules, s.writes, r, 1) == Some(Created()) by { assert Latest(rules, s.writes, r, 0) == None; }
    assert Latest(rules, s.writes, r, 2) == Some(Created());
    assert LatestWrite(rules, s, r) == Some(Deleted());
    hide Latest;
    DeletionIsRead(s, r);
  }

  lemma DeletionIsRead(s: State, r: Record)
    requires s.receipts == FirstReads() + [ReadAt("final list", 6, false)] && r == CreatedRecord()
    ensures RecentRead(AliasRules(), Absence, s, r, Deleted()) == Some(ReadAt("final list", 6, false))
  {
    var rules, w, all := AliasRules(), Deleted(), s.receipts;
    assert Recent(rules, Absence, all, r, w, 0) == None;
    assert Recent(rules, Absence, all, r, w, 1) == None;
    assert Recent(rules, Absence, all, r, w, 2) == None;
    assert Recent(rules, Absence, all, r, w, 3) == None;
  }

  lemma {:induction false} NoneStay(cs: seq<Confirmation>, ref: Ref)
    requires forall c :: c in cs ==> c.ref == ref
    ensures Filtered(cs, ref, true) == []
  {
    if cs != [] {
      NoneStay(cs[..|cs| - 1], ref);
    }
  }

  /** Reconciling a record with a network proof, where all confirmations are of its reference. */
  lemma ReconciledByProof(rules: Rules, s: State, i: nat, proof: Proof)
    requires i < |s.records| && s.records[i].cleanup.Some? && !s.records[i].Is(RETAINED)
    requires NetworkProof(rules, s, s.records[i]) == Some(proof)
    requires forall c :: c in s.confirmations ==> c.ref == s.records[i].ref
    ensures var r := s.records[i];
      var t := ReconcileRecord(rules, s, i);
      t.confirmations == [ConfirmationOf(r, proof)]
      && t.records == s.records[i := r.(
           cleanup := Some(Cleanup(COMPLETED, Some(if proof.write.sub.how == DELETE then DELETED else RESTORED), None)),
           evidence := r.evidence + proof.write.evidence + proof.read.evidence)]
  {
    hide NetworkProof;
    NoneStay(s.confirmations, s.records[i].ref);
  }

  lemma FirstReconciled()
    ensures ReconcileAll(AliasRules(), FirstObserved().(records := [Baseline()])) == FirstEnd()
  {
    var rules, g := AliasRules(), FirstObserved().(records := [Baseline()]);
    var evidence: set<EvidenceRef> := {0};
    assert g.writes[2..] == [];
    RestorationProven(g, Baseline());
    hide NetworkProof, AliasRules;
    ReconciledByProof(rules, g, 0, Proof(Restored(), ReadAt("second list", 4, true)));
    assert evidence + evidence + evidence == evidence;
    hide ReconcileRecord, FirstReads, FirstOrder;
    assert ReconcileRecord(rules, g, 0) == FirstEnd();
    assert Reconcile(rules, g, 0) == g;
  }

  lemma FirstEnds()
    ensures After(AliasRules(), SharedRun(), 2) == FirstEnd()
  {
    OpeningEnds();
    FirstGathered();
    FirstReconciled();
    hide Gathered, Reconcile, AliasRules, FirstObserved, FirstEnd, Opened, OpeningRequests, FirstRequests,
         SecondRequests, Baseline, CreatedRecord;
  }

  lemma ConfirmationObserved()
    ensures ObserveRequest(FirstEnd(), SecondRequests()[0]) == FirstEnd().(writes := [Created(), Restored()])
  {
    var s, q := FirstEnd(), SecondRequests()[0];
    assert IndexOf(s.order, "create") == 2 by { assert s.order[2] == "create"; }
    assert PositionOf(s.writes, "create") == 0;
    var t := s.(writes := s.writes[0 := Created()]);
    NothingInvalidated(t, None);
    hide IndexOf, PositionOf, InvalidateUi, Baseline, FirstReads, FirstOrder;
    assert Merged(Submitted(), Created()) == Created();
    assert StoreWrite(s, Created()) == t;
  }

  lemma DeletionObserved(b: State)
    requires b == FirstEnd().(writes := [Created(), Restored()])
    ensures ObserveRequest(b, SecondRequests()[1])
         == b.(order := FirstOrder() + ["deletion"], writes := [Created(), Restored(), Deleted()])
  {
    hide ObserveRequest, FirstReads, Baseline;
    NewWriteObserved(b, Writing("deletion", Answered(DELETE, 2, true)), Deleted());
  }

  lemma FinalListObserved(c: State)
    requires c == SecondObserved().(order := FirstOrder() + ["deletion"], receipts := FirstReads())
    ensures ObserveRequest(c, SecondRequests()[2]) == SecondObserved()
  {
    var q, read := Reading("final list", false), ReadAt("final list", 6, false);
    FinalListPlaced(c.order);
    assert Sighted([0], [], 0) == [0];
    hide ObserveRequest, IndexOf, Sighted, Restored, Deleted, Created, FirstOrder;
    NewReadObserved(c, q, read);
  }

  lemma FinalListPlaced(order: seq<Key>)
    requires order == FirstOrder() + ["deletion"]
    ensures |order| == 6 && "final list" !in order && order + ["final list"] == FirstOrder() + ["deletion", "final list"]
    ensures IndexOf(FirstOrder() + ["deletion", "final list"], "final list") == 6
  {
    IndexOfAppended(order, "final list", "final list");
    hide IndexOf;
    assert order + ["final list"] == FirstOrder() + ["deletion", "final list"];
  }

  lemma SecondIsObserved()
    ensures ObserveRequests(FirstEnd(), SecondRequests(), 3) == SecondObserved()
  {
    var s, requests := FirstEnd(), SecondRequests();
    ConfirmationObserved();
    assert ObserveRequests(s, requests, 0) == s;
    hide ObserveRequest, Created, Restored, Deleted, ReadAt, FirstOrder, FirstReads, Baseline;
    DeletionObserved(ObserveRequests(s, requests, 1));
    FinalListObserved(ObserveRequests(s, requests, 2));
  }

  lemma SecondSettled(recordOf: Pending -> Record)
    requires recordOf(0) == CreatedRecord()
    ensures SettlePending(AliasRules(), recordOf, SecondObserved(), [0], [])
         == SecondObserved().(records := [RestorationOf(Baseline()), CreatedRecord()], pending := [])
  {
    var rules, b := AliasRules(), SecondObserved();
    assert Creation(rules, b.writes, 0, 1) == Some(Created()) == Creation(rules, b.writes, 0, 2);
    hide SettlePending;
    PendingSettled(rules, recordOf, b, 0, Created());
  }

  lemma SecondGathered()
    ensures Gathered(AliasRules(), FirstEnd(), SharedRun()[2].observation)
         == SecondObserved().(records := [RestorationOf(Baseline()), CreatedRecord()], pending := [])
  {
    var o, b := SharedRun()[2].observation, SecondObserved();
    SecondIsObserved();
    SecondSettled(o.recordOf);
    assert |SecondRequests()| == 3;
    hide ObserveRequests, Gathered, SettlePending, AliasRules, FirstRequests, SecondRequests, FirstReads, FirstOrder;
    PlainlyGathered(AliasRules(), FirstEnd(), o, b, b.(records := [RestorationOf(Baseline()), CreatedRecord()], pending := []));
  }

  lemma RestorationAgain(g: State)
    requires g == SecondObserved().(records := [RestorationOf(Baseline()), CreatedRecord()], pending := [])
    ensures ReconcileRecord(AliasRules(), g, 0) == g.(confirmations := [RestoredProof()])
  {
    var evidence: set<EvidenceRef> := {0};
    assert g.writes[2..] == [Deleted()];
    RestorationProven(g, g.records[0]);
    hide NetworkProof, AliasRules;
    ReconciledByProof(AliasRules(), g, 0, Proof(Restored(), ReadAt("second list", 4, true)));
    assert evidence + evidence + evidence == evidence;
    hide ReconcileRecord, FirstReads, FirstOrder;
  }

  lemma DeletionReconciled(t: State)
    requires t == SecondObserved().(records := [RestorationOf(Baseline()), CreatedRecord()], pending := [],
                                    confirmations := [RestoredProof()])
    ensures ReconcileRecord(AliasRules(), t, 1) == SharedEnd()
  {
    var evidence: set<EvidenceRef> := {0};
    DeletionProven(t);
    hide NetworkProof, AliasRules;
    ReconciledByProof(AliasRules(), t, 1, Proof(Deleted(), ReadAt("final list", 6, false)));
    assert evidence + evidence + evidence == evidence;
    hide ReconcileRecord, FirstReads, FirstOrder;
  }

  lemma SecondReconciled(g: State)
    requires g == SecondObserved().(records := [RestorationOf(Baseline()), CreatedRecord()], pending := [])
    ensures ReconcileAll(AliasRules(), g) == SharedEnd()
  {
    var rules := AliasRules();
    RestorationAgain(g);
    DeletionReconciled(g.(confirmations := [RestoredProof()]));
    hide ReconcileRecord, AliasRules, FirstReads, FirstOrder, Baseline, CreatedRecord;
    assert Reconcile(rules, g, 0) == g;
    assert Reconcile(rules, g, 1) == ReconcileRecord(rules, g, 0);
  }

  lemma SharedRunEnds()
    ensures After(AliasRules(), SharedRun(), 3) == SharedEnd()
  {
    FirstEnds();
    SecondGathered();
    SecondReconciled(Gathered(AliasRules(), FirstEnd(), SharedRun()[2].observation));
    hide Gathered, Reconcile, AliasRules, SecondObserved, FirstEnd, SharedEnd, FirstRequests, SecondRequests, Baseline, CreatedRecord;
  }

  lemma NothingLeft()
    ensures NothingOutstanding(AliasRules(), SharedEnd())
  {
    var rules, s := AliasRules(), SharedEnd();
    hide ReadAt, FirstReads, FirstOrder;
    assert s.records[0].Is(COMPLETED) && s.records[1].Is(COMPLETED);
    forall k | 0 <= k < 3 ensures !Unresolved(rules, s, s.writes[k]) {
      assert rules.matches(s.writes[k].sub, s.records[if k == 1 then 0 else 1].identity);
    }
  }

  lemma RestorationUnjustified()
    ensures !Justified(AliasRules(), SharedEnd(), RestorationOf(Baseline()), DeletedProof())
  {
    var rules, s := AliasRules(), SharedEnd();
    forall w | IsLatest(rules, s, RestorationOf(Baseline()), w) ensures w.sub.key != "deletion" {
      assert w in s.writes;
    }
  }

  lemma RestorationNotClosed()
    ensures !ClosedOut(AliasRules(), SharedEnd(), Restored())
  {
    RestorationUnjustified();
    hide Justified, StillThere, ReadAt, FirstReads, FirstOrder;
    var rules, s, w := AliasRules(), SharedEnd(), Restored();
    assert !Rejected(rules, w) && !rules.matches(w.sub, s.records[1].identity);
    assert !ClosedBy(rules, s, w, s.records[0]);
  }

  /** Why one reference must stand for one identity: a run without a notice, in which the restoration
      of one of two records under one reference has lost its confirmation to the deletion of the other. */
  lemma SharedReferenceLosesConfirmation()
    ensures var s := After(AliasRules(), SharedRun(), 3);
      && NothingOutstanding(AliasRules(), s) && Recorded(SharedRun(), 3, "restore")
      && (forall k :: 0 <= k < |s.writes| && s.writes[k].sub.key == "restore" ==> !ClosedOut(AliasRules(), s, s.writes[k]))
      && !Settled(AliasRules(), s)
  {
    SharedRunEnds();
    NothingLeft();
    RestorationNotClosed();
    RestorationUnjustified();
    RestorationRecorded();
    hide After, NothingOutstanding, Justified, ClosedOut, AliasRules, LatestWrite, StillThere, ReadAt, FirstReads, FirstOrder,
         Recorded, SharedRun;
    var s := SharedEnd();
    assert DeletedProof() in s.confirmations;
    assert !SettledRecord(AliasRules(), s, s.records[0]);
  }

  lemma RestorationRecorded()
    ensures Recorded(SharedRun(), 3, "restore")
  {
    assert FirstRequests()[2].key == "restore";
    assert WritesIn(FirstRequests(), 4, "restore");
    assert WrittenIn(SharedRun()[1], "restore");
  }

  /** A write that no read follows keeps its record open, unless the UI vouches for it. */
  lemma UnreadWriteKeepsOpen(rules: Rules, s: State, i: nat, w: Write)
    requires i < |s.records| && SettledRecord(rules, s, s.records[i])
    requires w in s.writes && Counts(rules, w, s.records[i])
    requires s.orderTruncated || forall x :: x in s.receipts ==> x.sequence <= w.sequence
    requires forall c :: c in s.confirmations && c.ref == s.records[i].ref ==> c.source == NETWORK
    ensures !s.records[i].Is(COMPLETED) && !s.records[i].Is(RETAINED)
  {
    var r := s.records[i];
    LatestIsLatest(rules, s, r);
    hide Counts, LatestWrite;
  }

  predicate NoUi(s: State) { forall c :: c in s.confirmations ==> c.source == NETWORK }

  /** A read that shows the record, or would show it if it were there. */
  predicate Shows(rules: Rules, d: ReadData, r: Record) { r.key in d.recordKeys || rules.covers(d.scope, r.identity, r.name) }

  predicate ReadShows(rules: Rules, x: Read, r: Record) { r.key in x.recordKeys || rules.covers(x.scope, r.identity, r.name) }

  /** Nothing has been confirmed in the UI, and no read after the request shows the record. */
  predicate UnreadSince(rules: Rules, s: State, key: Key, r: Record)
  {
    NoUi(s)
    && (s.orderTruncated
        || (key in s.order && forall x :: x in s.receipts ==> x.sequence <= IndexOf(s.order, key) || !ReadShows(rules, x, r)))
  }

  lemma NewWriteIsStored(s: State, w: Write)
    requires !HasWrite(s, w.sub.key)
    ensures var t := StoreWrite(s, w);
      NoUi(t) && t.receipts == s.receipts && t.order == s.order && t.orderTruncated == s.orderTruncated
  {
    var i := PositionOf(s.writes, w.sub.key);
    assert i == |s.writes|;
    hide PositionOf, ReopenUnproven;
  }

  lemma StoreWriteAddsNoUi(s: State, w: Write)
    requires NoUi(s)
    ensures var t := StoreWrite(s, w);
      NoUi(t) && t.receipts == s.receipts && t.order == s.order && t.orderTruncated == s.orderTruncated
  {
    hide PositionOf, ReopenUnproven, Merged;
  }

  lemma {:induction false} ContradictAddsNoUi(s: State, read: Read, n: nat)
    requires n <= |s.records| && NoUi(s)
    ensures NoUi(Contradict(s, read, n))
  {
    hide ReopenUnproven;
    if n > 0 {
      ContradictAddsNoUi(s, read, n - 1);
    }
  }

  lemma StoreReadStores(s: State, read: Read)
    requires NoUi(s)
    ensures var t := StoreRead(s, read);
      NoUi(t) && t.order == s.order && t.orderTruncated == s.orderTruncated
      && forall x :: x in t.receipts ==> x == read || x in s.receipts
  {
    hide Contradict, FindRead;
    ContradictAddsNoUi(s, read, |s.records|);
  }

  lemma OrderKeepsPlaces(s: State, key: Key, k: Key)
    requires k in s.order
    ensures var t := Ordered(s, key); k in t.order && IndexOf(t.order, k) == IndexOf(s.order, k)
  {
    IndexOfAppended(s.order, key, k);
  }

  /** What an observed request leaves of the reads, once its write is stored. */
  lemma ReadsAfter(s: State, q: Request, u: State)
    requires var t := Ordered(s, q.key);
      u == (if q.write.Some? then StoreWrite(t, WriteOf(q.key, IndexOf(t.order, q.key), q.write.value)) else t)
    requires NoUi(u) && u.receipts == s.receipts && u.order == Ordered(s, q.key).order
    ensures var t := ObserveRequest(s, q);
      NoUi(t) && t.order == u.order && t.orderTruncated == u.orderTruncated
      && forall x :: x in t.receipts ==>
           x in s.receipts
           || (q.read.Some? && x.sequence == IndexOf(t.order, q.key) && x.recordKeys == q.read.value.recordKeys
               && x.scope == q.read.value.scope)
  {
    hide StoreWrite, IndexOf, Sighted, StoreRead;
    var sequence := IndexOf(u.order, q.key);
    if q.read.Some? && sequence >= 0 {
      StoreReadStores(u, Read(q.key, sequence, q.read.value.time, q.read.value.scope, q.read.value.recordKeys,
                              q.read.value.states, q.read.value.evidence));
    }
  }

  lemma NewWriteIsUnread(rules: Rules, s: State, q: Request, r: Record)
    requires Sequenced(s) && q.write.Some? && q.key !in s.order && !HasWrite(s, q.key)
    ensures UnreadSince(rules, ObserveRequest(s, q), q.key, r)
  {
    hide StoreWrite, IndexOf, Sighted, HasWrite, ObserveRequest;
    var a := Ordered(s, q.key);
    var u := StoreWrite(a, WriteOf(q.key, IndexOf(a.order, q.key), q.write.value));
    ReadsComeBefore(s, q.key);
    NewWriteIsStored(a, WriteOf(q.key, IndexOf(a.order, q.key), q.write.value));
    ReadsAfter(s, q, u);
  }

  lemma ReadsComeBefore(s: State, key: Key)
    requires Sequenced(s) && key !in s.order
    ensures var t := Ordered(s, key);
      HasWrite(t, key) == HasWrite(s, key) && t.receipts == s.receipts
      && (t.orderTruncated || (key in t.order && forall x :: x in t.receipts ==> x.sequence <= IndexOf(t.order, key)))
  {
  }

  lemma RequestStaysUnread(rules: Rules, s: State, q: Request, key: Key, r: Record)
    requires UnreadSince(rules, s, key, r) && (q.read.Some? ==> !Shows(rules, q.read.value, r))
    ensures UnreadSince(rules, ObserveRequest(s, q), key, r)
  {
    hide StoreWrite, IndexOf, Sighted, ObserveRequest;
    var a := Ordered(s, q.key);
    var u := if q.write.Some? then StoreWrite(a, WriteOf(q.key, IndexOf(a.order, q.key), q.write.value)) else a;
    if q.write.Some? {
      StoreWriteAddsNoUi(a, WriteOf(q.key, IndexOf(a.order, q.key), q.write.value));
    }
    ReadsAfter(s, q, u);
    if !s.orderTruncated {
      OrderKeepsPlaces(s, q.key, key);
    }
  }

  lemma {:induction false} RequestsStayUnread(rules: Rules, s: State, requests: seq<Request>, k: nat, n: nat, r: Record)
    requires k < n <= |requests| && Sequenced(s)
    requires requests[k].write.Some?
    requires var before := ObserveRequests(s, requests, k); requests[k].key !in before.order && !HasWrite(before, requests[k].key)
    requires forall j :: k < j < n && requests[j].read.Some? ==> !Shows(rules, requests[j].read.value, r)
    ensures UnreadSince(rules, ObserveRequests(s, requests, n), requests[k].key, r)
  {
    hide UnreadSince, ObserveRequest, Sequenced, HasWrite, Shows;
    if n == k + 1 {
      ObserveRequestsRemember(s, requests, k);
      NewWriteIsUnread(rules, ObserveRequests(s, requests, k), requests[k], r);
    } else {
      RequestsStayUnread(rules, s, requests, k, n - 1, r);
      RequestStaysUnread(rules, ObserveRequests(s, requests, n - 1), requests[n - 1], requests[k].key, r);
    }
  }

  lemma {:induction false} ReconcileAddsNoUi(rules: Rules, s: State, n: nat)
    requires n <= |s.records| && NoUi(s)
    ensures NoUi(Reconcile(rules, s, n))
  {
    hide NetworkProof, ReconciledRecord;
    if n > 0 {
      ReconcileAddsNoUi(rules, s, n - 1);
    }
  }

  /** Each record is reconciled when its turn comes, and then left alone. */
  lemma {:induction false} ReconciledInTurn(rules: Rules, s: State, n: nat, i: nat)
    requires n <= |s.records| && i < |s.records|
    ensures Reconcile(rules, s, n).records[i]
         == if i < n then ReconcileRecord(rules, Reconcile(rules, s, i), i).records[i] else s.records[i]
  {
    hide ReconciledRecord, ReconciledConfirmations;
    if n > 0 {
      ReconciledInTurn(rules, s, n - 1, i);
    }
  }

  predicate Open(r: Record) { !r.Is(COMPLETED) && !r.Is(RETAINED) }

  /** The write counts for the record, and no read after it shows the record. */
  predicate UnreadWrite(rules: Rules, s: State, r: Record, w: Write)
  {
    w in s.writes && Counts(rules, w, r)
    && (s.orderTruncated || forall x :: x in s.receipts ==> x.sequence <= w.sequence || !ReadShows(rules, x, r))
  }

  lemma UnreadHasNoProof(rules: Rules, s: State, r: Record, w: Write)
    requires UnreadWrite(rules, s, r, w)
    ensures LatestWrite(rules, s, r).Some? && NetworkProof(rules, s, r).None? && RetentionProof(rules, s, r).None?
  {
    LatestIsLatest(rules, s, r);
    var latest := LatestWrite(rules, s, r).value;
    RecentIsMostRecent(rules, Absence, s, r, latest);
    RecentIsMostRecent(rules, Restoration, s, r, latest);
    RecentIsMostRecent(rules, Retention, s, r, latest);
    hide LatestWrite, RecentRead, Counts;
  }

  lemma UnreadIsReopened(rules: Rules, s: State, i: nat, w: Write)
    requires i < |s.records| && UnreadWrite(rules, s, s.records[i], w) && NoUi(s)
    ensures Open(ReconcileRecord(rules, s, i).records[i])
  {
    var r := s.records[i];
    if r.cleanup.Some? {
      UnreadHasNoProof(rules, s, r, w);
      var u := Unretained(rules, s, r);
      SameCounts(rules, s.writes, r, u, |s.writes|);
      assert UnreadWrite(rules, s, u, w);
      UnreadHasNoProof(rules, s, u, w);
      hide LatestWrite, NetworkProof, RetentionProof, Counts, UnreadWrite;
    }
  }

  /** What the rules look at in a record. */
  predicate SameIdentity(a: Record, b: Record) { a.key == b.key && a.identity == b.identity && a.name == b.name }

  lemma {:induction false} FindingsKeepOpen(rules: Rules, s: State, findings: seq<UiFinding>, n: nat, i: nat)
    requires n <= |findings| && i < |s.records|
    ensures var t := ApplyFindings(rules, s, findings, n);
      SameIdentity(s.records[i], t.records[i])
      && (Open(s.records[i]) && (forall f :: f in findings && f.Restores? ==> f.index != i) ==> Open(t.records[i]))
  {
    hide Open, ApplyFinding, SameIdentity;
    if n > 0 {
      FindingsKeepOpen(rules, s, findings, n - 1, i);
      assert findings[n - 1] in findings;
      var t := ApplyFindings(rules, s, findings, n - 1);
      FindingKeepsOpen(rules, t, findings[n - 1], i);
      SameIdentityTransitive(s.records[i], t.records[i], ApplyFinding(rules, t, findings[n - 1]).records[i]);
    } else {
      SameIdentityTransitive(s.records[i], s.records[i], s.records[i]);
    }
  }

  lemma SameIdentityTransitive(a: Record, b: Record, c: Record)
    requires a == b == c || (SameIdentity(a, b) && SameIdentity(b, c))
    ensures SameIdentity(a, c)
  {
  }

  lemma FindingKeepsOpen(rules: Rules, s: State, f: UiFinding, i: nat)
    requires i < |s.records|
    ensures var t := ApplyFinding(rules, s, f);
      SameIdentity(s.records[i], t.records[i])
      && (Open(s.records[i]) && (f.Restores? ==> f.index != i) ==> Open(t.records[i]))
  {
    hide LastListed, LosesProof, Surviving, Others;
  }

  /** A newer write always reopens: when a new write that is not refused is observed, no record it
      concerns is closed afterwards, whatever had been confirmed before, unless a later read of the
      same observation shows the record or the UI shows it restored. */
  lemma NewWriteReopens(rules: Rules, s: State, o: Observation, k: nat, i: nat)
    requires Sequenced(s) && k < |o.requests| && o.requests[k].write.Some?
    requires var before := ObserveRequests(if o.acts then InvalidateUi(s, None) else s, o.requests, k);
      o.requests[k].key !in before.order && !HasWrite(before, o.requests[k].key)
    requires i < |Observe(rules, s, o).records|
    requires var t := Observe(rules, s, o);
      exists w :: w in t.writes && w.sub.key == o.requests[k].key && Counts(rules, w, t.records[i])
    requires forall j :: k < j < |o.requests| && o.requests[j].read.Some? ==>
               !Shows(rules, o.requests[j].read.value, Observe(rules, s, o).records[i])
    requires forall f :: f in o.findings && f.Restores? ==> f.index != i
    ensures Open(Observe(rules, s, o).records[i])
  {
    hide Sequenced, ObserveRequest, SettlePending, Register, Renamed, Reconcile, Counts, IndexOf, HasWrite, Shows, ReadShows,
         ApplyFinding, InvalidateUi;
    var a := if o.acts then InvalidateUi(s, None) else s;
    var b := ObserveRequests(a, o.requests, |o.requests|);
    var d := Gathered(rules, s, o);
    var t := Observe(rules, s, o);
    var key := o.requests[k].key;
    var w :| w in t.writes && w.sub.key == key && Counts(rules, w, t.records[i]);
    SameReceiptsRemember(s, a) by { ActingKeepsReceipts(s); }
    RequestsStayUnread(rules, a, o.requests, k, |o.requests|, t.records[i]);
    StepRemembers(rules, s, Observing(o));
    RestKeepsReceipts(rules, a, o, b);
    assert d.confirmations == b.confirmations;
    StoredInPlace(rules, t, b, key, w, t.records[i]);
    ReconciledOpen(rules, d, i, w, ReconcileAll(rules, d), t, o.findings);
  }

  lemma ActingKeepsReceipts(s: State)
    ensures SameReceipts(s, InvalidateUi(s, None))
  {
  }

  lemma StoredInPlace(rules: Rules, t: State, b: State, key: Key, w: Write, r: Record)
    requires Sequenced(t) && SameReceipts(b, t) && UnreadSince(rules, b, key, r)
    requires w in t.writes && w.sub.key == key && Counts(rules, w, r)
    ensures UnreadWrite(rules, t, r, w)
  {
    hide Counts, IndexOf, ReadShows;
  }

  lemma ReconciledOpen(rules: Rules, d: State, i: nat, w: Write, c: State, t: State, findings: seq<UiFinding>)
    requires c == ReconcileAll(rules, d) && t == ApplyFindings(rules, c, findings, |findings|) && i < |d.records|
    requires NoUi(d) && SameReceipts(d, t) && UnreadWrite(rules, t, t.records[i], w)
    requires forall f :: f in findings && f.Restores? ==> f.index != i
    ensures Open(t.records[i])
  {
    hide UnreadWrite, ReconciledConfirmations, ReconciledRecord;
    FindingsKeepOpen(rules, c, findings, |findings|, i);
    ReconciledInTurn(rules, d, |d.records|, i);
    ReconciledInTurn(rules, d, i, i);
    ReconcileAddsNoUi(rules, d, i);
    var e := Reconcile(rules, d, i);
    SameUnread(rules, t, t.records[i], e, e.records[i], w);
    UnreadIsReopened(rules, e, i, w);
  }

  lemma SameUnread(rules: Rules, s: State, r: Record, t: State, u: Record, w: Write)
    requires UnreadWrite(rules, s, r, w) && t.writes == s.writes && t.receipts == s.receipts
    requires t.orderTruncated == s.orderTruncated && SameIdentity(u, r)
    ensures UnreadWrite(rules, t, u, w)
  {
  }

  // ---------------------------------------------------------------------------------------
  // The journal itself

  class ExecutionJournal {
    var requestOrder: seq<Key>
    var requestOrderTruncated: bool
    var writes: seq<Write>
    var writeHistoryTruncated: bool
    var readReceipts: seq<Read>
    var records: seq<Record>
    var pendingRecords: seq<Pending>
    var cleanupConfirmations: seq<Confirmation>
    const rules: Rules

    function Now(): State
      reads this
    {
      State(requestOrder, requestOrderTruncated, writes, writeHistoryTruncated, readReceipts, records, pendingRecords,
            cleanupConfirmations)
    }

    constructor (rules: Rules)
      ensures Now() == FRESH && this.rules == rules
    {
      this.rules := rules;
      requestOrder, requestOrderTruncated, writes, writeHistoryTruncated := [], false, [], false;
      readReceipts, records, pendingRecords, cleanupConfirmations := [], [], [], [];
    }

    method InvalidateUiConfirmations(ref: Option<Ref>)
      modifies this`records, this`cleanupConfirmations
      ensures Now() == InvalidateUi(old(Now()), ref)
    {
      hide LosesProof, Surviving;
      for i := 0 to |records|
        invariant |records| == |old(records)| && cleanupConfirmations == old(cleanupConfirmations)
        invariant forall k :: 0 <= k < i ==> records[k] == ReopenUnproven(old(records), cleanupConfirmations, ref)[k]
        invariant forall k :: i <= k < |records| ==> records[k] == old(records)[k]
      {
        if records[i].Is(COMPLETED) && LosesProof(cleanupConfirmations, ref, records[i]) {
          records := records[i := Reopened(records[i])];
        }
      }
      assert records == ReopenUnproven(old(records), cleanupConfirmations, ref);
      cleanupConfirmations := Surviving(cleanupConfirmations, ref);
    }

    method StoreWriteReceipt(w: Write)
      modifies this
      ensures Now() == StoreWrite(old(Now()), w)
    {
      hide InvalidateUi, PositionOf, Merged, SaysOtherwise;
      var index := PositionOf(writes, w.sub.key);
      if index < |writes| {
        var previous := writes[index];
        writes := writes[index := Merged(previous, w)];
        if SaysOtherwise(previous, writes[index]) {
          InvalidateUiConfirmations(None);
        }
      } else {
        writes := writes + [w];
        InvalidateUiConfirmations(None);
      }
      if |writes| > MAX_RECEIPTS {
        writeHistoryTruncated := true;
        writes := writes[|writes| - MAX_RECEIPTS..];
      }
    }

    method StoreReadReceipt(read: Read)
      modifies this
      ensures Now() == StoreRead(old(Now()), read)
    {
      hide InvalidateUi, FindRead, WithoutRead, LatestReads;
      var previous := FindRead(readReceipts, read.key);
      if previous.None? || previous.value.states != read.states {
        var known := records;
        for i := 0 to |known|
          invariant Now() == Contradict(old(Now()), read, i) && known == old(records)
        {
          if ContradictedBy(known[i], read) {
            InvalidateUiConfirmations(Some(known[i].ref));
          }
        }
      }
      readReceipts := LatestReads(WithoutRead(readReceipts, read.key) + [read]);
    }

    method ObserveOne(q: Request)
      modifies this
      ensures Now() == ObserveRequest(old(Now()), q)
    {
      hide IndexOf, StoreWrite, StoreRead, Sighted;
      if q.key !in requestOrder {
        if |requestOrder| < MAX_ORDER {
          requestOrder := requestOrder + [q.key];
        } else {
          requestOrderTruncated := true;
        }
      }
      var sequence := IndexOf(requestOrder, q.key);
      assert Now() == Ordered(old(Now()), q.key);
      if q.write.Some? {
        StoreWriteReceipt(WriteOf(q.key, sequence, q.write.value));
      }
      if q.read.Some? && sequence >= 0 {
        StoreReadReceipt(Read(q.key, sequence, q.read.value.time, q.read.value.scope, q.read.value.recordKeys,
                              q.read.value.states, q.read.value.evidence));
      }
      pendingRecords := Sighted(pendingRecords, q.sightings, |q.sightings|);
    }

    method ReconcileCleanup()
      modifies this`records, this`cleanupConfirmations
      ensures Now() == ReconcileAll(rules, old(Now()))
    {
      hide ReconciledRecord, ReconciledConfirmations;
      for i := 0 to |records|
        invariant Now() == Reconcile(rules, old(Now()), i)
      {
        var s := Now();
        if records[i].cleanup.Some? {
          records := records[i := ReconciledRecord(rules, s, records[i])];
          cleanupConfirmations := ReconciledConfirmations(rules, s, s.records[i]);
        }
      }
    }

    method ApplyUi(findings: seq<UiFinding>)
      modifies this`records, this`cleanupConfirmations
      ensures Now() == ApplyFindings(rules, old(Now()), findings, |findings|)
    {
      hide ApplyFinding;
      for i := 0 to |findings|
        invariant Now() == ApplyFindings(rules, old(Now()), findings, i)
      {
        var t := ApplyFinding(rules, Now(), findings[i]);
        records := t.records;
        cleanupConfirmations := t.confirmations;
      }
    }

    /** What a command's output shows is taken into the ledger, and every cleanup is judged anew. */
    method ObserveOutput(o: Observation)
      modifies this
      ensures Now() == Observe(rules, old(Now()), o)
      ensures LastProven(rules, Now())
      ensures DistinctRefs(Gathered(rules, old(Now()), o).records) ==> Settled(rules, Now())
    {
      hide InvalidateUi, ObserveRequest, SettlePending, Register, Renamed, Reconcile, ApplyFindings, Settled, LastProven, DistinctRefs;
      ObserveSettles(rules, Now(), o);
      if o.acts {
        InvalidateUiConfirmations(None);
      }
      ghost var a := Now();
      for i := 0 to |o.requests|
        invariant Now() == ObserveRequests(a, o.requests, i)
      {
        ObserveOne(o.requests[i]);
      }
      var c := SettlePending(rules, o.recordOf, Now(), pendingRecords, []);
      pendingRecords := c.pending;
      records := Register(Renamed(c.records, o.names), o.found, |o.found|);
      assert Now() == Gathered(rules, old(Now()), o);
      ReconcileCleanup();
      ApplyUi(o.findings);
    }

    /** A change the model proposes; a refused one leaves the ledger as it was, but for created
        records that the UI had completed. */
    method UpdateProgress(r: Revision) returns (accepted: bool)
      modifies this
      ensures (Now(), accepted) == Update(rules, old(Now()), r)
      ensures accepted ==> LastProven(rules, Now())
    {
      hide Accepted, Reconcile, ApplyFindings, LastProven;
      if Update(rules, Now(), r).1 {
        UpdateSettles(rules, Now(), r);
      }
      records := WithCreated(Now(), r.created).records;
      var merged := Accepted(rules, Now(), r.changes);
      if merged.None? {
        return false;
      }
      records := merged.value;
      ApplyUi(r.findings);
      ReconcileCleanup();
      accepted := true;
    }

    method BlockCleanup()
      modifies this`records
      ensures Now() == Block(old(Now()))
    {
      for i := 0 to |records|
        invariant |records| == |old(records)|
        invariant forall k :: 0 <= k < i ==> records[k] == Block(old(Now())).records[k]
        invariant forall k :: i <= k < |records| ==> records[k] == old(records)[k]
      {
        if records[i].Is(PENDING) {
          records := records[i := records[i].(cleanup := Some(records[i].cleanup.value.(status := BLOCKED)))];
        }
      }
      assert records == Block(old(Now())).records;
    }

    /** Whether anything is left to report. */
    method HasNotice() returns (notice: bool)
      ensures notice == !NothingOutstanding(rules, Now())
    {
      notice := writeHistoryTruncated || pendingRecords != [];
      for i := 0 to |records|
        invariant notice <==> writeHistoryTruncated || pendingRecords != []
                              || !forall k :: 0 <= k < i && records[k].cleanup.Some? ==>
                                    records[k].Is(COMPLETED) || records[k].Is(RETAINED)
      {
        if records[i].cleanup.Some? && !records[i].Is(COMPLETED) && !records[i].Is(RETAINED) {
          notice := true;
        }
      }
      if exists i :: 0 <= i < |writes| && Unresolved(rules, Now(), writes[i]) {
        notice := true;
      }
    }
  }
}
