/** The ledger of an execution run: observed writes and reads in request order, the records they
    created or changed, and the proofs that these were cleaned up again. What identifies a record
    in a request is decided by rules outside this module. */
module ExecutionLedger {
  import opened Wrappers

  type Key = string
  type Ref = string
  type Body = nat
  type Value = nat
  type Url = nat
  type Identity = nat
  type Name = string
  type RecordKey = nat
  type Pending = nat
  type EvidenceRef = nat

  const MAX_ORDER := 2000
  const MAX_RECEIPTS := 200
  const MAX_RECORDS := 50

  datatype Method = POST | PUT | PATCH | DELETE

  /** What was sent and answered, as far as it was captured. */
  datatype Submission = Submission(key: Key, how: Method, url: Url, request: Option<Body>, response: Option<Body>)

  datatype Write = Write(
    sub: Submission, sequence: int, time: Option<real>, status: Option<nat>, confirmed: bool,
    evidence: set<EvidenceRef>)

  datatype Read = Read(
    key: Key, sequence: nat, time: Option<real>, scope: Url, recordKeys: set<RecordKey>,
    states: map<RecordKey, Value>, evidence: set<EvidenceRef>)

  datatype Status = PENDING | COMPLETED | BLOCKED | RETAINED
  datatype Resolution = DELETED | RESTORED
  datatype Ownership = CREATED_THIS_RUN | EXISTING | UNCONFIRMED

  datatype Cleanup = Cleanup(status: Status, resolution: Option<Resolution>, retainedAt: Option<Key>)

  /** `key` is the record's key, `identity` everything the rules match requests against. */
  datatype Record = Record(
    ref: Ref, key: RecordKey, identity: Identity, name: Option<Name>, ownership: Ownership,
    initial: Option<Value>, cleanup: Option<Cleanup>, evidence: set<EvidenceRef>)
  {
    predicate Is(status: Status) { cleanup.Some? && cleanup.value.status == status }
  }

  datatype Source = NETWORK | UI
  datatype Confirmation = Confirmation(
    source: Source, ref: Ref, writeKey: Key, readKey: Key, evidence: set<EvidenceRef>)

  datatype State = State(
    order: seq<Key>, orderTruncated: bool, writes: seq<Write>, writesTruncated: bool, receipts: seq<Read>,
    records: seq<Record>, pending: seq<Pending>, confirmations: seq<Confirmation>)

  const FRESH := State([], false, [], false, [], [], [], [])

  /** The protocol's decisions: whether a submission concerns a record or would have created a
      pending one, whether a read would show a record, what a body says. */
  datatype Rules = Rules(
    matches: (Submission, Identity) -> bool,
    creates: (Submission, Pending) -> bool,
    covers: (Url, Identity, Option<Name>) -> bool,
    sameResource: (Url, Identity) -> bool,
    bodyOk: Option<Body> -> bool,
    configOf: Option<Body> -> Option<Value>)

  // ---------------------------------------------------------------------------------------
  // Writes

  predicate TwoHundred(status: Option<nat>) { status.Some? && 200 <= status.value < 300 }

  predicate Successful(rules: Rules, w: Write) { TwoHundred(w.status) && rules.bodyOk(w.sub.response) }

  predicate Rejected(rules: Rules, w: Write)
  {
    || (w.status.Some? && w.status.value in {400, 401, 403, 404, 405, 409, 415, 422})
    || (w.confirmed && TwoHundred(w.status) && !Successful(rules, w))
  }

  /** The write concerns the record and was not refused. */
  predicate Counts(rules: Rules, w: Write, r: Record) { rules.matches(w.sub, r.identity) && !Rejected(rules, w) }

  /** Among the first `n` writes, the latest that counts; of equal sequences the later in the list. */
  function Latest(rules: Rules, writes: seq<Write>, r: Record, n: nat): (w: Option<Write>)
    requires n <= |writes|
  {
    if n == 0 then None
    else
      var before := Latest(rules, writes, r, n - 1);
      var last := writes[n - 1];
      if Counts(rules, last, r) && (before.None? || last.sequence >= before.value.sequence) then Some(last) else before
  }

  function LatestWrite(rules: Rules, s: State, r: Record): Option<Write> { Latest(rules, s.writes, r, |s.writes|) }

  // ---------------------------------------------------------------------------------------
  // Reads after a write

  predicate NotBefore(read: Read, w: Write) { read.time.None? || w.time.None? || read.time.value > w.time.value }

  predicate Later(read: Read, w: Write) { read.sequence > w.sequence && NotBefore(read, w) }

  datatype Question = Absence | Restoration | Retention

  /** The read says something about the record, for the question at hand. */
  predicate Relevant(rules: Rules, q: Question, read: Read, r: Record, w: Write)
  {
    match q
    case Absence => Later(read, w) && (r.key in read.recordKeys || rules.covers(read.scope, r.identity, r.name))
    case Restoration => Later(read, w) && r.key in read.recordKeys
    case Retention =>
      rules.sameResource(read.scope, r.identity)
      && (r.key in read.recordKeys || rules.covers(read.scope, r.identity, r.name))
  }

  /** Among the first `n` reads, the most recent relevant one. */
  function Recent(rules: Rules, q: Question, receipts: seq<Read>, r: Record, w: Write, n: nat): (read: Option<Read>)
    requires n <= |receipts|
  {
    if n == 0 then None
    else
      var before := Recent(rules, q, receipts, r, w, n - 1);
      var last := receipts[n - 1];
      if Relevant(rules, q, last, r, w) && (before.None? || last.sequence > before.value.sequence) then Some(last) else before
  }

  function RecentRead(rules: Rules, q: Question, s: State, r: Record, w: Write): Option<Read>
  {
    Recent(rules, q, s.receipts, r, w, |s.receipts|)
  }

  /** The read that confirms the cleanup of the record by its latest write. */
  function ConfirmingRead(rules: Rules, s: State, r: Record, w: Write): Option<Read>
  {
    if w.sub.how == DELETE && r.ownership == CREATED_THIS_RUN then
      var read := RecentRead(rules, Absence, s, r, w);
      if read.Some? && r.key !in read.value.recordKeys then read else None
    else if r.ownership == EXISTING && (w.sub.how == PUT || w.sub.how == PATCH) && r.initial.Some? then
      var read := RecentRead(rules, Restoration, s, r, w);
      if (r.name.Some? || rules.configOf(w.sub.request) == r.initial)
         && read.Some? && r.key in read.value.states && read.value.states[r.key] == r.initial.value
      then read else None
    else None
  }

  datatype Proof = Proof(write: Write, read: Read)

  /** The network proof of a cleanup, if there is one. */
  function NetworkProof(rules: Rules, s: State, r: Record): Option<Proof>
  {
    var w := LatestWrite(rules, s, r);
    if s.orderTruncated || w.None? || !w.value.confirmed || !Successful(rules, w.value) then None
    else
      var read := ConfirmingRead(rules, s, r, w.value);
      if read.None? then None else Some(Proof(w.value, read.value))
  }

  /** The proof that a record still exists after its latest write. */
  function RetentionProof(rules: Rules, s: State, r: Record): Option<Proof>
  {
    var w := LatestWrite(rules, s, r);
    if s.orderTruncated || w.None? || !w.value.confirmed || w.value.sub.how == DELETE || !Successful(rules, w.value)
    then None
    else
      var read := RecentRead(rules, Retention, s, r, w.value);
      if read.None? || read.value.sequence <= w.value.sequence || r.key !in read.value.recordKeys
         || !NotBefore(read.value, w.value)
      then None else Some(Proof(w.value, read.value))
  }

  // ---------------------------------------------------------------------------------------
  // Reconciling the cleanups

  function ConfirmationOf(r: Record, proof: Proof): Confirmation
  {
    Confirmation(NETWORK, r.ref, proof.write.sub.key, proof.read.key, proof.write.evidence + proof.read.evidence)
  }

  /** Confirmations kept for a record: none if it gets a new one, else those made in the UI. */
  predicate Stays(c: Confirmation, ref: Ref, replaced: bool)
  {
    c.ref != ref || (!replaced && c.source == UI)
  }

  function Filtered(cs: seq<Confirmation>, ref: Ref, replaced: bool): (r: seq<Confirmation>)
    ensures forall c :: c in r <==> c in cs && Stays(c, ref, replaced)
  {
    if cs == [] then []
    else
      var before := Filtered(cs[..|cs| - 1], ref, replaced);
      if Stays(cs[|cs| - 1], ref, replaced) then before + [cs[|cs| - 1]] else before
  }

  predicate Confirmed(cs: seq<Confirmation>, ref: Ref) { exists c :: c in cs && c.ref == ref }

  /** A retained record whose retention is no longer proven at the same write is pending again. */
  function Unretained(rules: Rules, s: State, r: Record): (t: Record)
    requires r.cleanup.Some?
    ensures t.cleanup.Some? && t == r.(cleanup := t.cleanup)
  {
    if !r.Is(RETAINED) then r
    else
      var proof := RetentionProof(rules, s, r);
      if proof.Some? && Some(proof.value.write.sub.key) == r.cleanup.value.retainedAt then r
      else r.(cleanup := Some(r.cleanup.value.(status := PENDING, retainedAt := None)))
  }

  function ReconciledRecord(rules: Rules, s: State, r: Record): (t: Record)
    requires r.cleanup.Some?
    ensures t.cleanup.Some? && t == r.(cleanup := t.cleanup, evidence := t.evidence)
  {
    var u := Unretained(rules, s, r);
    var proof := NetworkProof(rules, s, u);
    if proof.Some? then
      u.(cleanup := Some(Cleanup(COMPLETED, Some(if proof.value.write.sub.how == DELETE then DELETED else RESTORED), None)),
         evidence := u.evidence + proof.value.write.evidence + proof.value.read.evidence)
    else if LatestWrite(rules, s, u).Some? && u.Is(COMPLETED) && !Confirmed(Filtered(s.confirmations, r.ref, false), r.ref)
    then u.(cleanup := Some(u.cleanup.value.(status := PENDING, resolution := None)))
    else u
  }

  function ReconciledConfirmations(rules: Rules, s: State, r: Record): seq<Confirmation>
    requires r.cleanup.Some?
  {
    var u := Unretained(rules, s, r);
    var proof := NetworkProof(rules, s, u);
    Filtered(s.confirmations, r.ref, proof.Some?) + if proof.Some? then [ConfirmationOf(u, proof.value)] else []
  }

  function ReconcileRecord(rules: Rules, s: State, i: nat): (t: State)
    requires i < |s.records|
    ensures t == s.(records := t.records, confirmations := t.confirmations) && |t.records| == |s.records|
  {
    var r := s.records[i];
    if r.cleanup.None? then s
    else s.(records := s.records[i := ReconciledRecord(rules, s, r)],
            confirmations := ReconciledConfirmations(rules, s, r))
  }

  /** Reconciles the first `n` records, one after the other. */
  function Reconcile(rules: Rules, s: State, n: nat): (t: State)
    requires n <= |s.records|
    ensures t == s.(records := t.records, confirmations := t.confirmations) && |t.records| == |s.records|
  {
    if n == 0 then s else ReconcileRecord(rules, Reconcile(rules, s, n - 1), n - 1)
  }

  function ReconcileAll(rules: Rules, s: State): State { Reconcile(rules, s, |s.records|) }

  // ---------------------------------------------------------------------------------------
  // What holds of a reconciled ledger

  predicate DistinctRefs(records: seq<Record>)
  {
    forall i, j :: 0 <= i < j < |records| ==> records[i].ref != records[j].ref
  }

  /** The write is the latest of all that count for the record. */
  ghost predicate IsLatest(rules: Rules, s: State, r: Record, w: Write)
  {
    w in s.writes && Counts(rules, w, r) && forall x :: x in s.writes && Counts(rules, x, r) ==> x.sequence <= w.sequence
  }

  /** The read comes after the write, and no relevant read comes after it. */
  ghost predicate IsMostRecent(rules: Rules, q: Question, s: State, r: Record, w: Write, read: Read)
  {
    read in s.receipts && Relevant(rules, q, read, r, w)
    && forall x :: x in s.receipts && Relevant(rules, q, x, r, w) ==> x.sequence <= read.sequence
  }

  /** Why a network confirmation is right: the latest write succeeded, and the most recent later
      read shows a created record gone, or an existing one in its initial state. */
  ghost predicate Justified(rules: Rules, s: State, r: Record, c: Confirmation)
  {
    !s.orderTruncated
    && exists w, read :: IsLatest(rules, s, r, w) && w.confirmed && Successful(rules, w)
         && Later(read, w) && c.writeKey == w.sub.key && c.readKey == read.key
         && (if w.sub.how == DELETE
             then r.ownership == CREATED_THIS_RUN && r.key !in read.recordKeys
                  && rules.covers(read.scope, r.identity, r.name) && IsMostRecent(rules, Absence, s, r, w, read)
             else r.ownership == EXISTING && w.sub.how != POST && r.initial.Some? && r.key in read.states
                  && read.states[r.key] == r.initial.value && IsMostRecent(rules, Restoration, s, r, w, read))
  }

  /** Why a record may be kept: a read after its latest successful write still shows it. */
  ghost predicate StillThere(rules: Rules, s: State, r: Record)
    requires r.cleanup.Some?
  {
    !s.orderTruncated
    && exists w, read :: IsLatest(rules, s, r, w) && w.confirmed && Successful(rules, w) && w.sub.how != DELETE
         && Some(w.sub.key) == r.cleanup.value.retainedAt
         && read in s.receipts && Later(read, w) && r.key in read.recordKeys
  }

  ghost predicate SettledRecord(rules: Rules, s: State, r: Record)
  {
    && (r.Is(COMPLETED) && LatestWrite(rules, s, r).Some? ==> Confirmed(s.confirmations, r.ref))
    && (r.Is(RETAINED) ==> StillThere(rules, s, r))
    && (r.cleanup.Some? ==> forall c :: c in s.confirmations && c.ref == r.ref && c.source == NETWORK ==> Justified(rules, s, r, c))
  }

  ghost predicate Settled(rules: Rules, s: State)
  {
    forall i :: 0 <= i < |s.records| ==> SettledRecord(rules, s, s.records[i])
  }

  lemma {:induction false} LatestMeaning(rules: Rules, writes: seq<Write>, r: Record, n: nat)
    requires n <= |writes|
    ensures var w := Latest(rules, writes, r, n);
      && (w.Some? ==> Counts(rules, w.value, r) && exists i :: 0 <= i < n && writes[i] == w.value)
      && (forall i :: 0 <= i < n && Counts(rules, writes[i], r) ==> w.Some? && writes[i].sequence <= w.value.sequence)
  {
    if n > 0 {
      LatestMeaning(rules, writes, r, n - 1);
    }
  }

  lemma LatestIsLatest(rules: Rules, s: State, r: Record)
    ensures var w := LatestWrite(rules, s, r);
      && (w.Some? ==> IsLatest(rules, s, r, w.value))
      && (forall x :: x in s.writes && Counts(rules, x, r) ==> w.Some?)
  {
    LatestMeaning(rules, s.writes, r, |s.writes|);
  }

  lemma {:induction false} RecentMeaning(rules: Rules, q: Question, receipts: seq<Read>, r: Record, w: Write, n: nat)
    requires n <= |receipts|
    ensures var read := Recent(rules, q, receipts, r, w, n);
      && (read.Some? ==> Relevant(rules, q, read.value, r, w) && exists i :: 0 <= i < n && receipts[i] == read.value)
      && (forall i :: 0 <= i < n && Relevant(rules, q, receipts[i], r, w) ==>
            read.Some? && receipts[i].sequence <= read.value.sequence)
  {
    if n > 0 {
      RecentMeaning(rules, q, receipts, r, w, n - 1);
    }
  }

  lemma RecentIsMostRecent(rules: Rules, q: Question, s: State, r: Record, w: Write)
    ensures var read := RecentRead(rules, q, s, r, w);
      read.Some? ==> IsMostRecent(rules, q, s, r, w, read.value)
  {
    RecentMeaning(rules, q, s.receipts, r, w, |s.receipts|);
  }

  lemma ProofJustifies(rules: Rules, s: State, r: Record)
    ensures var proof := NetworkProof(rules, s, r);
      proof.Some? ==> Justified(rules, s, r, ConfirmationOf(r, proof.value))
  {
    LatestIsLatest(rules, s, r);
    var w := LatestWrite(rules, s, r);
    if w.Some? {
      RecentIsMostRecent(rules, Absence, s, r, w.value);
      RecentIsMostRecent(rules, Restoration, s, r, w.value);
    }
    hide IsLatest, IsMostRecent, LatestWrite, RecentRead;
  }

  lemma RetentionIsStillThere(rules: Rules, s: State, r: Record)
    requires r.Is(RETAINED)
    ensures var proof := RetentionProof(rules, s, r);
      proof.Some? && Some(proof.value.write.sub.key) == r.cleanup.value.retainedAt ==> StillThere(rules, s, r)
  {
    LatestIsLatest(rules, s, r);
    var w := LatestWrite(rules, s, r);
    if w.Some? {
      RecentIsMostRecent(rules, Retention, s, r, w.value);
    }
    hide IsLatest, LatestWrite, RecentRead;
  }

  // ---------------------------------------------------------------------------------------
  // Exactly when a cleanup is proven

  /** What the answer says about a write: a success is a status of the two hundreds with a good body,
      some statuses refuse it, and so does a bad body that was completely received; anything else
      leaves it open whether the write took place. */
  lemma AnswersMean(rules: Rules, w: Write)
    ensures w.status.None? ==> !Successful(rules, w) && !Rejected(rules, w)
    ensures w.status.Some? && (w.status.value < 200 || w.status.value >= 300) ==>
      !Successful(rules, w)
      && (Rejected(rules, w) <==>
            var n := w.status.value; n == 400 || n == 401 || 403 <= n <= 405 || n == 409 || n == 415 || n == 422)
    ensures w.status.Some? && 200 <= w.status.value < 300 ==>
      && (rules.bodyOk(w.sub.response) ==> Successful(rules, w) && !Rejected(rules, w))
      && (!rules.bodyOk(w.sub.response) ==> !Successful(rules, w) && (Rejected(rules, w) <==> w.confirmed))
  {
  }

  /** No two writes and no two reads have the same place in the request order. */
  predicate Separate(s: State)
  {
    && (forall i, j :: 0 <= i < j < |s.writes| ==> s.writes[i].sequence != s.writes[j].sequence)
    && (forall i, j :: 0 <= i < j < |s.receipts| ==> s.receipts[i].sequence != s.receipts[j].sequence)
  }

  /** The write succeeded, and was the last one to concern the record without being refused. */
  ghost predicate LastSuccess(rules: Rules, s: State, r: Record, w: Write)
  {
    && w in s.writes && rules.matches(w.sub, r.identity) && w.confirmed && Successful(rules, w)
    && forall x :: x in s.writes && w.sequence < x.sequence && rules.matches(x.sub, r.identity) ==> Rejected(rules, x)
  }

  /** The read comes after the write, in the request order and by what is known of the time. */
  predicate ReadAfter(read: Read, w: Write)
  {
    w.sequence < read.sequence && (read.time.Some? && w.time.Some? ==> w.time.value < read.time.value)
  }

  /** The read lists the record, or would list it if it were there. */
  predicate Answers(rules: Rules, read: Read, r: Record)
  {
    r.key in read.recordKeys || rules.covers(read.scope, r.identity, r.name)
  }

  /** A created record was deleted by its last write, and the last read since then that could list it
      does not; or an existing one was written back, and the last read since then that lists it shows
      its initial state. */
  ghost predicate CleanedUp(rules: Rules, s: State, r: Record, w: Write, read: Read)
  {
    && LastSuccess(rules, s, r, w) && read in s.receipts && ReadAfter(read, w)
    && ((&& w.sub.how == DELETE && r.ownership == CREATED_THIS_RUN
         && r.key !in read.recordKeys && rules.covers(read.scope, r.identity, r.name)
         && forall x :: x in s.receipts && ReadAfter(x, w) && read.sequence < x.sequence ==> !Answers(rules, x, r))
        || (&& (w.sub.how == PUT || w.sub.how == PATCH) && r.ownership == EXISTING && r.initial.Some?
            && (r.name.None? ==> rules.configOf(w.sub.request) == r.initial)
            && r.key in read.recordKeys && r.key in read.states && read.states[r.key] == r.initial.value
            && forall x :: x in s.receipts && ReadAfter(x, w) && read.sequence < x.sequence ==> r.key !in x.recordKeys))
  }

  /** A record was last written with success, other than by a deletion, and the last of all reads that
      could list it comes after that and does. */
  ghost predicate KeptThere(rules: Rules, s: State, r: Record, w: Write, read: Read)
  {
    && LastSuccess(rules, s, r, w) && w.sub.how != DELETE
    && read in s.receipts && rules.sameResource(read.scope, r.identity) && r.key in read.recordKeys && ReadAfter(read, w)
    && forall x :: x in s.receipts && read.sequence < x.sequence && rules.sameResource(x.scope, r.identity) ==> !Answers(rules, x, r)
  }

  lemma LastSuccessExactlyWhen(rules: Rules, s: State, r: Record, w: Write)
    requires Separate(s)
    ensures LastSuccess(rules, s, r, w) <==> LatestWrite(rules, s, r) == Some(w) && w.confirmed && Successful(rules, w)
  {
    LatestIsLatest(rules, s, r);
    AnswersMean(rules, w);
    hide LatestWrite, Successful, Rejected;
    var latest := LatestWrite(rules, s, r);
    if latest.Some? && w in s.writes && latest.value.sequence == w.sequence {
      var i :| 0 <= i < |s.writes| && s.writes[i] == latest.value;
      var j :| 0 <= j < |s.writes| && s.writes[j] == w;
      assert i == j;
    }
  }

  lemma MostRecentExactlyWhen(rules: Rules, q: Question, s: State, r: Record, w: Write, read: Read)
    requires Separate(s)
    ensures RecentRead(rules, q, s, r, w) == Some(read)
       <==> read in s.receipts && Relevant(rules, q, read, r, w)
            && forall x :: x in s.receipts && read.sequence < x.sequence ==> !Relevant(rules, q, x, r, w)
  {
    RecentMeaning(rules, q, s.receipts, r, w, |s.receipts|);
    hide Recent, Relevant;
    var found := RecentRead(rules, q, s, r, w);
    if read in s.receipts && Relevant(rules, q, read, r, w) {
      assert found.Some?;
      if found.value.sequence == read.sequence {
        var i :| 0 <= i < |s.receipts| && s.receipts[i] == found.value;
        var j :| 0 <= j < |s.receipts| && s.receipts[j] == read;
        assert i == j;
      }
    }
  }

  /** There is a network proof, and which one, exactly when the record was cleaned up. */
  lemma ProvedExactlyWhen(rules: Rules, s: State, r: Record, w: Write, read: Read)
    requires Separate(s)
    ensures NetworkProof(rules, s, r) == Some(Proof(w, read)) <==> !s.orderTruncated && CleanedUp(rules, s, r, w, read)
  {
    LastSuccessExactlyWhen(rules, s, r, w);
    MostRecentExactlyWhen(rules, Absence, s, r, w, read);
    MostRecentExactlyWhen(rules, Restoration, s, r, w, read);
    hide LatestWrite, Successful, LastSuccess, RecentRead;
  }

  /** The same for the proof that a record was kept. */
  lemma RetainableExactlyWhen(rules: Rules, s: State, r: Record, w: Write, read: Read)
    requires Separate(s)
    ensures RetentionProof(rules, s, r) == Some(Proof(w, read)) <==> !s.orderTruncated && KeptThere(rules, s, r, w, read)
  {
    LastSuccessExactlyWhen(rules, s, r, w);
    MostRecentExactlyWhen(rules, Retention, s, r, w, read);
    hide LatestWrite, Successful, LastSuccess, RecentRead;
  }

  /** A record whose cleanup is proven is completed, as deleted or restored, with all the evidence, and
      its confirmation replaces every other of its reference. */
  lemma ReconciledWithProof(rules: Rules, s: State, i: nat, w: Write, read: Read)
    requires i < |s.records| && s.records[i].cleanup.Some? && Separate(s)
    requires !s.orderTruncated && CleanedUp(rules, s, s.records[i], w, read)
    ensures var r := s.records[i];
      var t := ReconcileRecord(rules, s, i);
      && t.records == s.records[i := r.(
           cleanup := Some(Cleanup(COMPLETED, Some(if r.ownership == EXISTING then RESTORED else DELETED), None)),
           evidence := t.records[i].evidence)]
      && (forall e :: e in t.records[i].evidence <==> e in r.evidence || e in w.evidence || e in read.evidence)
      && (forall c :: c in t.confirmations && c.ref == r.ref ==>
            c.source == NETWORK && c.writeKey == w.sub.key && c.readKey == read.key
            && forall e :: e in c.evidence <==> e in w.evidence || e in read.evidence)
      && Confirmed(t.confirmations, r.ref)
  {
    var r := s.records[i];
    var u := Unretained(rules, s, r);
    ProvedExactlyWhen(rules, s, u, w, read);
    SameCleanedUp(rules, s, r, u, w, read);
    hide NetworkProof, CleanedUp, RetentionProof;
    var t := ReconcileRecord(rules, s, i);
    assert t.confirmations[|t.confirmations| - 1] in t.confirmations;
  }

  lemma SameCleanedUp(rules: Rules, s: State, r: Record, u: Record, w: Write, read: Read)
    requires u == r.(cleanup := u.cleanup) && CleanedUp(rules, s, r, w, read)
    ensures CleanedUp(rules, s, u, w, read)
  {
  }

  /** A record whose cleanup is not proven keeps its UI proofs only. It is pending again if it was
      completed and no such proof is left although a write concerns it, or if it was retained and that
      is no longer proven at the same write; otherwise it stays as it is. */
  lemma ReconciledWithoutProof(rules: Rules, s: State, i: nat)
    requires i < |s.records| && s.records[i].cleanup.Some? && (!s.orderTruncated ==> Separate(s))
    requires forall w, read :: w in s.writes && read in s.receipts ==> s.orderTruncated || !CleanedUp(rules, s, s.records[i], w, read)
    ensures var r := s.records[i];
      var t := ReconcileRecord(rules, s, i);
      var reopened := (r.Is(COMPLETED) && !(exists c :: c in s.confirmations && c.ref == r.ref && c.source == UI)
                       && exists x :: x in s.writes && rules.matches(x.sub, r.identity) && !Rejected(rules, x))
                      || (r.Is(RETAINED) && !exists w, read :: !s.orderTruncated && KeptThere(rules, s, r, w, read)
                                                               && r.cleanup.value.retainedAt == Some(w.sub.key));
      && t.records == (if !reopened then s.records
                       else if r.Is(COMPLETED) then s.records[i := r.(cleanup := Some(r.cleanup.value.(status := PENDING, resolution := None)))]
                       else s.records[i := r.(cleanup := Some(r.cleanup.value.(status := PENDING, retainedAt := None)))])
      && (forall c :: c in t.confirmations <==> c in s.confirmations && (c.ref == r.ref ==> c.source == UI))
  {
    var r := s.records[i];
    var u := Unretained(rules, s, r);
    UnprovenStays(rules, s, r, u);
    LatestIsLatest(rules, s, u);
    UnretainedExactlyWhen(rules, s, r);
    hide NetworkProof, CleanedUp, RetentionProof, KeptThere, LatestWrite, Rejected;
  }

  lemma UnprovenStays(rules: Rules, s: State, r: Record, u: Record)
    requires (!s.orderTruncated ==> Separate(s)) && u == r.(cleanup := u.cleanup)
    requires forall w, read :: w in s.writes && read in s.receipts ==> s.orderTruncated || !CleanedUp(rules, s, r, w, read)
    ensures NetworkProof(rules, s, u).None?
  {
    var proof := NetworkProof(rules, s, u);
    if proof.Some? {
      ProvedExactlyWhen(rules, s, u, proof.value.write, proof.value.read);
      SameCleanedUp(rules, s, u, r, proof.value.write, proof.value.read);
      hide NetworkProof;
      assert false;
    }
  }

  lemma UnretainedExactlyWhen(rules: Rules, s: State, r: Record)
    requires (!s.orderTruncated ==> Separate(s)) && r.cleanup.Some?
    ensures Unretained(rules, s, r)
         == if r.Is(RETAINED)
               && !exists w, read :: !s.orderTruncated && KeptThere(rules, s, r, w, read) && r.cleanup.value.retainedAt == Some(w.sub.key)
            then r.(cleanup := Some(r.cleanup.value.(status := PENDING, retainedAt := None))) else r
  {
    var proof := RetentionProof(rules, s, r);
    if proof.Some? {
      RetainableExactlyWhen(rules, s, r, proof.value.write, proof.value.read);
    }
    forall w, read | !s.orderTruncated && KeptThere(rules, s, r, w, read) ensures proof == Some(Proof(w, read)) {
      RetainableExactlyWhen(rules, s, r, w, read);
    }
    hide RetentionProof, KeptThere;
  }

  // ---------------------------------------------------------------------------------------
  // Reconciling settles every record

  /** Nothing a justification or a retention rests on differs. */
  predicate SameFacts(s: State, r: Record, t: State, u: Record)
  {
    && t.orderTruncated == s.orderTruncated && t.writes == s.writes && t.receipts == s.receipts
    && u.ref == r.ref && u.key == r.key && u.identity == r.identity && u.name == r.name
    && u.ownership == r.ownership && u.initial == r.initial
  }

  lemma {:induction false} SameCounts(rules: Rules, writes: seq<Write>, r: Record, u: Record, n: nat)
    requires n <= |writes| && u.identity == r.identity
    ensures Latest(rules, writes, u, n) == Latest(rules, writes, r, n)
  {
    if n > 0 {
      SameCounts(rules, writes, r, u, n - 1);
    }
  }

  lemma SameJustified(rules: Rules, s: State, r: Record, t: State, u: Record, c: Confirmation)
    requires SameFacts(s, r, t, u) && Justified(rules, s, r, c)
    ensures Justified(rules, t, u, c)
  {
  }

  lemma SameStillThere(rules: Rules, s: State, r: Record, t: State, u: Record)
    requires r.cleanup.Some? && u.cleanup == r.cleanup && SameFacts(s, r, t, u) && StillThere(rules, s, r)
    ensures StillThere(rules, t, u)
  {
  }

  lemma ReconciledIsSettled(rules: Rules, s: State, i: nat)
    requires i < |s.records|
    ensures var t := ReconcileRecord(rules, s, i); SettledRecord(rules, t, t.records[i])
  {
    var r := s.records[i];
    if r.cleanup.Some? {
      var t := ReconcileRecord(rules, s, i);
      var u := Unretained(rules, s, r);
      var v := t.records[i];
      SameCounts(rules, s.writes, r, u, |s.writes|);
      SameCounts(rules, s.writes, r, v, |s.writes|);
      if v.Is(RETAINED) {
        RetentionIsStillThere(rules, s, r);
        SameStillThere(rules, s, r, t, v);
      }
      forall c | c in t.confirmations && c.ref == v.ref && c.source == NETWORK ensures Justified(rules, t, v, c) {
        ProofJustifies(rules, s, u);
        SameJustified(rules, s, u, t, v, c);
      }
      hide Justified, StillThere, LatestWrite;
    }
  }

  lemma ReconcileKeepsOthers(rules: Rules, s: State, i: nat, j: nat)
    requires i < |s.records| && j < |s.records| && i != j && s.records[i].ref != s.records[j].ref
    requires SettledRecord(rules, s, s.records[j])
    ensures var t := ReconcileRecord(rules, s, i); t.records[j] == s.records[j] && SettledRecord(rules, t, t.records[j])
  {
  }

  ghost predicate SettledUpTo(rules: Rules, s: State, n: nat)
    requires n <= |s.records|
  {
    forall i :: 0 <= i < n ==> SettledRecord(rules, s, s.records[i])
  }

  lemma ReconcileSettlesOneMore(rules: Rules, s: State, n: nat)
    requires n < |s.records| && DistinctRefs(s.records) && SettledUpTo(rules, s, n)
    ensures var t := ReconcileRecord(rules, s, n); SettledUpTo(rules, t, n + 1) && SameRefs(s.records, t.records)
  {
    hide SettledRecord, ReconciledConfirmations;
    var t := ReconcileRecord(rules, s, n);
    ReconciledIsSettled(rules, s, n);
    forall j | 0 <= j < n ensures SettledRecord(rules, t, t.records[j]) {
      ReconcileKeepsOthers(rules, s, n, j);
    }
    hide ReconciledRecord;
  }

  predicate SameRefs(a: seq<Record>, b: seq<Record>)
  {
    |a| == |b| && forall i :: 0 <= i < |a| ==> a[i].ref == b[i].ref
  }

  lemma {:induction false} ReconcileSettles(rules: Rules, s: State, n: nat)
    requires n <= |s.records| && DistinctRefs(s.records)
    ensures var t := Reconcile(rules, s, n); SettledUpTo(rules, t, n) && SameRefs(s.records, t.records)
  {
    hide SettledRecord, ReconcileRecord;
    if n > 0 {
      ReconcileSettles(rules, s, n - 1);
      ReconcileSettlesOneMore(rules, Reconcile(rules, s, n - 1), n - 1);
    }
  }

  /** Whatever the ledger was, reconciling leaves every record settled. */
  lemma ReconcileAllSettles(rules: Rules, s: State)
    requires DistinctRefs(s.records)
    ensures Settled(rules, ReconcileAll(rules, s)) && DistinctRefs(ReconcileAll(rules, s).records)
  {
    ReconcileSettles(rules, s, |s.records|);
    hide SettledRecord;
  }

  // ---------------------------------------------------------------------------------------
  // Records that share a reference

  /** Of the first `n` records, the last with this reference that is to be cleaned up. */
  predicate LastUpTo(records: seq<Record>, i: nat, n: nat)
    requires i < n <= |records|
  {
    records[i].cleanup.Some?
    && forall k :: i < k < n && records[k].ref == records[i].ref ==> records[k].cleanup.None?
  }

  predicate LastOfRef(records: seq<Record>, i: nat)
    requires i < |records|
  {
    LastUpTo(records, i, |records|)
  }

  /** The record's closing is proven: a completed one has a confirmation, one of the network
      justified, a retained one is still there. */
  ghost predicate Proven(rules: Rules, s: State, r: Record)
  {
    && (r.Is(COMPLETED) && LatestWrite(rules, s, r).Some? ==> Confirmed(s.confirmations, r.ref))
    && (r.Is(RETAINED) ==> StillThere(rules, s, r))
    && (r.Is(COMPLETED) ==>
          forall c :: c in s.confirmations && c.ref == r.ref && c.source == NETWORK ==> Justified(rules, s, r, c))
  }

  ghost predicate ProvenUpTo(rules: Rules, s: State, n: nat)
    requires n <= |s.records|
  {
    forall i :: 0 <= i < n && LastUpTo(s.records, i, n) ==> Proven(rules, s, s.records[i])
  }

  ghost predicate LastProven(rules: Rules, s: State) { ProvenUpTo(rules, s, |s.records|) }

  /** Reconciling a record leaves alone what is proven of records under other references. */
  lemma ReconcileKeepsProven(rules: Rules, s: State, i: nat, j: nat)
    requires i < |s.records| && j < |s.records| && i != j
    requires s.records[i].cleanup.Some? ==> s.records[i].ref != s.records[j].ref
    requires Proven(rules, s, s.records[j])
    ensures var t := ReconcileRecord(rules, s, i); t.records[j] == s.records[j] && Proven(rules, t, t.records[j])
  {
  }

  /** The same records are to be cleaned up, under the same references. */
  predicate SameDuties(a: seq<Record>, b: seq<Record>)
  {
    SameRefs(a, b) && forall i :: 0 <= i < |a| ==> (a[i].cleanup.Some? <==> b[i].cleanup.Some?)
  }

  lemma ReconcileProvesOneMore(rules: Rules, s: State, n: nat)
    requires n < |s.records| && ProvenUpTo(rules, s, n)
    ensures var t := ReconcileRecord(rules, s, n); ProvenUpTo(rules, t, n + 1) && SameDuties(s.records, t.records)
  {
    var t := ReconcileRecord(rules, s, n);
    assert SameDuties(s.records, t.records);
    ReconciledIsSettled(rules, s, n);
    hide Justified, StillThere, ReconcileRecord, LatestWrite;
    forall i | 0 <= i < n + 1 && LastUpTo(t.records, i, n + 1) ensures Proven(rules, t, t.records[i]) {
      if i < n {
        assert LastUpTo(s.records, i, n);
        assert s.records[n].cleanup.Some? ==> s.records[n].ref != s.records[i].ref by { assert t.records[n].ref == s.records[n].ref; }
        ReconcileKeepsProven(rules, s, n, i);
      }
    }
  }

  lemma {:induction false} ReconcileProves(rules: Rules, s: State, n: nat)
    requires n <= |s.records|
    ensures var t := Reconcile(rules, s, n); ProvenUpTo(rules, t, n) && SameDuties(s.records, t.records)
  {
    hide ProvenUpTo, ReconcileRecord;
    if n > 0 {
      ReconcileProves(rules, s, n - 1);
      ReconcileProvesOneMore(rules, Reconcile(rules, s, n - 1), n - 1);
    } else {
      NothingToProve(rules, s);
    }
  }

  lemma NothingToProve(rules: Rules, s: State)
    ensures ProvenUpTo(rules, s, 0)
  {
  }

  /** Whatever the ledger was and however references are shared, reconciling leaves the closing of
      the last record of each reference proven. */
  lemma ReconcileAllProves(rules: Rules, s: State)
    ensures LastProven(rules, ReconcileAll(rules, s))
  {
    ReconcileProves(rules, s, |s.records|);
    hide ProvenUpTo;
  }
}
