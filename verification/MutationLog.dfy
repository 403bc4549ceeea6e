/** The capped log of document mutations, and what a capture can be verified against. */
module MutationLog {

  type Target = nat

  const LOG_LIMIT := 2000

  datatype Mutation = Mutation(revision: nat, target: Target)

  /** `all` is every mutation ever recorded; the log keeps the latest. */
  datatype State = State(revision: nat, log: seq<Mutation>, all: seq<Mutation>)

  const EMPTY := State(0, [], [])

  function Latest(log: seq<Mutation>): seq<Mutation>
  {
    if |log| <= LOG_LIMIT then log else log[|log| - LOG_LIMIT..]
  }

  /** Records numbered on from a revision. */
  function Numbered(revision: nat, targets: seq<Target>): (r: seq<Mutation>)
    ensures |r| == |targets| && forall i :: 0 <= i < |r| ==> r[i] == Mutation(revision + i + 1, targets[i])
  {
    seq(|targets|, i requires 0 <= i < |targets| => Mutation(revision + i + 1, targets[i]))
  }

  function Record(s: State, targets: seq<Target>): State
  {
    var records := Numbered(s.revision, targets);
    State(s.revision + |targets|, Latest(s.log + records), s.all + records)
  }

  function Run(s: State, batches: seq<seq<Target>>): State
    decreases |batches|
  {
    if batches == [] then s else Run(Record(s, batches[0]), batches[1..])
  }

  ghost predicate Valid(s: State)
  {
    && |s.all| == s.revision
    && (forall i :: 0 <= i < |s.all| ==> s.all[i].revision == i + 1)
    && |s.log| == (if s.revision <= LOG_LIMIT then s.revision else LOG_LIMIT)
    && (forall i :: 0 <= i < |s.log| ==> s.log[i] == s.all[s.revision - |s.log| + i])
  }

  lemma {:induction false} RunIsValid(s: State, batches: seq<seq<Target>>)
    requires Valid(s)
    ensures Valid(Run(s, batches))
    decreases |batches|
  {
    hide Valid, Record;
    if batches != [] {
      RecordIsValid(s, batches[0]);
      RunIsValid(Record(s, batches[0]), batches[1..]);
    }
  }

  lemma RecordIsValid(s: State, targets: seq<Target>)
    requires Valid(s)
    ensures Valid(Record(s, targets)) && s.revision <= Record(s, targets).revision && s.all <= Record(s, targets).all
  {
  }

  /** The mutations after a revision, among the first `n`. */
  function After(log: seq<Mutation>, revision: int, n: nat): (r: seq<Mutation>)
    requires n <= |log|
  {
    if n == 0 then []
    else
      var before := After(log, revision, n - 1);
      if log[n - 1].revision > revision then before + [log[n - 1]] else before
  }

  datatype Verdict = Verdict(mutations: seq<Mutation>, changed: bool, lostHistory: bool)

  /** What is known of the mutations since a capture at this revision; -1 stands for a capture
      that did not record one. */
  function Verify(s: State, revision: int): Verdict
  {
    var mutations := After(s.log, revision, |s.log|);
    var changed := s.revision != revision;
    Verdict(mutations, changed, changed && (mutations == [] || mutations[0].revision > revision + 1))
  }

  /** Of consecutive revisions, those after a number are a suffix. */
  lemma {:induction false} AfterIsSuffix(log: seq<Mutation>, first: nat, revision: int, n: nat)
    requires n <= |log| && forall i :: 0 <= i < |log| ==> log[i].revision == first + i
    ensures var skipped := if revision < first then 0 else if revision - first + 1 <= n then revision - first + 1 else n;
      var r := After(log, revision, n);
      |r| == n - skipped && forall i :: 0 <= i < |r| ==> r[i] == log[skipped + i]
  {
    if n > 0 {
      AfterIsSuffix(log, first, revision, n - 1);
    }
  }

  /** History since a capture is lost exactly when the document has changed and the capture has no
      revision or lies more than the cap behind; otherwise the verifier sees every mutation since,
      in order. */
  lemma LostExactlyWhen(s: State, revision: int)
    requires Valid(s) && -1 <= revision <= s.revision
    ensures var v := Verify(s, revision);
      && (v.lostHistory <==> revision == -1 || s.revision - revision > LOG_LIMIT)
      && (!v.lostHistory ==> v.mutations == s.all[revision..] && (v.changed <==> v.mutations != []))
  {
    hide After;
    AfterIsSuffix(s.log, s.revision - |s.log| + 1, revision, |s.log|);
  }

  /** From a fresh document, over any batches of records. */
  lemma VerifiedSeesEveryMutation(batches: seq<seq<Target>>, more: seq<seq<Target>>)
    ensures var captured := Run(EMPTY, batches);
      var now := Run(captured, more);
      var v := Verify(now, captured.revision);
      captured.revision <= now.revision
      && (!v.lostHistory ==> now.all == captured.all + v.mutations)
  {
    var captured := Run(EMPTY, batches);
    hide Run, Record, After, Verify;
    RunIsValid(EMPTY, batches);
    RunIsValid(captured, more);
    RunAppends(captured, more);
    LostExactlyWhen(Run(captured, more), captured.revision);
  }

  lemma {:induction false} RunAppends(s: State, batches: seq<seq<Target>>)
    requires Valid(s)
    ensures s.revision <= Run(s, batches).revision && s.all <= Run(s, batches).all
    decreases |batches|
  {
    hide Valid, Record;
    if batches != [] {
      RecordIsValid(s, batches[0]);
      RunAppends(Record(s, batches[0]), batches[1..]);
    }
  }

  class Recorder {
    var mutationRevision: nat
    var mutations: seq<Mutation>
    ghost var all: seq<Mutation>

    ghost function Now(): State
      reads this
    {
      State(mutationRevision, mutations, all)
    }

    constructor ()
      ensures Now() == EMPTY && Valid(Now())
    {
      mutationRevision, mutations, all := 0, [], [];
    }

    method RecordMutations(targets: seq<Target>)
      modifies this
      ensures Now() == Record(old(Now()), targets)
    {
      for i := 0 to |targets|
        invariant mutationRevision == old(mutationRevision) + i && all == old(all)
        invariant mutations == old(mutations) + Numbered(old(mutationRevision), targets)[..i]
      {
        mutationRevision := mutationRevision + 1;
        mutations := mutations + [Mutation(mutationRevision, targets[i])];
      }
      mutations := Latest(mutations);
      all := all + Numbered(old(mutationRevision), targets);
    }
  }
}
