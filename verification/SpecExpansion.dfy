/** Expansion of a referenced specification: cases name checks of the catalog, and account
    bindings name some of their case's checks. On the way the names become ordinals, the ordinals
    criterion ids, and these the final ids. */
module SpecExpansion {
  import opened Wrappers
  import opened Numerals
  import opened SpecCheckCatalog

  /** A binding lists criterion ids, or does not restrict itself. */
  type Binding = Option<seq<Id>>

  datatype Case = Case(checkIds: seq<Id>, bindings: seq<Binding>)
  datatype Criterion = Criterion(id: Id, check: Check)
  datatype Expanded = Expanded(criteria: seq<Criterion>, bindings: seq<Binding>)

  datatype Error = DUPLICATE_CHECK_ID | FOREIGN_CRITERION | UNKNOWN_CHECK | UNKNOWN_REQUIREMENT | NO_SUCH_ORDINAL
  datatype Result<T> = Ok(value: T) | Err(error: Error)

  predicate Distinct<T(==)>(s: seq<T>) { forall i, j :: 0 <= i < j < |s| ==> s[i] != s[j] }

  function IndexOf(ids: seq<Id>, id: Id): (i: nat)
    ensures i <= |ids| && (i < |ids| ==> ids[i] == id) && (i == |ids| ==> id !in ids)
  {
    if ids == [] || ids[0] == id then 0 else 1 + IndexOf(ids[1..], id)
  }

  // ---------------------------------------------------------------------------------------
  // Names to ordinals

  function Ordinals(checkIds: seq<Id>, ids: seq<Id>): (r: Option<seq<Id>>)
    ensures r.Some? <==> forall k :: 0 <= k < |ids| ==> ids[k] in checkIds
    ensures r.Some? ==> |r.value| == |ids| && forall k :: 0 <= k < |ids| ==> r.value[k] == Decimal(IndexOf(checkIds, ids[k]) + 1)
  {
    if ids == [] then Some([])
    else
      var before := Ordinals(checkIds, ids[..|ids| - 1]);
      var i := IndexOf(checkIds, ids[|ids| - 1]);
      if before.None? || i == |checkIds| then None else Some(before.value + [Decimal(i + 1)])
  }

  function BindingOrdinals(checkIds: seq<Id>, bindings: seq<Binding>): (r: Option<seq<Binding>>)
    ensures r.Some? <==> forall k :: 0 <= k < |bindings| && bindings[k].Some? ==> Ordinals(checkIds, bindings[k].value).Some?
    ensures r.Some? ==> |r.value| == |bindings|
    ensures r.Some? ==>
      forall k :: 0 <= k < |bindings| ==>
           r.value[k] == if bindings[k].None? then None else Some(Ordinals(checkIds, bindings[k].value).value)
  {
    if bindings == [] then Some([])
    else
      var before := BindingOrdinals(checkIds, bindings[..|bindings| - 1]);
      var last := bindings[|bindings| - 1];
      if before.None? || (last.Some? && Ordinals(checkIds, last.value).None?) then None
      else Some(before.value + [if last.None? then None else Some(Ordinals(checkIds, last.value).value)])
  }

  function Checks(entries: seq<Entry>, checkIds: seq<Id>): (r: Option<seq<Check>>)
    ensures r.Some? <==> forall k :: 0 <= k < |checkIds| ==> PositionOf(entries, checkIds[k]) < |entries|
    ensures r.Some? ==> |r.value| == |checkIds|
    ensures r.Some? ==> forall k :: 0 <= k < |checkIds| ==> r.value[k] == entries[PositionOf(entries, checkIds[k])].check
  {
    if checkIds == [] then Some([])
    else
      var before := Checks(entries, checkIds[..|checkIds| - 1]);
      var at := PositionOf(entries, checkIds[|checkIds| - 1]);
      if before.None? || at == |entries| then None else Some(before.value + [entries[at].check])
  }

  datatype Referenced = Referenced(checks: seq<Check>, bindings: seq<Binding>)

  function Refer(entries: seq<Entry>, c: Case): Result<Referenced>
  {
    if !Distinct(c.checkIds) then Err(DUPLICATE_CHECK_ID)
    else
      var bindings := BindingOrdinals(c.checkIds, c.bindings);
      if bindings.None? then Err(FOREIGN_CRITERION)
      else
        var checks := Checks(entries, c.checkIds);
        if checks.None? then Err(UNKNOWN_CHECK) else Ok(Referenced(checks.value, bindings.value))
  }

  // ---------------------------------------------------------------------------------------
  // Ordinals to criteria, as for any compact specification

  function CriterionId(caseNumber: nat, ordinal: nat): Id
  {
    "case-" + Decimal(caseNumber) + "-criterion-" + Decimal(ordinal)
  }

  function CriteriaOf(caseNumber: nat, checks: seq<Check>): (r: seq<Criterion>)
    ensures |r| == |checks|
    ensures forall k :: 0 <= k < |r| ==> r[k] == Criterion(CriterionId(caseNumber, k + 1), checks[k])
  {
    seq(|checks|, k requires 0 <= k < |checks| => Criterion(CriterionId(caseNumber, k + 1), checks[k]))
  }

  predicate NamesCriterion(ordinal: Id, count: nat)
  {
    Parse(ordinal).Some? && 1 <= Parse(ordinal).value <= count
  }

  function Named(criteria: seq<Criterion>, ordinals: seq<Id>): (r: Option<seq<Id>>)
    ensures r.Some? <==> forall k :: 0 <= k < |ordinals| ==> NamesCriterion(ordinals[k], |criteria|)
    ensures r.Some? ==> |r.value| == |ordinals|
    ensures r.Some? ==> forall k :: 0 <= k < |ordinals| ==> r.value[k] == criteria[Parse(ordinals[k]).value - 1].id
  {
    if ordinals == [] then Some([])
    else
      var before := Named(criteria, ordinals[..|ordinals| - 1]);
      var last := ordinals[|ordinals| - 1];
      if before.None? || !NamesCriterion(last, |criteria|) then None
      else Some(before.value + [criteria[Parse(last).value - 1].id])
  }

  function NamedBindings(criteria: seq<Criterion>, bindings: seq<Binding>): (r: Option<seq<Binding>>)
    ensures r.Some? <==> forall k :: 0 <= k < |bindings| && bindings[k].Some? ==> Named(criteria, bindings[k].value).Some?
    ensures r.Some? ==> |r.value| == |bindings|
    ensures r.Some? ==>
      forall k :: 0 <= k < |bindings| ==>
           r.value[k] == if bindings[k].None? then None else Some(Named(criteria, bindings[k].value).value)
  {
    if bindings == [] then Some([])
    else
      var before := NamedBindings(criteria, bindings[..|bindings| - 1]);
      var last := bindings[|bindings| - 1];
      if before.None? || (last.Some? && Named(criteria, last.value).None?) then None
      else Some(before.value + [if last.None? then None else Some(Named(criteria, last.value).value)])
  }

  function Normalize(caseNumber: nat, c: Referenced, requirements: set<Id>): Result<Expanded>
  {
    if exists k :: 0 <= k < |c.checks| && c.checks[k].requirementId !in requirements then Err(Error.UNKNOWN_REQUIREMENT)
    else
      var criteria := CriteriaOf(caseNumber, c.checks);
      var bindings := NamedBindings(criteria, c.bindings);
      if bindings.None? then Err(NO_SUCH_ORDINAL) else Ok(Expanded(criteria, bindings.value))
  }

  // ---------------------------------------------------------------------------------------
  // Criteria to final ids

  function FinalId(caseNumber: nat, checkId: Id): Id { "case-" + Numbered(caseNumber, checkId) }

  function Numbered(n: nat, rest: string): string { Decimal(n) + "-" + rest }

  /** The final id of the criterion with this id; the source's map always has one. */
  function Renamed(criteria: seq<Criterion>, caseNumber: nat, checkIds: seq<Id>, id: Id): Option<Id>
    requires |criteria| == |checkIds|
  {
    if criteria == [] then None
    else
      var last := |criteria| - 1;
      if criteria[last].id == id then Some(FinalId(caseNumber, checkIds[last]))
      else Renamed(criteria[..last], caseNumber, checkIds[..last], id)
  }

  function RenamedIds(criteria: seq<Criterion>, caseNumber: nat, checkIds: seq<Id>, ids: seq<Id>): (r: seq<Option<Id>>)
    requires |criteria| == |checkIds|
    ensures |r| == |ids| && forall k :: 0 <= k < |r| ==> r[k] == Renamed(criteria, caseNumber, checkIds, ids[k])
  {
    seq(|ids|, k requires 0 <= k < |ids| => Renamed(criteria, caseNumber, checkIds, ids[k]))
  }

  /** An expanded case with its final ids; a binding id without a criterion would be `None`. */
  datatype Final = Final(criteria: seq<Criterion>, bindings: seq<Option<seq<Option<Id>>>>)

  function Finish(caseNumber: nat, checkIds: seq<Id>, e: Expanded): Final
    requires |e.criteria| == |checkIds|
  {
    Final(seq(|checkIds|, k requires 0 <= k < |checkIds| => Criterion(FinalId(caseNumber, checkIds[k]), e.criteria[k].check)),
          seq(|e.bindings|, k requires 0 <= k < |e.bindings| =>
            if e.bindings[k].None? then None
            else Some(RenamedIds(e.criteria, caseNumber, checkIds, e.bindings[k].value))))
  }

  /** The expansion of the case with this number. */
  function ExpandCase(entries: seq<Entry>, requirements: set<Id>, caseNumber: nat, c: Case): Result<Final>
  {
    var referenced := Refer(entries, c);
    if referenced.Err? then Err(referenced.error)
    else
      var expanded := Normalize(caseNumber, referenced.value, requirements);
      if expanded.Err? then Err(expanded.error) else Ok(Finish(caseNumber, c.checkIds, expanded.value))
  }

  /** The cases are well-formed: distinct known checks of known requirements, and bindings that
      name checks of their own case. */
  predicate Expandable(entries: seq<Entry>, requirements: set<Id>, c: Case)
  {
    && Distinct(c.checkIds)
    && (forall j, k :: 0 <= j < |c.bindings| && c.bindings[j].Some? && 0 <= k < |c.bindings[j].value| ==>
          c.bindings[j].value[k] in c.checkIds)
    && (forall k :: 0 <= k < |c.checkIds| ==>
          var at := PositionOf(entries, c.checkIds[k]);
          at < |entries| && entries[at].check.requirementId in requirements)
  }

  /** The meaning of a finished case: each criterion is the check of the catalog under its final
      id, and each binding lists exactly the final ids of the checks it named. */
  predicate Means(entries: seq<Entry>, caseNumber: nat, c: Case, f: Final)
  {
    && |f.criteria| == |c.checkIds| && |f.bindings| == |c.bindings|
    && (forall k :: 0 <= k < |c.checkIds| ==>
          var at := PositionOf(entries, c.checkIds[k]);
          at < |entries| && f.criteria[k] == Criterion(FinalId(caseNumber, c.checkIds[k]), entries[at].check))
    && (forall j :: 0 <= j < |c.bindings| ==>
          (f.bindings[j].None? <==> c.bindings[j].None?)
          && (c.bindings[j].Some? ==>
                |f.bindings[j].value| == |c.bindings[j].value|
                && forall k :: 0 <= k < |c.bindings[j].value| ==>
                     f.bindings[j].value[k] == Some(FinalId(caseNumber, c.bindings[j].value[k]))))
  }

  function DashIn(s: string): (i: nat)
    ensures i <= |s| && (i < |s| ==> s[i] == '-')
    ensures forall k :: 0 <= k < i ==> s[k] != '-'
  {
    if s == [] || s[0] == '-' then 0 else 1 + DashIn(s[1..])
  }

  lemma DashAfterNumeral(n: nat, rest: string)
    ensures DashIn(Numbered(n, rest)) == |Decimal(n)|
  {
    hide Decimal;
    var s := Numbered(n, rest);
    assert s[|Decimal(n)|] == '-';
    assert forall k :: 0 <= k < |Decimal(n)| ==> s[k] == Decimal(n)[k];
  }

  lemma NumberedInjective(m: nat, a: string, n: nat, b: string)
    requires Numbered(m, a) == Numbered(n, b)
    ensures m == n && a == b
  {
    hide Decimal;
    DashAfterNumeral(m, a);
    DashAfterNumeral(n, b);
    assert Decimal(m) == Numbered(m, a)[..|Decimal(m)|] == Decimal(n);
    DecimalInjective(m, n);
    assert a == Numbered(m, a)[|Decimal(m)| + 1..] == b;
  }

  /** Final ids differ between cases and between the checks of a case. */
  lemma FinalIdInjective(m: nat, a: Id, n: nat, b: Id)
    requires FinalId(m, a) == FinalId(n, b)
    ensures m == n && a == b
  {
    hide Numbered;
    assert Numbered(m, a) == FinalId(m, a)[5..] == FinalId(n, b)[5..] == Numbered(n, b);
    NumberedInjective(m, a, n, b);
  }

  lemma CriterionIdInjective(caseNumber: nat, i: nat, j: nat)
    requires CriterionId(caseNumber, i) == CriterionId(caseNumber, j)
    ensures i == j
  {
    var prefix := "case-" + Decimal(caseNumber) + "-criterion-";
    assert Decimal(i) == CriterionId(caseNumber, i)[|prefix|..] == Decimal(j);
    DecimalInjective(i, j);
  }

  /** The map of criterion ids gives back the check at that position. */
  lemma {:induction false} RenamedAt(criteria: seq<Criterion>, caseNumber: nat, checkIds: seq<Id>, i: nat)
    requires |criteria| == |checkIds| && i < |criteria|
    requires forall k :: 0 <= k < |criteria| ==> criteria[k].id == CriterionId(caseNumber, k + 1)
    ensures Renamed(criteria, caseNumber, checkIds, criteria[i].id) == Some(FinalId(caseNumber, checkIds[i]))
  {
    var last := |criteria| - 1;
    if i < last {
      if criteria[last].id == criteria[i].id {
        CriterionIdInjective(caseNumber, last + 1, i + 1);
      }
      RenamedAt(criteria[..last], caseNumber, checkIds[..last], i);
    }
  }

  /** One binding through all three translations. */
  lemma BindingRoundTrip(entries: seq<Entry>, caseNumber: nat, checkIds: seq<Id>, checks: seq<Check>, ids: seq<Id>)
    requires |checks| == |checkIds| && Ordinals(checkIds, ids).Some?
    ensures var criteria := CriteriaOf(caseNumber, checks);
      var named := Named(criteria, Ordinals(checkIds, ids).value);
      && named.Some? && |named.value| == |ids|
      && forall k :: 0 <= k < |ids| ==>
           Renamed(criteria, caseNumber, checkIds, named.value[k]) == Some(FinalId(caseNumber, ids[k]))
  {
    var criteria := CriteriaOf(caseNumber, checks);
    var ordinals := Ordinals(checkIds, ids).value;
    forall k | 0 <= k < |ids|
      ensures Parse(ordinals[k]) == Some(IndexOf(checkIds, ids[k]) + 1) && NamesCriterion(ordinals[k], |criteria|)
    {
      ParseOfDecimal(IndexOf(checkIds, ids[k]) + 1);
    }
    var named := Named(criteria, ordinals).value;
    forall k | 0 <= k < |ids|
      ensures Renamed(criteria, caseNumber, checkIds, named[k]) == Some(FinalId(caseNumber, ids[k]))
    {
      RenamedAt(criteria, caseNumber, checkIds, IndexOf(checkIds, ids[k]));
    }
  }

  /** Normalization never misses an ordinal that the first translation wrote. */
  lemma NormalizeReferred(entries: seq<Entry>, requirements: set<Id>, caseNumber: nat, c: Case)
    requires Refer(entries, c).Ok?
    ensures var r := Refer(entries, c).value;
      var n := Normalize(caseNumber, r, requirements);
      && |r.checks| == |c.checkIds|
      && (n.Ok? <==> forall k :: 0 <= k < |r.checks| ==> r.checks[k].requirementId in requirements)
      && (n.Ok? ==> n.value.criteria == CriteriaOf(caseNumber, r.checks)
                    && n.value.bindings == NamedBindings(n.value.criteria, r.bindings).value)
  {
    hide Distinct, Ordinals, Named, Checks;
    var r := Refer(entries, c).value;
    var criteria := CriteriaOf(caseNumber, r.checks);
    forall j | 0 <= j < |c.bindings| && c.bindings[j].Some? ensures Named(criteria, r.bindings[j].value).Some? {
      BindingRoundTrip(entries, caseNumber, c.checkIds, r.checks, c.bindings[j].value);
    }
    assert NamedBindings(criteria, r.bindings).Some?;
  }

  /** A case expands exactly when it is well-formed. */
  lemma ExpandsExactlyWhen(entries: seq<Entry>, requirements: set<Id>, caseNumber: nat, c: Case)
    ensures ExpandCase(entries, requirements, caseNumber, c).Ok? <==> Expandable(entries, requirements, c)
  {
    ReferredExactlyWhen(entries, requirements, c);
    hide Distinct, PositionOf, Refer, Normalize, Finish, Expandable;
    if Refer(entries, c).Ok? {
      NormalizeReferred(entries, requirements, caseNumber, c);
      NormalizedExactlyWhen(requirements, caseNumber, Refer(entries, c).value);
    }
  }

  /** Why a case is not expanded, of the reasons the first that holds: a check named twice, a binding to
      a check outside the case, a check that is not in the catalog, a requirement that is unknown. */
  lemma NotExpandedBecause(entries: seq<Entry>, requirements: set<Id>, caseNumber: nat, c: Case)
    requires ExpandCase(entries, requirements, caseNumber, c).Err?
    ensures ExpandCase(entries, requirements, caseNumber, c).error
         == if exists j, k :: 0 <= j < k < |c.checkIds| && c.checkIds[j] == c.checkIds[k] then DUPLICATE_CHECK_ID
            else if exists j, k :: 0 <= j < |c.bindings| && c.bindings[j].Some? && 0 <= k < |c.bindings[j].value|
                                   && c.bindings[j].value[k] !in c.checkIds then FOREIGN_CRITERION
            else if exists k :: 0 <= k < |c.checkIds| && PositionOf(entries, c.checkIds[k]) == |entries| then UNKNOWN_CHECK
            else Error.UNKNOWN_REQUIREMENT
  {
    hide PositionOf, Ordinals, Finish;
    if Refer(entries, c).Ok? {
      NormalizeReferred(entries, requirements, caseNumber, c);
      ReferredIsWhole(entries, c);
      hide Refer;
      MissingRequirement(requirements, caseNumber, Refer(entries, c).value);
      hide Normalize;
    } else {
      ForeignExactlyWhen(c);
      hide BindingOrdinals, Checks;
    }
  }

  lemma ReferredIsWhole(entries: seq<Entry>, c: Case)
    requires Refer(entries, c).Ok?
    ensures forall j, k :: 0 <= j < k < |c.checkIds| ==> c.checkIds[j] != c.checkIds[k]
    ensures forall j, k :: 0 <= j < |c.bindings| && c.bindings[j].Some? && 0 <= k < |c.bindings[j].value| ==>
              c.bindings[j].value[k] in c.checkIds
    ensures forall k :: 0 <= k < |c.checkIds| ==> PositionOf(entries, c.checkIds[k]) < |entries|
  {
    hide PositionOf;
  }

  lemma MissingRequirement(requirements: set<Id>, caseNumber: nat, r: Referenced)
    requires exists k :: 0 <= k < |r.checks| && r.checks[k].requirementId !in requirements
    ensures Normalize(caseNumber, r, requirements) == Err(Error.UNKNOWN_REQUIREMENT)
  {
  }

  lemma ForeignExactlyWhen(c: Case)
    ensures BindingOrdinals(c.checkIds, c.bindings).None? <==>
              exists j, k :: 0 <= j < |c.bindings| && c.bindings[j].Some? && 0 <= k < |c.bindings[j].value|
                             && c.bindings[j].value[k] !in c.checkIds
  {
  }

  ghost predicate AllRequired(requirements: set<Id>, checks: seq<Check>)
  {
    forall k :: 0 <= k < |checks| ==> checks[k].requirementId in requirements
  }

  lemma ReferredExactlyWhen(entries: seq<Entry>, requirements: set<Id>, c: Case)
    ensures Expandable(entries, requirements, c)
       <==> Refer(entries, c).Ok? && AllRequired(requirements, Refer(entries, c).value.checks)
  {
    hide Distinct, PositionOf;
  }

  lemma NormalizedExactlyWhen(requirements: set<Id>, caseNumber: nat, r: Referenced)
    ensures AllRequired(requirements, r.checks)
       <==> Normalize(caseNumber, r, requirements) != Err(Error.UNKNOWN_REQUIREMENT)
  {
    hide CriteriaOf, NamedBindings;
  }

  lemma CriteriaMeaning(entries: seq<Entry>, requirements: set<Id>, caseNumber: nat, c: Case)
    requires ExpandCase(entries, requirements, caseNumber, c).Ok?
    ensures var f := ExpandCase(entries, requirements, caseNumber, c).value;
      |f.criteria| == |c.checkIds|
      && forall k :: 0 <= k < |c.checkIds| ==>
           var at := PositionOf(entries, c.checkIds[k]);
           at < |entries| && f.criteria[k] == Criterion(FinalId(caseNumber, c.checkIds[k]), entries[at].check)
  {
  }

  lemma BindingsMeaning(entries: seq<Entry>, requirements: set<Id>, caseNumber: nat, c: Case, j: nat)
    requires ExpandCase(entries, requirements, caseNumber, c).Ok? && j < |c.bindings|
    ensures var f := ExpandCase(entries, requirements, caseNumber, c).value;
      && |f.bindings| == |c.bindings| && (f.bindings[j].None? <==> c.bindings[j].None?)
      && (c.bindings[j].Some? ==>
            |f.bindings[j].value| == |c.bindings[j].value|
            && forall k :: 0 <= k < |c.bindings[j].value| ==>
                 f.bindings[j].value[k] == Some(FinalId(caseNumber, c.bindings[j].value[k])))
  {
    NormalizeReferred(entries, requirements, caseNumber, c);
    var r := Refer(entries, c).value;
    if c.bindings[j].Some? {
      BindingRoundTrip(entries, caseNumber, c.checkIds, r.checks, c.bindings[j].value);
    }
    hide Distinct, Normalize, Renamed, Named, Ordinals, FinalId, Checks;
  }

  /** What an expanded case means: every binding names exactly the criteria of the checks it
      named, whatever happened to the ids on the way. */
  lemma ExpansionMeaning(entries: seq<Entry>, requirements: set<Id>, caseNumber: nat, c: Case)
    requires ExpandCase(entries, requirements, caseNumber, c).Ok?
    ensures Means(entries, caseNumber, c, ExpandCase(entries, requirements, caseNumber, c).value)
  {
    hide ExpandCase, FinalId, PositionOf;
    CriteriaMeaning(entries, requirements, caseNumber, c);
    forall j | 0 <= j < |c.bindings|
      ensures var f := ExpandCase(entries, requirements, caseNumber, c).value;
        && |f.bindings| == |c.bindings| && (f.bindings[j].None? <==> c.bindings[j].None?)
        && (c.bindings[j].Some? ==>
              |f.bindings[j].value| == |c.bindings[j].value|
              && forall k :: 0 <= k < |c.bindings[j].value| ==>
                   f.bindings[j].value[k] == Some(FinalId(caseNumber, c.bindings[j].value[k])))
    {
      BindingsMeaning(entries, requirements, caseNumber, c, j);
    }
    BindingCount(entries, requirements, caseNumber, c);
  }

  lemma BindingCount(entries: seq<Entry>, requirements: set<Id>, caseNumber: nat, c: Case)
    requires ExpandCase(entries, requirements, caseNumber, c).Ok?
    ensures |ExpandCase(entries, requirements, caseNumber, c).value.bindings| == |c.bindings|
  {
  }

  /** Criterion ids are distinct over the whole specification. */
  lemma FinalIdsDistinct(entries: seq<Entry>, m: nat, c: Case, f: Final, i: nat, n: nat, d: Case, g: Final, j: nat)
    requires Distinct(c.checkIds) && Distinct(d.checkIds) && (m == n ==> c == d)
    requires Means(entries, m, c, f) && Means(entries, n, d, g) && i < |f.criteria| && j < |g.criteria|
    requires f.criteria[i].id == g.criteria[j].id
    ensures m == n && i == j
  {
    FinalIdInjective(m, c.checkIds[i], n, d.checkIds[j]);
  }
}
