/** The catalog of accepted checks of one specification attempt: batches of definitions, of which
    each item is accepted or refused on its own. */
module SpecCheckCatalog {
  import opened Wrappers
  import opened Numerals

  type Id = string

  /** A parsed check. `body` stands for everything the catalog only compares. */
  datatype Check = Check(
    requirementId: Id, business: bool, contract: Option<nat>, targets: bool, body: nat)

  datatype Item = Unparsable | Item(checkId: Option<Id>, check: Check)

  datatype Entry = Entry(id: Id, check: Check)

  const MAX_CHECKS := 500
  const MAX_BATCH := 100

  datatype Code =
    | INVALID_CHECK | INVALID_CHECK_ID | CONTRACT_UNSUPPORTED | UNKNOWN_REQUIREMENT | REQUIREMENT_CHANGED
    | CONTRACT_DOWNGRADE | CONFLICTING_CHECK_FORMAT | CRITERION_ISSUES | CHECK_LIMIT

  datatype Issue = Issue(index: nat, code: Code)
  datatype Saved = Saved(index: nat, checkId: Id, requirementId: Id)

  /** What a batch is judged against. `flawed` is the verdict on the expanded criterion, which
      is named after the check or after the position of the input. */
  datatype Rules = Rules(businessEnabled: bool, requirements: set<Id>, flawed: (Check, Id) -> bool)

  datatype Batch = Batch(entries: seq<Entry>, updated: set<Id>, changed: bool, saved: seq<Saved>, issues: seq<Issue>)

  function CheckId(n: nat): Id { "check-" + Decimal(n) }

  /** Position of the entry with this id, or the number of entries. */
  function PositionOf(entries: seq<Entry>, id: Id): (i: nat)
    ensures i <= |entries| && (i < |entries| ==> entries[i].id == id)
    ensures forall k :: 0 <= k < i ==> entries[k].id != id
  {
    if entries == [] || entries[0].id == id then 0 else 1 + PositionOf(entries[1..], id)
  }

  /** Position of the first entry with this content, or the number of entries. */
  function HolderOf(entries: seq<Entry>, check: Check): (i: nat)
    ensures i <= |entries| && (i < |entries| ==> entries[i].check == check)
    ensures forall k :: 0 <= k < i ==> entries[k].check != check
  {
    if entries == [] || entries[0].check == check then 0 else 1 + HolderOf(entries[1..], check)
  }

  function InputName(index: nat): Id { "input-" + Decimal(index) }

  /** The first objection to an item, in the order of the checks. */
  function Objection(b: Batch, rules: Rules, item: Item, index: nat): Option<Code>
  {
    if item.Unparsable? then Some(INVALID_CHECK)
    else
      var check := item.check;
      var at := if item.checkId.Some? then PositionOf(b.entries, item.checkId.value) else |b.entries|;
      if item.checkId.Some? && (at == |b.entries| || item.checkId.value in b.updated) then Some(INVALID_CHECK_ID)
      else if !rules.businessEnabled && (check.business || check.contract == Some(3)) then Some(CONTRACT_UNSUPPORTED)
      else if check.requirementId !in rules.requirements then Some(UNKNOWN_REQUIREMENT)
      else if item.checkId.Some? && b.entries[at].check.requirementId != check.requirementId then Some(REQUIREMENT_CHANGED)
      else if item.checkId.Some? && (b.entries[at].check.contract.Some? || b.entries[at].check.business)
              && check.contract.None? && !check.business then Some(CONTRACT_DOWNGRADE)
      else if check.business && (check.contract.Some? || check.targets) then Some(CONFLICTING_CHECK_FORMAT)
      else if rules.flawed(check, if item.checkId.Some? then item.checkId.value else InputName(index))
        then Some(CRITERION_ISSUES)
      else if item.checkId.None? && HolderOf(b.entries, check) == |b.entries| && |b.entries| >= MAX_CHECKS
        then Some(CHECK_LIMIT)
      else None
  }

  /** Where an accepted item goes: the entry it names, one with the same content, or a new one. */
  function TargetOf(entries: seq<Entry>, item: Item): (i: nat)
    requires item.Item?
    ensures i <= |entries|
  {
    if item.checkId.Some? then PositionOf(entries, item.checkId.value) else HolderOf(entries, item.check)
  }

  function Place(entries: seq<Entry>, i: nat, check: Check): seq<Entry>
    requires i <= |entries|
  {
    if i == |entries| then entries + [Entry(CheckId(|entries| + 1), check)] else entries[i := entries[i].(check := check)]
  }

  function DefineItem(b: Batch, rules: Rules, item: Item, index: nat): Batch
  {
    var objection := Objection(b, rules, item, index);
    if objection.Some? then b.(issues := b.issues + [Issue(index, objection.value)])
    else
      var i := TargetOf(b.entries, item);
      var entries := Place(b.entries, i, item.check);
      Batch(entries, b.updated + {entries[i].id}, b.changed || entries != b.entries,
            b.saved + [Saved(index, entries[i].id, item.check.requirementId)], b.issues)
  }

  /** The batch after its first `n` items. */
  function DefineItems(entries: seq<Entry>, rules: Rules, items: seq<Item>, n: nat): Batch
    requires n <= |items|
  {
    if n == 0 then Batch(entries, {}, false, [], [])
    else DefineItem(DefineItems(entries, rules, items, n - 1), rules, items[n - 1], n - 1)
  }

  datatype Catalog = Catalog(entries: seq<Entry>, revision: nat)
  datatype Answer = Malformed | StaleRevision | Defined(accepted: bool, revision: nat, saved: seq<Saved>, issues: seq<Issue>)

  function Define(c: Catalog, rules: Rules, expected: nat, items: seq<Item>): (Catalog, Answer)
  {
    if !(1 <= |items| <= MAX_BATCH) then (c, Malformed)
    else if expected != c.revision then (c, StaleRevision)
    else
      var b := DefineItems(c.entries, rules, items, |items|);
      var revision := if b.changed then c.revision + 1 else c.revision;
      (Catalog(b.entries, revision), Defined(b.issues == [], revision, b.saved, b.issues))
  }

  // ---------------------------------------------------------------------------------------
  // Invariants

  /** Ids are check-1 to check-n in order, and there are never too many. */
  ghost predicate Valid(entries: seq<Entry>)
  {
    |entries| <= MAX_CHECKS && forall i :: 0 <= i < |entries| ==> entries[i].id == CheckId(i + 1)
  }

  /** No check is removed, renamed or moved to another requirement. */
  ghost predicate Extends(before: seq<Entry>, after: seq<Entry>)
  {
    |before| <= |after|
    && forall i :: 0 <= i < |before| ==>
         after[i].id == before[i].id && after[i].check.requirementId == before[i].check.requirementId
  }

  /** Each entry the batch touched is in `updated`; `changed` tells whether any differs. */
  ghost predicate Tracks(before: seq<Entry>, b: Batch)
  {
    && Valid(b.entries) && Extends(before, b.entries)
    && (forall i :: 0 <= i < |b.entries| && (i >= |before| || b.entries[i] != before[i]) ==> b.entries[i].id in b.updated)
    && (b.changed <==> b.entries != before)
  }

  lemma PositionIsUnique(entries: seq<Entry>, i: nat)
    requires Valid(entries) && i < |entries|
    ensures PositionOf(entries, entries[i].id) == i
  {
    var k := PositionOf(entries, entries[i].id);
    assert k <= i;
    CheckIdInjective(k + 1, i + 1);
  }

  lemma CheckIdInjective(m: nat, n: nat)
    ensures CheckId(m) == CheckId(n) <==> m == n
  {
    if CheckId(m) == CheckId(n) {
      assert Decimal(m) == CheckId(m)[6..] && Decimal(n) == CheckId(n)[6..];
      DecimalInjective(m, n);
    }
  }

  lemma ItemTracks(before: seq<Entry>, b: Batch, rules: Rules, item: Item, index: nat)
    requires Tracks(before, b)
    ensures Tracks(before, DefineItem(b, rules, item, index))
  {
    if Objection(b, rules, item, index).None? {
      hide Objection, TargetOf, CheckId, Tracks;
      var i := TargetOf(b.entries, item);
      var after := DefineItem(b, rules, item, index);
      if i == |b.entries| {
        NewTracks(before, b, after, item.check);
      } else {
        UpdateTracks(before, b, after, i, item.check);
      }
    }
  }

  lemma NewTracks(before: seq<Entry>, b: Batch, after: Batch, check: Check)
    requires Tracks(before, b) && |b.entries| < MAX_CHECKS
    requires after.entries == b.entries + [Entry(CheckId(|b.entries| + 1), check)]
    requires after.updated == b.updated + {CheckId(|b.entries| + 1)} && after.changed
    ensures Tracks(before, after)
  {
  }

  lemma UpdateTracks(before: seq<Entry>, b: Batch, after: Batch, i: nat, check: Check)
    requires Tracks(before, b) && i < |b.entries|
    requires b.entries[i].check != check ==> b.entries[i].id !in b.updated
    requires b.entries[i].check.requirementId == check.requirementId
    requires after.entries == b.entries[i := b.entries[i].(check := check)]
    requires after.updated == b.updated + {b.entries[i].id} && after.changed == (b.changed || after.entries != b.entries)
    ensures Tracks(before, after)
  {
  }

  lemma {:induction false} ItemsTrack(entries: seq<Entry>, rules: Rules, items: seq<Item>, n: nat)
    requires n <= |items| && Valid(entries)
    ensures Tracks(entries, DefineItems(entries, rules, items, n))
  {
    if n > 0 {
      ItemsTrack(entries, rules, items, n - 1);
      ItemTracks(entries, DefineItems(entries, rules, items, n - 1), rules, items[n - 1], n - 1);
    }
  }

  /** Every call keeps the ids and the requirement of each check; the revision rises by exactly
      one if the contents change and stays otherwise. */
  lemma DefineKeepsCatalog(c: Catalog, rules: Rules, expected: nat, items: seq<Item>)
    requires Valid(c.entries)
    ensures var after := Define(c, rules, expected, items).0;
      && Valid(after.entries) && Extends(c.entries, after.entries)
      && after.revision == (if after.entries == c.entries then c.revision else c.revision + 1)
  {
    ItemsTrack(c.entries, rules, items, |items|);
  }

  // ---------------------------------------------------------------------------------------
  // Why an item is refused

  predicate Holds(entries: seq<Entry>, id: Id) { exists i :: 0 <= i < |entries| && entries[i].id == id }

  /** What is wrong with an item. */
  ghost predicate Defect(b: Batch, rules: Rules, item: Item, index: nat, code: Code)
  {
    match code
    case INVALID_CHECK => item.Unparsable?
    case INVALID_CHECK_ID =>
      item.Item? && item.checkId.Some? && (!Holds(b.entries, item.checkId.value) || item.checkId.value in b.updated)
    case CONTRACT_UNSUPPORTED => item.Item? && !rules.businessEnabled && (item.check.contract == Some(3) || item.check.business)
    case UNKNOWN_REQUIREMENT => item.Item? && item.check.requirementId !in rules.requirements
    case REQUIREMENT_CHANGED =>
      item.Item? && exists e :: e in b.entries && Some(e.id) == item.checkId && e.check.requirementId != item.check.requirementId
    case CONTRACT_DOWNGRADE =>
      item.Item? && !item.check.business && item.check.contract.None?
      && exists e :: e in b.entries && Some(e.id) == item.checkId && !(e.check.contract.None? && !e.check.business)
    case CONFLICTING_CHECK_FORMAT => item.Item? && item.check.business && !(item.check.contract.None? && !item.check.targets)
    case CRITERION_ISSUES =>
      item.Item? && rules.flawed(item.check, match item.checkId case Some(id) => id case None => "input-" + Decimal(index))
    case CHECK_LIMIT =>
      item.Item? && item.checkId.None? && |b.entries| >= 500 && forall e :: e in b.entries ==> e.check != item.check
  }

  function Rank(code: Code): nat
  {
    match code
    case INVALID_CHECK => 0
    case INVALID_CHECK_ID => 1
    case CONTRACT_UNSUPPORTED => 2
    case UNKNOWN_REQUIREMENT => 3
    case REQUIREMENT_CHANGED => 4
    case CONTRACT_DOWNGRADE => 5
    case CONFLICTING_CHECK_FORMAT => 6
    case CRITERION_ISSUES => 7
    case CHECK_LIMIT => 8
  }

  /** An item is refused for the first of its defects, and accepted exactly if it has none. */
  lemma RefusedForFirstDefect(b: Batch, rules: Rules, item: Item, index: nat, code: Code)
    requires Valid(b.entries)
    ensures Objection(b, rules, item, index) == Some(code)
       <==> Defect(b, rules, item, index, code) && forall d :: Rank(d) < Rank(code) ==> !Defect(b, rules, item, index, d)
    ensures Objection(b, rules, item, index).None? <==> forall d :: !Defect(b, rules, item, index, d)
  {
    ObjectionIsFirst(b, rules, item, index);
    hide Objection, Defect;
    var o := Objection(b, rules, item, index);
    RanksDiffer(code, if o.Some? then o.value else code);
    if o.Some? {
      assert Defect(b, rules, item, index, o.value);
    }
  }

  lemma RanksDiffer(a: Code, b: Code)
    ensures a == b <==> Rank(a) == Rank(b)
  {
  }

  lemma ObjectionIsFirst(b: Batch, rules: Rules, item: Item, index: nat)
    requires Valid(b.entries)
    ensures var o := Objection(b, rules, item, index);
      && (o.Some? ==> Defect(b, rules, item, index, o.value))
      && forall d :: (o.Some? ==> Rank(d) < Rank(o.value)) ==> !Defect(b, rules, item, index, d)
  {
    var o := Objection(b, rules, item, index);
    if item.Item? {
      if o.Some? {
        ObjectionIsDefect(b, rules, item, index);
      }
      forall d | o.Some? ==> Rank(d) < Rank(o.value) ensures !Defect(b, rules, item, index, d) {
        NoEarlierDefect(b, rules, item, index, d);
      }
    }
    hide Defect;
  }

  lemma ObjectionIsDefect(b: Batch, rules: Rules, item: Item, index: nat)
    requires Valid(b.entries) && item.Item? && Objection(b, rules, item, index).Some?
    ensures Defect(b, rules, item, index, Objection(b, rules, item, index).value)
  {
    HolderExactlyWhen(b.entries, item.check);
    if item.checkId.Some? {
      EntryIs(b.entries, item.checkId.value);
      NamedObjectionIsDefect(b, rules, item, index);
    }
    hide PositionOf, HolderOf, CheckId, Decimal, Holds, Valid;
  }

  lemma NamedObjectionIsDefect(b: Batch, rules: Rules, item: Item, index: nat)
    requires item.Item? && item.checkId.Some? && Objection(b, rules, item, index).Some?
    requires Holds(b.entries, item.checkId.value) <==> PositionOf(b.entries, item.checkId.value) < |b.entries|
    ensures Defect(b, rules, item, index, Objection(b, rules, item, index).value)
  {
    hide PositionOf, HolderOf, CheckId, Decimal, Holds;
    var at := PositionOf(b.entries, item.checkId.value);
    assert at < |b.entries| ==> b.entries[at] in b.entries && Some(b.entries[at].id) == item.checkId;
  }

  lemma NoEarlierDefect(b: Batch, rules: Rules, item: Item, index: nat, d: Code)
    requires Valid(b.entries) && item.Item?
    requires var o := Objection(b, rules, item, index); o.Some? ==> Rank(d) < Rank(o.value)
    ensures !Defect(b, rules, item, index, d)
  {
    HolderExactlyWhen(b.entries, item.check);
    if item.checkId.Some? {
      EntryIs(b.entries, item.checkId.value);
      NoEarlierDefectNamed(b, rules, item, index, d);
    }
    hide PositionOf, HolderOf, CheckId, Decimal, Holds, Valid;
  }

  lemma NoEarlierDefectNamed(b: Batch, rules: Rules, item: Item, index: nat, d: Code)
    requires item.Item? && item.checkId.Some?
    requires Holds(b.entries, item.checkId.value) <==> PositionOf(b.entries, item.checkId.value) < |b.entries|
    requires forall e :: e in b.entries && e.id == item.checkId.value ==>
               PositionOf(b.entries, item.checkId.value) < |b.entries| && e == b.entries[PositionOf(b.entries, item.checkId.value)]
    requires var o := Objection(b, rules, item, index); o.Some? ==> Rank(d) < Rank(o.value)
    ensures !Defect(b, rules, item, index, d)
  {
    hide PositionOf, HolderOf, CheckId, Decimal, Holds;
  }

  /** The entry of an id is the only one. */
  lemma EntryIs(entries: seq<Entry>, id: Id)
    requires Valid(entries)
    ensures Holds(entries, id) <==> PositionOf(entries, id) < |entries|
    ensures forall e :: e in entries && e.id == id ==> PositionOf(entries, id) < |entries| && e == entries[PositionOf(entries, id)]
  {
    forall e | e in entries && e.id == id ensures PositionOf(entries, id) < |entries| && e == entries[PositionOf(entries, id)] {
      var i :| 0 <= i < |entries| && entries[i] == e;
      PositionIsUnique(entries, i);
    }
    hide PositionOf;
    if PositionOf(entries, id) < |entries| {
      assert entries[PositionOf(entries, id)].id == id;
    }
  }

  lemma HolderExactlyWhen(entries: seq<Entry>, check: Check)
    ensures HolderOf(entries, check) == |entries| <==> forall e :: e in entries ==> e.check != check
  {
    hide HolderOf;
  }

  /** A batch is judged only if it has one to a hundred items and was written for the present revision;
      otherwise nothing changes. The answer names the revision the catalog then has. */
  lemma AnsweredExactlyWhen(c: Catalog, rules: Rules, expected: nat, items: seq<Item>)
    ensures var (after, answer) := Define(c, rules, expected, items);
      && (answer.Malformed? <==> |items| == 0 || |items| > 100)
      && (answer.Defined? <==> 0 < |items| <= 100 && expected == c.revision)
      && (!answer.Defined? ==> after == c)
      && (answer.Defined? ==>
            && answer.revision == after.revision && (answer.accepted <==> answer.issues == [])
            && |answer.issues| + |answer.saved| == |items|)
  {
    CountAnswers(c.entries, rules, items, |items|);
  }

  lemma {:induction false} CountAnswers(entries: seq<Entry>, rules: Rules, items: seq<Item>, n: nat)
    requires n <= |items|
    ensures var b := DefineItems(entries, rules, items, n); |b.issues| + |b.saved| == n
  {
    hide Objection, TargetOf, Place;
    if n > 0 {
      CountAnswers(entries, rules, items, n - 1);
    }
  }

  /** What an item is told: why it is refused, or under which id it is held from now on. */
  lemma ItemIsTold(b: Batch, rules: Rules, item: Item, index: nat)
    requires Valid(b.entries)
    ensures var after := DefineItem(b, rules, item, index);
      if Objection(b, rules, item, index).Some?
      then after == b.(issues := after.issues)
           && after.issues == b.issues + [Issue(index, Objection(b, rules, item, index).value)]
      else exists id ::
        && after.saved == b.saved + [Saved(index, id, item.check.requirementId)] && after.issues == b.issues
        && Entry(id, item.check) in after.entries && (item.checkId.Some? ==> id == item.checkId.value)
        && (item.checkId.None? && !Holds(b.entries, id) ==> forall e :: e in b.entries ==> e.check != item.check)
  {
    if Objection(b, rules, item, index).None? {
      HolderExactlyWhen(b.entries, item.check);
      var after := DefineItem(b, rules, item, index);
      var i := TargetOf(b.entries, item);
      hide Objection;
      assert after.entries[i] in after.entries;
      assert after.entries[i] == Entry(after.entries[i].id, item.check);
      if i < |b.entries| {
        assert b.entries[i].id == after.entries[i].id;
      }
    }
  }

  // ---------------------------------------------------------------------------------------
  // Submitting a batch again

  /** The objections that depend on nothing but the item. */
  predicate Sound(rules: Rules, item: Item, index: nat)
  {
    && item.Item?
    && (rules.businessEnabled || !(item.check.business || item.check.contract == Some(3)))
    && item.check.requirementId in rules.requirements
    && !(item.check.business && (item.check.contract.Some? || item.check.targets))
    && !rules.flawed(item.check, if item.checkId.Some? then item.checkId.value else InputName(index))
  }

  /** The catalog already holds the item, under its id if it names one. */
  predicate Settled(entries: seq<Entry>, item: Item)
  {
    && item.Item?
    && TargetOf(entries, item) < |entries| && entries[TargetOf(entries, item)].check == item.check
  }

  predicate IdsOnce(items: seq<Item>, n: nat)
    requires n <= |items|
  {
    forall j, k :: 0 <= j < k < n && items[j].Item? && items[k].Item? && items[j].checkId.Some? ==>
      items[j].checkId != items[k].checkId
  }

  /** An entry that the batch has settled for an item. */
  ghost predicate SettledIn(b: Batch, item: Item)
  {
    item.Item?
    && exists i :: 0 <= i < |b.entries| && b.entries[i].id in b.updated && b.entries[i].check == item.check
                   && (item.checkId.Some? ==> b.entries[i].id == item.checkId.value)
  }

  lemma ItemSettles(before: seq<Entry>, b: Batch, rules: Rules, item: Item, index: nat)
    requires Tracks(before, b) && Objection(b, rules, item, index).None?
    ensures var after := DefineItem(b, rules, item, index);
      && SettledIn(after, item) && Sound(rules, item, index)
      && forall other :: SettledIn(b, other) ==> SettledIn(after, other)
  {
    var after := DefineItem(b, rules, item, index);
    var i := TargetOf(b.entries, item);
    assert after.entries[i].id in after.updated && after.entries[i].check == item.check;
    forall other | SettledIn(b, other) ensures SettledIn(after, other) {
      var k :| 0 <= k < |b.entries| && b.entries[k].id in b.updated && b.entries[k].check == other.check
               && (other.checkId.Some? ==> b.entries[k].id == other.checkId.value);
      assert after.entries[k] == b.entries[k];
    }
  }

  /** The first `n` items are settled and sound, and no id is named twice among them. */
  ghost predicate AllSettled(b: Batch, rules: Rules, items: seq<Item>, n: nat)
    requires n <= |items|
  {
    (forall k :: 0 <= k < n ==> SettledIn(b, items[k]) && Sound(rules, items[k], k)) && IdsOnce(items, n)
  }

  lemma AcceptedStep(before: seq<Entry>, b: Batch, rules: Rules, items: seq<Item>, n: nat)
    requires n < |items| && Tracks(before, b) && AllSettled(b, rules, items, n)
    requires Objection(b, rules, items[n], n).None?
    ensures AllSettled(DefineItem(b, rules, items[n], n), rules, items, n + 1)
  {
    ItemSettles(before, b, rules, items[n], n);
    hide Objection, SettledIn, Sound, Tracks, DefineItem;
    forall j | 0 <= j < n && items[j].checkId.Some? ensures items[j].checkId != items[n].checkId {
      NamedOnce(b, rules, items[j], items[n], n);
    }
    AllOneMore(b, DefineItem(b, rules, items[n], n), rules, items, n);
  }

  lemma AllOneMore(b: Batch, after: Batch, rules: Rules, items: seq<Item>, n: nat)
    requires n < |items| && AllSettled(b, rules, items, n) && SettledIn(after, items[n]) && Sound(rules, items[n], n)
    requires forall other :: SettledIn(b, other) ==> SettledIn(after, other)
    requires forall j :: 0 <= j < n && items[j].checkId.Some? ==> items[j].checkId != items[n].checkId
    ensures AllSettled(after, rules, items, n + 1)
  {
    hide SettledIn, Sound;
  }

  lemma NoIssue(b: Batch, rules: Rules, item: Item, index: nat)
    ensures DefineItem(b, rules, item, index).issues == [] ==> b.issues == [] && Objection(b, rules, item, index).None?
  {
  }

  /** What an accepted batch leaves behind: every item settled, no id named twice. */
  lemma {:induction false} AcceptedSettles(entries: seq<Entry>, rules: Rules, items: seq<Item>, n: nat)
    requires n <= |items| && Valid(entries) && DefineItems(entries, rules, items, n).issues == []
    ensures AllSettled(DefineItems(entries, rules, items, n), rules, items, n)
  {
    hide Objection, Tracks, DefineItem;
    if n > 0 {
      hide AllSettled;
      ItemsTrack(entries, rules, items, n - 1);
      NoIssue(DefineItems(entries, rules, items, n - 1), rules, items[n - 1], n - 1);
      AcceptedSettles(entries, rules, items, n - 1);
      AcceptedStep(entries, DefineItems(entries, rules, items, n - 1), rules, items, n - 1);
    }
  }

  lemma NamedOnce(b: Batch, rules: Rules, earlier: Item, item: Item, index: nat)
    requires SettledIn(b, earlier) && Objection(b, rules, item, index).None? && earlier.checkId.Some?
    ensures earlier.checkId != item.checkId
  {
  }

  lemma SettledInIsSettled(b: Batch, item: Item)
    requires Valid(b.entries) && SettledIn(b, item)
    ensures Settled(b.entries, item)
  {
    var i :| 0 <= i < |b.entries| && b.entries[i].id in b.updated && b.entries[i].check == item.check
             && (item.checkId.Some? ==> b.entries[i].id == item.checkId.value);
    PositionIsUnique(b.entries, i);
  }

  /** An item that names an id after an earlier item without one was recognised as that entry. */
  predicate Clashes(entries: seq<Entry>, items: seq<Item>, k: nat)
    requires k < |items|
  {
    items[k].Item?
    && exists j :: 0 <= j < k && items[j].Item? && items[j].checkId.None?
                   && HolderOf(entries, items[j].check) < |entries|
                   && items[k].checkId == Some(entries[HolderOf(entries, items[j].check)].id)
  }

  predicate NoClash(entries: seq<Entry>, items: seq<Item>, n: nat)
    requires n <= |items|
  {
    forall k :: 0 <= k < n ==> !Clashes(entries, items, k)
  }

  lemma NoClashStep(entries: seq<Entry>, items: seq<Item>, n: nat)
    requires n < |items|
    ensures NoClash(entries, items, n + 1) <==> NoClash(entries, items, n) && !Clashes(entries, items, n)
  {
  }

  /** The id an item takes when it is submitted again. */
  function Taken(entries: seq<Entry>, item: Item): Id
    requires Settled(entries, item)
  {
    entries[TargetOf(entries, item)].id
  }

  ghost predicate AllSettledAt(entries: seq<Entry>, items: seq<Item>)
  {
    forall k :: 0 <= k < |items| ==> Settled(entries, items[k])
  }

  /** The batch so far when every settled item is submitted again. */
  ghost predicate Retaken(b: Batch, entries: seq<Entry>, items: seq<Item>, n: nat)
    requires n <= |items| && AllSettledAt(entries, items)
  {
    && b.entries == entries && !b.changed
    && (b.issues == [] <==> NoClash(entries, items, n))
    && AreTaken(entries, items, n, b.updated)
  }

  /** The ids are taken by the first `n` items, among them all those without an id of their own. */
  ghost predicate AreTaken(entries: seq<Entry>, items: seq<Item>, n: nat, ids: set<Id>)
    requires n <= |items| && AllSettledAt(entries, items)
  {
    && (forall j :: 0 <= j < n && items[j].checkId.None? ==> Taken(entries, items[j]) in ids)
    && (forall id :: id in ids ==> exists j :: 0 <= j < n && Taken(entries, items[j]) == id)
  }

  lemma TakenByOneMore(entries: seq<Entry>, items: seq<Item>, n: nat, ids: set<Id>, clash: bool)
    requires n < |items| && AllSettledAt(entries, items) && AreTaken(entries, items, n, ids)
    requires clash ==> items[n].checkId.Some?
    ensures AreTaken(entries, items, n + 1, if clash then ids else ids + {Taken(entries, items[n])})
  {
  }

  lemma RetakenItem(b: Batch, entries: seq<Entry>, rules: Rules, items: seq<Item>, n: nat)
    requires n < |items| && AllSettledAt(entries, items) && Retaken(b, entries, items, n)
    requires Sound(rules, items[n], n) && IdsOnce(items, |items|)
    ensures Objection(b, rules, items[n], n) == if Clashes(entries, items, n) then Some(INVALID_CHECK_ID) else None
  {
  }

  /** The batch after one more item of a batch submitted again. */
  lemma RetakenBatch(b: Batch, entries: seq<Entry>, rules: Rules, items: seq<Item>, n: nat)
    requires n < |items| && Valid(entries) && AllSettledAt(entries, items) && Retaken(b, entries, items, n)
    requires Sound(rules, items[n], n) && IdsOnce(items, |items|)
    ensures var after := DefineItem(b, rules, items[n], n);
      && after.entries == entries && !after.changed
      && (after.issues == [] <==> b.issues == [] && !Clashes(entries, items, n))
      && after.updated == if Clashes(entries, items, n) then b.updated
                          else b.updated + {Taken(entries, items[n])}
  {
    RetakenItem(b, entries, rules, items, n);
    hide Objection, Sound, IdsOnce, Valid, Clashes;
    var after := DefineItem(b, rules, items[n], n);
    if !Clashes(entries, items, n) {
      assert after.entries == entries;
    }
  }

  lemma RetakenStep(b: Batch, entries: seq<Entry>, rules: Rules, items: seq<Item>, n: nat)
    requires n < |items| && Valid(entries) && AllSettledAt(entries, items) && Retaken(b, entries, items, n)
    requires Sound(rules, items[n], n) && IdsOnce(items, |items|)
    ensures Retaken(DefineItem(b, rules, items[n], n), entries, items, n + 1)
  {
    RetakenBatch(b, entries, rules, items, n);
    assert Clashes(entries, items, n) ==> items[n].checkId.Some?;
    NoClashStep(entries, items, n);
    TakenByOneMore(entries, items, n, b.updated, Clashes(entries, items, n));
    hide Objection, Sound, IdsOnce, Valid, Clashes, NoClash, DefineItem, Taken, AreTaken, AllSettledAt;
  }

  lemma {:induction false} RetakenItems(entries: seq<Entry>, rules: Rules, items: seq<Item>, n: nat)
    requires n <= |items| && Valid(entries) && IdsOnce(items, |items|)
    requires AllSettledAt(entries, items) && forall k :: 0 <= k < |items| ==> Sound(rules, items[k], k)
    ensures Retaken(DefineItems(entries, rules, items, n), entries, items, n)
  {
    hide Objection, Sound, IdsOnce, Valid, Settled, Clashes, Retaken, DefineItem, AllSettledAt, Taken;
    if n == 0 {
      RetakenStart(entries, items);
    } else {
      RetakenItems(entries, rules, items, n - 1);
      RetakenStep(DefineItems(entries, rules, items, n - 1), entries, rules, items, n - 1);
    }
  }

  lemma RetakenStart(entries: seq<Entry>, items: seq<Item>)
    requires AllSettledAt(entries, items)
    ensures Retaken(Batch(entries, {}, false, [], []), entries, items, 0)
  {
  }

  /** Submitting a fully accepted batch again changes neither contents nor revision, and it is
      fully accepted again exactly when no item names an id after an earlier item without one
      has been recognised as that very entry. */
  lemma ResubmissionChangesNothing(c: Catalog, rules: Rules, items: seq<Item>)
    requires Valid(c.entries) && Define(c, rules, c.revision, items).1.Defined?
    requires Define(c, rules, c.revision, items).1.accepted
    ensures var first := Define(c, rules, c.revision, items).0;
      var again := Define(first, rules, first.revision, items);
      && again.0 == first
      && (again.1.accepted <==> NoClash(first.entries, items, |items|))
  {
    hide Clashes, Settled, SettledIn, Sound, IdsOnce, Valid, DefineItem, Objection;
    var b := DefineItems(c.entries, rules, items, |items|);
    ItemsTrack(c.entries, rules, items, |items|);
    AcceptedSettles(c.entries, rules, items, |items|);
    forall k | 0 <= k < |items| ensures Settled(b.entries, items[k]) {
      SettledInIsSettled(b, items[k]);
    }
    RetakenItems(b.entries, rules, items, |items|);
  }

  /** Such a batch exists: with a first check P and a second check C, the unnamed item C is
      recognised as the second check, and naming the first check for C then makes it the holder. */
  lemma ResubmissionMayBeRefused(rules: Rules, p: Check, c: Check)
    requires p != c && p.requirementId == c.requirementId && p.contract.None? && !p.business
    requires Sound(rules, Item(None, c), 0) && Sound(rules, Item(Some(CheckId(1)), c), 1)
    ensures var catalog := Catalog([Entry(CheckId(1), p), Entry(CheckId(2), c)], 1);
      var items := [Item(None, c), Item(Some(CheckId(1)), c)];
      var first := Define(catalog, rules, 1, items);
      && Valid(catalog.entries) && first.1.Defined? && first.1.accepted
      && !Define(first.0, rules, first.0.revision, items).1.accepted
  {
    var entries := [Entry(CheckId(1), p), Entry(CheckId(2), c)];
    var items := [Item(None, c), Item(Some(CheckId(1)), c)];
    CheckIdInjective(1, 2);
    hide CheckId;
    BothAreDefined(rules, p, c, entries, items);
    var two := DefineItems(entries, rules, items, 2);
    ResubmissionChangesNothing(Catalog(entries, 1), rules, items);
    hide DefineItem, Sound;
    assert HolderOf(two.entries, c) == 0;
    assert Clashes(two.entries, items, 1);
  }

  lemma BothAreDefined(rules: Rules, p: Check, c: Check, entries: seq<Entry>, items: seq<Item>)
    requires p != c && p.requirementId == c.requirementId && p.contract.None? && !p.business && CheckId(1) != CheckId(2)
    requires Sound(rules, Item(None, c), 0) && Sound(rules, Item(Some(CheckId(1)), c), 1)
    requires entries == [Entry(CheckId(1), p), Entry(CheckId(2), c)] && items == [Item(None, c), Item(Some(CheckId(1)), c)]
    ensures var two := DefineItems(entries, rules, items, 2);
      two.issues == [] && two.entries == [Entry(CheckId(1), c), Entry(CheckId(2), c)]
  {
    hide CheckId;
    var none := DefineItems(entries, rules, items, 0);
    assert HolderOf(entries, c) == 1 && PositionOf(entries, CheckId(1)) == 0;
    hide HolderOf, PositionOf;
    var one := DefineItems(entries, rules, items, 1);
    assert one == DefineItem(none, rules, items[0], 0);
    assert one.issues == [] && one.updated == {CheckId(2)} && one.entries == entries;
    assert DefineItems(entries, rules, items, 2) == DefineItem(one, rules, items[1], 1);
  }

  // ---------------------------------------------------------------------------------------
  // The catalog itself

  class SpecCheckCatalog {
    var checks: seq<Entry>
    var revision: nat
    const businessChecksEnabled: bool

    ghost function Now(): Catalog
      reads this
    {
      Catalog(checks, revision)
    }

    constructor (businessChecksEnabled: bool)
      ensures Now() == Catalog([], 0) && Valid(checks)
    {
      this.businessChecksEnabled := businessChecksEnabled;
      checks, revision := [], 0;
    }

    method DefineChecks(expected: nat, items: seq<Item>, requirements: set<Id>, flawed: (Check, Id) -> bool)
      returns (answer: Answer)
      requires Valid(checks)
      modifies this
      ensures (Now(), answer) == Define(old(Now()), Rules(businessChecksEnabled, requirements, flawed), expected, items)
      ensures Valid(checks) && Extends(old(checks), checks)
      ensures revision == old(revision) + if checks == old(checks) then 0 else 1
    {
      var rules := Rules(businessChecksEnabled, requirements, flawed);
      DefineKeepsCatalog(Now(), rules, expected, items);
      hide DefineItem, Valid, Extends;
      if !(1 <= |items| <= MAX_BATCH) {
        return Malformed;
      }
      if expected != revision {
        return StaleRevision;
      }
      var b := Batch(checks, {}, false, [], []);
      for index := 0 to |items|
        invariant b == DefineItems(checks, rules, items, index)
        invariant checks == old(checks) && revision == old(revision)
      {
        b := DefineItem(b, rules, items[index], index);
      }
      checks := b.entries;
      if b.changed {
        revision := revision + 1;
      }
      answer := Defined(b.issues == [], revision, b.saved, b.issues);
    }
  }
}
