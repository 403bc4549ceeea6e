/** Structural compaction of tool results: bounded in bytes, with every omission marked. */
module OperationSummary {
  import opened Wrappers
  import opened Utf16
  import opened Json
  import opened JsonSize
  import opened Numerals

  /** Pixels and hidden reasoning never go into text. */
  predicate Hidden(key: Text)
  {
    || key == Literal("dataBase64") || key == Literal("reasoning_content")
    || key == Literal("reasoning") || key == Literal("reasoning_details")
  }

  const TRUNCATED_FIELD: Member := Field(Literal("truncated"), Bool(true))
  const TRUNCATED: Value := Obj([TRUNCATED_FIELD])

  function Preview(text: Text, limit: nat): Value
    requires limit <= |text|
  {
    Obj([Field(Literal("preview"), Str(text[..limit])), TRUNCATED_FIELD,
         Field(Literal("totalChars"), Num(Decimal(|text|)))])
  }

  function Omitted(count: nat): Value { Obj([Field(Literal("omittedItems"), Num(Decimal(count)))]) }

  datatype Limits = Limits(chars: nat, elements: nat, levels: nat)

  /** One pass over the value; `levels` is how many levels may still be opened. */
  function Visit(item: Value, limits: Limits): (r: Value)
  {
    match item
    case Str(text) => if |text| <= limits.chars then item else Preview(text, limits.chars)
    case Arr(items) =>
      if limits.levels == 0 then TRUNCATED
      else
        var below := limits.(levels := limits.levels - 1);
        if |items| > limits.elements
        then Arr(VisitItems(items, limits.elements, below) + [Omitted(|items| - limits.elements)])
        else Arr(VisitItems(items, |items|, below))
    case Obj(fields) =>
      if limits.levels == 0 then TRUNCATED
      else Obj(VisitFields(fields, limits.(levels := limits.levels - 1)))
    case _ => item
  }

  function VisitItems(items: seq<Value>, count: nat, limits: Limits): (r: seq<Value>)
    requires count <= |items|
    ensures |r| == count && forall i :: 0 <= i < count ==> r[i] == Visit(items[i], limits)
    decreases items, count
  {
    if count == 0 then [] else VisitItems(items, count - 1, limits) + [Visit(items[count - 1], limits)]
  }

  function VisitField(f: Member, limits: Limits): Member { Field(f.key, Visit(f.value, limits)) }

  function VisitFields(fields: seq<Member>, limits: Limits): seq<Member>
  {
    if fields == [] then []
    else if Hidden(fields[0].key) then VisitFields(fields[1..], limits)
    else [VisitField(fields[0], limits)] + VisitFields(fields[1..], limits)
  }

  /** Limits halve until the value fits or texts are down to sixty units. */
  function Shrunk(value: Value, maxBytes: nat, limits: Limits): (r: Value)
    decreases limits.chars
  {
    var result := Visit(value, limits);
    if JsonBytes(result) > maxBytes && limits.chars > 60
    then Shrunk(value, maxBytes, Halved(limits))
    else result
  }

  function Halved(limits: Limits): Limits
  {
    limits.(chars := limits.chars / 2, elements := if limits.elements / 2 < 1 then 1 else limits.elements / 2)
  }

  function FirstLimits(maxBytes: nat, preserveDetails: bool): Limits
  {
    if preserveDetails then Limits(maxBytes, maxBytes, 20) else Limits(1_200, 8, 7)
  }

  /** Keys kept ahead of others when nothing else fits. */
  const ROUTING: seq<string> :=
    ["accepted", "status", "code", "nextAction", "observationId", "error", "recordUpdates", "locatorRecovery", "result"]

  /** Position of the first field with this key, or the number of fields. */
  function Position(fields: seq<Member>, key: Text): (i: nat)
    ensures i <= |fields| && (i < |fields| ==> fields[i].key == key)
    ensures i == |fields| ==> !Has(fields, key)
  {
    if fields == [] || fields[0].key == key then 0 else 1 + Position(fields[1..], key)
  }

  function RoutingPositions(fields: seq<Member>, keys: seq<string>): (r: seq<nat>)
    ensures |r| <= |keys| && forall k :: 0 <= k < |r| ==> r[k] < |fields|
  {
    if keys == [] then []
    else
      var rest := RoutingPositions(fields, keys[1..]);
      var i := Position(fields, Literal(keys[0]));
      if i < |fields| then [i] + rest else rest
  }

  function Budget(fallback: seq<Member>, maxBytes: nat, keysLeft: nat): int
    requires keysLeft > 0
  {
    (maxBytes - JsonBytes(Obj(fallback)) - 32) / keysLeft
  }

  /** The fallback once the keys from `index` on have been tried. */
  function Routed(value: Value, maxBytes: nat, positions: seq<nat>, index: nat, fallback: seq<Member>): (r: seq<Member>)
    requires value.Obj? && index <= |positions|
    requires forall k :: 0 <= k < |positions| ==> positions[k] < |value.fields|
    decreases value, 0, |positions| - index
  {
    if index == |positions| then fallback
    else
      var field := value.fields[positions[index]];
      var budget := Budget(fallback, maxBytes, |positions| - index);
      if budget < 64 then Routed(value, maxBytes, positions, index + 1, fallback)
      else
        var extended := fallback + [Field(field.key, Compact(field.value, budget, false))];
        Routed(value, maxBytes, positions, index + 1,
               if JsonBytes(Obj(extended)) <= maxBytes then extended else fallback)
  }

  function Compact(value: Value, maxBytes: nat, preserveDetails: bool): (r: Value)
    decreases value, 1
  {
    var result := Shrunk(value, maxBytes, FirstLimits(maxBytes, preserveDetails));
    if JsonBytes(result) <= maxBytes then result
    else if value.Obj? then
      Obj(Routed(value, maxBytes, RoutingPositions(value.fields, ROUTING), 0, [TRUNCATED_FIELD]))
    else TRUNCATED
  }

  // ---------------------------------------------------------------------------------------
  // Bounded

  lemma TruncatedBytes()
    ensures JsonBytes(TRUNCATED) == 18
  {
    var key := Literal("truncated");
    assert Plain(key);
    PlainBytes(key, |key|);
    assert FieldBytes([TRUNCATED_FIELD]) == FieldBytes([]) + MemberBytes(TRUNCATED_FIELD);
  }

  lemma {:induction false} RoutedFits(value: Value, maxBytes: nat, positions: seq<nat>, index: nat, fallback: seq<Member>)
    requires value.Obj? && index <= |positions|
    requires forall k :: 0 <= k < |positions| ==> positions[k] < |value.fields|
    ensures var r := Routed(value, maxBytes, positions, index, fallback);
      && fallback <= r
      && (JsonBytes(Obj(r)) <= maxBytes || r == fallback)
    decreases |positions| - index
  {
    if index < |positions| {
      var field := value.fields[positions[index]];
      var budget := Budget(fallback, maxBytes, |positions| - index);
      if budget < 64 {
        RoutedFits(value, maxBytes, positions, index + 1, fallback);
      } else {
        var extended := fallback + [Field(field.key, Compact(field.value, budget, false))];
        RoutedFits(value, maxBytes, positions, index + 1,
                   if JsonBytes(Obj(extended)) <= maxBytes then extended else fallback);
      }
    }
  }

  /** The result is within the bound exactly when the bound leaves room for the truncation
      marker or halving the limits alone made the value fit. */
  lemma CompactFitsExactlyWhen(value: Value, maxBytes: nat, preserveDetails: bool)
    ensures JsonBytes(Compact(value, maxBytes, preserveDetails)) <= maxBytes
       <==> maxBytes >= 18 || JsonBytes(Shrunk(value, maxBytes, FirstLimits(maxBytes, preserveDetails))) <= maxBytes
  {
    TruncatedBytes();
    if value.Obj? {
      var positions := RoutingPositions(value.fields, ROUTING);
      RoutedFits(value, maxBytes, positions, 0, [TRUNCATED_FIELD]);
      RoutedKeepsMarker(value, maxBytes, positions);
    }
  }

  /** Adding fields only makes an object longer. */
  lemma {:induction false} LongerObject(a: seq<Member>, b: seq<Member>)
    requires a <= b
    ensures JsonBytes(Obj(a)) <= JsonBytes(Obj(b))
    decreases |b|
  {
    if |a| < |b| {
      LongerObject(a, b[..|b| - 1]);
    } else {
      assert a == b;
    }
  }

  lemma RoutedKeepsMarker(value: Value, maxBytes: nat, positions: seq<nat>)
    requires value.Obj? && forall k :: 0 <= k < |positions| ==> positions[k] < |value.fields|
    ensures JsonBytes(Obj(Routed(value, maxBytes, positions, 0, [TRUNCATED_FIELD]))) >= JsonBytes(TRUNCATED)
  {
    RoutedFits(value, maxBytes, positions, 0, [TRUNCATED_FIELD]);
    LongerObject([TRUNCATED_FIELD], Routed(value, maxBytes, positions, 0, [TRUNCATED_FIELD]));
  }

  // ---------------------------------------------------------------------------------------
  // Honest

  /** A summary stands for the value except where it says that something is missing: a cut text
      shows its beginning and its full length, a cut list the number of items left out, a cut
      object is marked. */
  ghost predicate Stands(x: Value, r: Value)
    decreases x, 1
  {
    || r == TRUNCATED
    || match x
       case Str(text) => r == x || exists n: nat :: n < |text| && r == Preview(text, n)
       case Arr(items) =>
         r.Arr? && exists n: nat :: n <= |items| && ItemsStand(items, n, r.items)
       case Obj(fields) =>
         r.Obj? && (FieldsStand(fields, r.fields) || ChosenStand(x, r.fields))
       case _ => r == x
  }

  ghost predicate ItemsStand(items: seq<Value>, n: nat, r: seq<Value>)
    requires n <= |items|
    decreases items, 0
  {
    && |r| == (if n < |items| then n + 1 else n)
    && (n < |items| ==> r[n] == Omitted(|items| - n))
    && forall i :: 0 <= i < n ==> Stands(items[i], r[i])
  }

  /** Every field that is not hidden stands, in order. */
  ghost predicate FieldsStand(fields: seq<Member>, r: seq<Member>)
    decreases fields, 0
  {
    if fields == [] then r == []
    else if Hidden(fields[0].key) then FieldsStand(fields[1..], r)
    else r != [] && FieldStands(fields[0], r[0]) && FieldsStand(fields[1..], r[1..])
  }

  ghost predicate FieldStands(f: Member, g: Member)
    decreases f
  {
    g.key == f.key && Stands(f.value, g.value)
  }

  /** After the marker only fields of the object, each of them standing. */
  ghost predicate ChosenStand(x: Value, r: seq<Member>)
    requires x.Obj?
    decreases x, 0
  {
    && r != [] && r[0] == TRUNCATED_FIELD
    && forall j :: 1 <= j < |r| ==>
         exists i :: 0 <= i < |x.fields| && x.fields[i].key == r[j].key && Stands(x.fields[i].value, r[j].value)
  }

  lemma {:induction false} VisitStands(item: Value, limits: Limits)
    ensures Stands(item, Visit(item, limits))
    decreases item, 1
  {
    if limits.levels > 0 || item.Str? {
      match item
      case Arr(items) =>
        var n := if |items| > limits.elements then limits.elements else |items|;
        var below := limits.(levels := limits.levels - 1);
        forall i | 0 <= i < n ensures Stands(items[i], VisitItems(items, n, below)[i]) {
          VisitStands(items[i], below);
        }
        assert ItemsStand(items, n, Visit(item, limits).items);
      case Obj(fields) => VisitFieldsStand(fields, limits.(levels := limits.levels - 1));
      case Str(text) =>
        if |text| > limits.chars {
          assert Visit(item, limits) == Preview(text, limits.chars);
        }
      case _ =>
    }
  }

  lemma {:induction false} VisitFieldStands(f: Member, limits: Limits)
    ensures FieldStands(f, VisitField(f, limits))
    decreases f
  {
    VisitStands(f.value, limits);
  }

  lemma {:induction false} VisitFieldsStand(fields: seq<Member>, limits: Limits)
    ensures FieldsStand(fields, VisitFields(fields, limits))
    decreases fields, 0
  {
    if fields != [] {
      VisitFieldsStand(fields[1..], limits);
      VisitFieldStands(fields[0], limits);
    }
  }

  lemma {:induction false} ShrunkIsVisit(value: Value, maxBytes: nat, limits: Limits)
    ensures exists l: Limits :: Shrunk(value, maxBytes, limits) == Visit(value, l)
    decreases limits.chars
  {
    if JsonBytes(Visit(value, limits)) > maxBytes && limits.chars > 60 {
      ShrunkIsVisit(value, maxBytes, Halved(limits));
    }
  }

  /** Whatever the bound, the compacted value stands for the value. */
  lemma {:induction false} CompactStands(value: Value, maxBytes: nat, preserveDetails: bool)
    ensures Stands(value, Compact(value, maxBytes, preserveDetails))
    decreases value, 1
  {
    var limits := FirstLimits(maxBytes, preserveDetails);
    ShrunkIsVisit(value, maxBytes, limits);
    var l: Limits :| Shrunk(value, maxBytes, limits) == Visit(value, l);
    VisitStands(value, l);
    if value.Obj? {
      RoutedStands(value, maxBytes, RoutingPositions(value.fields, ROUTING), 0, [TRUNCATED_FIELD]);
    }
  }

  lemma {:induction false} RoutedStands(value: Value, maxBytes: nat, positions: seq<nat>, index: nat, fallback: seq<Member>)
    requires value.Obj? && index <= |positions|
    requires forall k :: 0 <= k < |positions| ==> positions[k] < |value.fields|
    requires ChosenStand(value, fallback)
    ensures ChosenStand(value, Routed(value, maxBytes, positions, index, fallback))
    decreases value, 0, |positions| - index
  {
    if index < |positions| {
      var field := value.fields[positions[index]];
      var budget := Budget(fallback, maxBytes, |positions| - index);
      if budget < 64 {
        RoutedStands(value, maxBytes, positions, index + 1, fallback);
      } else {
        var extended := fallback + [Field(field.key, Compact(field.value, budget, false))];
        CompactStands(field.value, budget, false);
        assert ChosenStand(value, extended);
        RoutedStands(value, maxBytes, positions, index + 1,
                     if JsonBytes(Obj(extended)) <= maxBytes then extended else fallback);
      }
    }
  }

  /** `Number(value) > 0`, for numbers and booleans. */
  predicate Positive(v: Value)
  {
    match v
    case Num(digits) => digits != "" && digits[0] != '-' && exists i :: 0 <= i < |digits| && '1' <= digits[i] <= '9'
    case Bool(truth) => truth
    case _ => false
  }

  predicate Marks(f: Member)
  {
    f == TRUNCATED_FIELD || (f.key == Literal("omittedItems") && Positive(f.value))
  }

  predicate HasOmission(j: Value)
  {
    match j
    case Arr(items) => exists i :: 0 <= i < |items| && HasOmission(items[i])
    case Obj(fields) => exists i :: 0 <= i < |fields| && (Marks(fields[i]) || HasOmission(fields[i].value))
    case _ => false
  }

  /** The value without its hidden fields, at every level. */
  function Visible(x: Value): Value
  {
    match x
    case Arr(items) => Arr(VisibleItems(items))
    case Obj(fields) => Obj(VisibleFields(fields))
    case _ => x
  }

  function VisibleItems(items: seq<Value>): (r: seq<Value>)
    ensures |r| == |items| && forall i :: 0 <= i < |r| ==> r[i] == Visible(items[i])
  {
    if items == [] then [] else [Visible(items[0])] + VisibleItems(items[1..])
  }

  function VisibleField(f: Member): Member { Field(f.key, Visible(f.value)) }

  function VisibleFields(fields: seq<Member>): seq<Member>
  {
    if fields == [] then []
    else if Hidden(fields[0].key) then VisibleFields(fields[1..])
    else [VisibleField(fields[0])] + VisibleFields(fields[1..])
  }

  lemma MarkersAreOmissions(fields: seq<Member>)
    requires TRUNCATED_FIELD in fields
    ensures HasOmission(Obj(fields))
  {
  }

  lemma OmittedMarks(count: nat)
    requires count > 0
    ensures HasOmission(Omitted(count))
  {
    var f := Omitted(count).fields[0];
    assert '1' <= Decimal(count)[0] <= '9';
    assert Marks(f);
  }

  /** What stands for a value and shows no omission is the value itself, hidden fields aside. */
  lemma {:induction false} StandsWithoutOmission(x: Value, r: Value)
    requires Stands(x, r) && !HasOmission(r)
    ensures r == Visible(x)
    decreases x, 1
  {
    hide Marks, Hidden;
    if r == TRUNCATED {
      MarkersAreOmissions([TRUNCATED_FIELD]);
    }
    match x
    case Str(text) =>
      if r != x {
        MarkersAreOmissions(r.fields);
      }
    case Arr(items) =>
      var n: nat :| n <= |items| && ItemsStand(items, n, r.items);
      if n < |items| {
        OmittedMarks(|items| - n);
      }
      forall i | 0 <= i < |items| ensures r.items[i] == Visible(items[i]) {
        StandsWithoutOmission(items[i], r.items[i]);
      }
      assert r.items == VisibleItems(items);
    case Obj(fields) =>
      if ChosenStand(x, r.fields) {
        MarkersAreOmissions(r.fields);
      }
      FieldsWithoutOmission(fields, r.fields);
    case _ =>
  }

  lemma {:induction false} FieldsWithoutOmission(fields: seq<Member>, r: seq<Member>)
    requires FieldsStand(fields, r) && !HasOmission(Obj(r))
    ensures r == VisibleFields(fields)
    decreases fields, 0
  {
    hide Marks, Hidden;
    if fields != [] {
      if Hidden(fields[0].key) {
        FieldsWithoutOmission(fields[1..], r);
      } else {
        assert !HasOmission(r[0].value);
        assert forall i :: 0 <= i < |r| - 1 ==> r[1..][i] == r[i + 1];
        FieldWithoutOmission(fields[0], r[0]);
        FieldsWithoutOmission(fields[1..], r[1..]);
      }
    }
  }

  lemma {:induction false} FieldWithoutOmission(f: Member, g: Member)
    requires FieldStands(f, g) && !HasOmission(g.value)
    ensures g == VisibleField(f)
    decreases f
  {
    StandsWithoutOmission(f.value, g.value);
  }

  // ---------------------------------------------------------------------------------------
  // What is never shown, and what always is

  /** Pixels and hidden reasoning stand nowhere in the value. */
  predicate Clear(r: Value)
  {
    match r
    case Arr(items) => forall i :: 0 <= i < |items| ==> Clear(items[i])
    case Obj(fields) =>
      forall i :: 0 <= i < |fields| ==>
        fields[i].key != Literal("dataBase64") && fields[i].key != Literal("reasoning_content")
        && fields[i].key != Literal("reasoning") && fields[i].key != Literal("reasoning_details") && Clear(fields[i].value)
    case _ => true
  }

  lemma MarkersAreClear(text: Text, limit: nat, count: nat)
    requires limit <= |text|
    ensures Clear(TRUNCATED) && Clear(Preview(text, limit)) && Clear(Omitted(count))
    ensures !Hidden(Literal("truncated"))
  {
    var keys := [Literal("truncated"), Literal("preview"), Literal("totalChars"), Literal("omittedItems")];
    assert |keys[0]| == 9 && keys[0][0] == 't' as int as Unit;
    assert |keys[1]| == 7 && |keys[2]| == 10 && keys[2][0] == 't' as int as Unit && |keys[3]| == 12;
    assert Literal("dataBase64")[0] == 'd' as int as Unit && Literal("reasoning")[0] == 'r' as int as Unit;
  }

  lemma {:induction false} VisitIsClear(item: Value, limits: Limits)
    ensures Clear(Visit(item, limits))
    decreases item, 1
  {
    MarkersAreClear(if item.Str? then item.text else [], 0, 0);
    match item
    case Str(text) =>
      if |text| > limits.chars {
        MarkersAreClear(text, limits.chars, 0);
      }
    case Arr(items) =>
      if limits.levels > 0 {
        var n := if |items| > limits.elements then limits.elements else |items|;
        var below := limits.(levels := limits.levels - 1);
        var visited := VisitItems(items, n, below);
        forall i | 0 <= i < n ensures Clear(visited[i]) {
          VisitIsClear(items[i], below);
        }
        MarkersAreClear([], 0, |items| - n);
        hide Omitted;
      }
    case Obj(fields) =>
      if limits.levels > 0 {
        VisitFieldsAreClear(fields, limits.(levels := limits.levels - 1));
      }
    case _ =>
  }

  lemma {:induction false} VisitFieldsAreClear(fields: seq<Member>, limits: Limits)
    ensures Clear(Obj(VisitFields(fields, limits)))
    decreases fields, 0
  {
    if fields != [] {
      VisitFieldsAreClear(fields[1..], limits);
      VisitFieldIsClear(fields[0], limits);
    }
  }

  lemma {:induction false} VisitFieldIsClear(f: Member, limits: Limits)
    ensures Clear(VisitField(f, limits).value)
    decreases f
  {
    VisitIsClear(f.value, limits);
  }

  /** Whatever the value and the bound, no pixels and no hidden reasoning get into a summary. */
  lemma {:induction false} CompactIsClear(value: Value, maxBytes: nat, preserveDetails: bool)
    ensures Clear(Compact(value, maxBytes, preserveDetails))
    decreases value, 1
  {
    var limits := FirstLimits(maxBytes, preserveDetails);
    ShrunkIsVisit(value, maxBytes, limits);
    var l: Limits :| Shrunk(value, maxBytes, limits) == Visit(value, l);
    VisitIsClear(value, l);
    MarkersAreClear([], 0, 0);
    if value.Obj? {
      RoutingIsVisible();
      PositionsAreVisible(value.fields, ROUTING);
      var positions := RoutingPositions(value.fields, ROUTING);
      assert forall k :: 0 <= k < |positions| ==> positions[k] in positions;
      RoutedIsClear(value, maxBytes, positions, 0, [TRUNCATED_FIELD]);
    }
  }

  lemma RoutingIsVisible()
    ensures forall k :: 0 <= k < |ROUTING| ==> !Hidden(Literal(ROUTING[k]))
  {
    forall k | 0 <= k < |ROUTING| ensures !Hidden(Literal(ROUTING[k])) {
      var key := ROUTING[k];
      assert |Literal(key)| == |key| && Literal(key)[0] == key[0] as int as Unit;
      assert key[0] != 'd' && (key[0] == 'r' ==> key[2] == 'c' || key[2] == 's');
      assert Literal(key)[2] == key[2] as int as Unit;
      assert Literal("dataBase64")[0] == 'd' as int as Unit && Literal("reasoning")[2] == 'a' as int as Unit
             && Literal("reasoning_content")[2] == 'a' as int as Unit && Literal("reasoning_details")[2] == 'a' as int as Unit;
    }
  }

  lemma {:induction false} PositionsAreVisible(fields: seq<Member>, keys: seq<string>)
    requires forall k :: 0 <= k < |keys| ==> !Hidden(Literal(keys[k]))
    ensures forall p :: p in RoutingPositions(fields, keys) ==> p < |fields| && !Hidden(fields[p].key)
  {
    hide Hidden;
    if keys != [] {
      PositionsAreVisible(fields, keys[1..]);
      var i := Position(fields, Literal(keys[0]));
      assert i < |fields| ==> fields[i].key == Literal(keys[0]) && !Hidden(Literal(keys[0]));
    }
  }

  lemma {:induction false} RoutedIsClear(value: Value, maxBytes: nat, positions: seq<nat>, index: nat, fallback: seq<Member>)
    requires value.Obj? && index <= |positions|
    requires forall k :: 0 <= k < |positions| ==> positions[k] < |value.fields| && !Hidden(value.fields[positions[k]].key)
    requires Clear(Obj(fallback))
    ensures Clear(Obj(Routed(value, maxBytes, positions, index, fallback)))
    decreases value, 0, |positions| - index
  {
    if index < |positions| {
      var field := value.fields[positions[index]];
      var budget := Budget(fallback, maxBytes, |positions| - index);
      if budget < 64 {
        RoutedIsClear(value, maxBytes, positions, index + 1, fallback);
      } else {
        var extended := fallback + [Field(field.key, Compact(field.value, budget, false))];
        CompactIsClear(field.value, budget, false);
        RoutedIsClear(value, maxBytes, positions, index + 1,
                      if JsonBytes(Obj(extended)) <= maxBytes then extended else fallback);
      }
    }
  }

  /** Nothing in the value is too long, too many or too deep. */
  predicate Within(x: Value, chars: nat, elements: nat, levels: nat)
    decreases x
  {
    match x
    case Str(text) => |text| <= chars
    case Arr(items) => levels > 0 && |items| <= elements && forall i :: 0 <= i < |items| ==> Within(items[i], chars, elements, levels - 1)
    case Obj(fields) => levels > 0 && forall i :: 0 <= i < |fields| ==> Within(fields[i].value, chars, elements, levels - 1)
    case _ => true
  }

  lemma {:induction false} VisitKeepsSmall(item: Value, limits: Limits)
    requires Within(item, limits.chars, limits.elements, limits.levels)
    ensures Visit(item, limits) == Visible(item)
    decreases item, 1
  {
    match item
    case Arr(items) =>
      var below := limits.(levels := limits.levels - 1);
      forall i | 0 <= i < |items| ensures VisitItems(items, |items|, below)[i] == Visible(items[i]) {
        VisitKeepsSmall(items[i], below);
      }
      assert VisitItems(items, |items|, below) == VisibleItems(items);
    case Obj(fields) => VisitFieldsKeepSmall(fields, limits.(levels := limits.levels - 1));
    case _ =>
  }

  lemma {:induction false} VisitFieldsKeepSmall(fields: seq<Member>, limits: Limits)
    requires forall i :: 0 <= i < |fields| ==> Within(fields[i].value, limits.chars, limits.elements, limits.levels)
    ensures VisitFields(fields, limits) == VisibleFields(fields)
    decreases fields, 0
  {
    if fields != [] {
      VisitFieldsKeepSmall(fields[1..], limits);
      VisitFieldKeepsSmall(fields[0], limits);
    }
  }

  lemma {:induction false} VisitFieldKeepsSmall(f: Member, limits: Limits)
    requires Within(f.value, limits.chars, limits.elements, limits.levels)
    ensures VisitField(f, limits) == VisibleField(f)
    decreases f
  {
    VisitKeepsSmall(f.value, limits);
  }

  /** A value that is small enough is shown as it is, hidden fields aside: in detail up to the bound and
      twenty levels, otherwise with texts of at most 1200 units, lists of eight and seven levels. */
  lemma CompactKeepsSmall(value: Value, maxBytes: nat, preserveDetails: bool)
    requires if preserveDetails then Within(value, maxBytes, maxBytes, 20) else Within(value, 1200, 8, 7)
    requires JsonBytes(Visible(value)) <= maxBytes
    ensures Compact(value, maxBytes, preserveDetails) == Visible(value)
  {
    VisitKeepsSmall(value, FirstLimits(maxBytes, preserveDetails));
    hide Visit, Visible, Within, JsonBytes;
  }

  function Power(n: nat): (r: nat)
    ensures r >= 1
  {
    if n == 0 then 1 else 2 * Power(n - 1)
  }

  function Quotient(a: nat, d: nat): (q: nat)
    requires d >= 1
    ensures q * d <= a < q * d + d
  {
    a / d
  }

  /** The limits after so many halvings. */
  function HalvedBy(limits: Limits, n: nat): (r: Limits)
  {
    if n == 0 then limits
    else Limits(Quotient(limits.chars, Power(n)), if limits.elements < Power(n) then 1 else Quotient(limits.elements, Power(n)), limits.levels)
  }

  lemma Ordered(a: nat, b: nat, d: nat)
    requires a <= b
    ensures a * d <= b * d
  {
    assert b * d == a * d + (b - a) * d;
  }

  lemma LessBy(a: nat, b: nat, d: nat)
    requires a * d < b * d
    ensures a < b
  {
    if b <= a {
      Ordered(b, a, d);
    }
  }

  lemma QuotientIs(a: nat, d: nat, q: nat)
    requires d >= 1 && q * d <= a < q * d + d
    ensures Quotient(a, d) == q
  {
    var e := Quotient(a, d);
    assert (q + 1) * d == q * d + d && (e + 1) * d == e * d + d;
    LessBy(e, q + 1, d);
    LessBy(q, e + 1, d);
  }

  lemma DividedTwice(a: nat, p: nat)
    requires p >= 1
    ensures Quotient(a, 2 * p) == Quotient(a / 2, p) && (a < 2 * p <==> a / 2 < p)
  {
    var q := Quotient(a / 2, p);
    assert q * (2 * p) == 2 * (q * p);
    QuotientIs(a, 2 * p, q);
  }

  lemma HalvedAgain(limits: Limits, n: nat)
    ensures HalvedBy(limits, n + 1) == if n == 0 then Halved(limits) else HalvedBy(Halved(limits), n)
  {
    assert Power(n + 1) == 2 * Power(n);
    var p := Power(n);
    DividedTwice(limits.chars, p);
    DividedTwice(limits.elements, p);
    if n == 0 {
      QuotientIs(limits.chars / 2, 1, limits.chars / 2);
      QuotientIs(limits.elements / 2, 1, limits.elements / 2);
    } else {
      assert p >= 2;
      if limits.elements < 2 {
        QuotientIs(1, p, 0);
      }
    }
    hide Power, Quotient;
  }

  /** The limits are halved just as often as it takes the value to fit, or texts to come down to sixty
      units. */
  lemma {:induction false} ShrunkIsFirstFit(value: Value, maxBytes: nat, limits: Limits)
    ensures exists n: nat ::
      && Shrunk(value, maxBytes, limits) == Visit(value, HalvedBy(limits, n))
      && (JsonBytes(Visit(value, HalvedBy(limits, n))) <= maxBytes || HalvedBy(limits, n).chars <= 60)
      && forall j :: 0 <= j < n ==> JsonBytes(Visit(value, HalvedBy(limits, j))) > maxBytes && HalvedBy(limits, j).chars > 60
    decreases limits.chars
  {
    if JsonBytes(Visit(value, limits)) > maxBytes && limits.chars > 60 {
      var half := Halved(limits);
      ShrunkIsFirstFit(value, maxBytes, half);
      hide Visit, JsonBytes, HalvedBy, Halved;
      var n: nat :|
        && Shrunk(value, maxBytes, half) == Visit(value, HalvedBy(half, n))
        && (JsonBytes(Visit(value, HalvedBy(half, n))) <= maxBytes || HalvedBy(half, n).chars <= 60)
        && forall j :: 0 <= j < n ==> JsonBytes(Visit(value, HalvedBy(half, j))) > maxBytes && HalvedBy(half, j).chars > 60;
      forall j: nat ensures HalvedBy(limits, j + 1) == HalvedBy(half, j) {
        HalvedAgain(limits, j);
        HalvedByNothing(half);
      }
      HalvedByNothing(limits);
      forall j | 0 <= j < n + 1
        ensures JsonBytes(Visit(value, HalvedBy(limits, j))) > maxBytes && HalvedBy(limits, j).chars > 60
      {
        if j > 0 {
          assert HalvedBy(limits, (j - 1) + 1) == HalvedBy(half, j - 1);
        }
      }
      assert Shrunk(value, maxBytes, limits) == Visit(value, HalvedBy(limits, n + 1));
    } else {
      HalvedByNothing(limits);
    }
  }

  lemma HalvedByNothing(limits: Limits)
    ensures HalvedBy(limits, 0) == limits
  {
  }

  // ---------------------------------------------------------------------------------------
  // What routing keeps

  lemma OneFieldMore(fields: seq<Member>, f: Member)
    requires fields != []
    ensures JsonBytes(Obj(fields + [f])) == JsonBytes(Obj(fields)) + 1 + StringBytes(f.key) + 1 + JsonBytes(f.value)
  {
    var longer := fields + [f];
    assert longer[..|fields|] == fields && longer[|fields|] == f;
    assert FieldBytes(longer) == FieldBytes(fields) + MemberBytes(f);
    hide FieldBytes;
  }

  /** A key that takes at most seventeen bytes with its quotes. */
  predicate ShortKey(key: Text) { StringBytes(key) <= 17 }

  /** What is left for so many keys is enough for each of them. */
  predicate EnoughFor(maxBytes: nat, fallback: seq<Member>, keysLeft: nat)
  {
    keysLeft > 0 ==> JsonBytes(Obj(fallback)) + 32 + keysLeft * (64 + 19 * keysLeft) <= maxBytes
  }

  lemma ShareIsEnough(rest: nat, keysLeft: nat)
    requires keysLeft > 0 && rest >= keysLeft * (64 + 19 * keysLeft)
    ensures 64 <= rest / keysLeft <= rest
    ensures keysLeft > 1 ==> rest - rest / keysLeft - 19 >= (keysLeft - 1) * (64 + 19 * (keysLeft - 1))
  {
    var share, c := rest / keysLeft, 64 + 19 * keysLeft;
    assert share * keysLeft <= rest < share * keysLeft + keysLeft by {
      var q := Quotient(rest, keysLeft);
    }
    assert c * keysLeft <= rest;
    assert (share + 1) * keysLeft == share * keysLeft + keysLeft;
    LessBy(c, share + 1, keysLeft);
    assert share * keysLeft == share + share * (keysLeft - 1);
    Ordered(c, share, keysLeft - 1);
    assert c * (keysLeft - 1) == (64 + 19 * (keysLeft - 1)) * (keysLeft - 1) + 19 * (keysLeft - 1);
  }

  /** With enough room the next key gets its share, fits, and leaves enough for the others. */
  lemma NextIsKept(maxBytes: nat, fallback: seq<Member>, keysLeft: nat, field: Member)
    requires keysLeft > 0 && fallback != [] && ShortKey(field.key) && EnoughFor(maxBytes, fallback, keysLeft)
    ensures var budget := Budget(fallback, maxBytes, keysLeft);
      && budget >= 64
      && var extended := fallback + [Field(field.key, Compact(field.value, budget, false))];
      JsonBytes(Obj(extended)) <= maxBytes && EnoughFor(maxBytes, extended, keysLeft - 1)
  {
    var budget := Budget(fallback, maxBytes, keysLeft);
    ShareIsEnough(maxBytes - JsonBytes(Obj(fallback)) - 32, keysLeft);
    var kept := Field(field.key, Compact(field.value, budget, false));
    CompactFitsExactlyWhen(field.value, budget, false);
    OneFieldMore(fallback, kept);
    hide Compact, JsonBytes, Shrunk;
  }

  /** With enough room each key that is left is kept, in order. */
  lemma {:induction false} RoutedKeepsAll(value: Value, maxBytes: nat, positions: seq<nat>, index: nat, fallback: seq<Member>)
    requires value.Obj? && index <= |positions| && fallback != []
    requires forall k :: 0 <= k < |positions| ==> positions[k] < |value.fields| && ShortKey(value.fields[positions[k]].key)
    requires EnoughFor(maxBytes, fallback, |positions| - index)
    ensures var r := Routed(value, maxBytes, positions, index, fallback);
      |r| == |fallback| + |positions| - index && fallback <= r
      && forall k :: index <= k < |positions| ==> r[|fallback| + k - index].key == value.fields[positions[k]].key
    decreases |positions| - index
  {
    hide Compact, JsonBytes, Budget, EnoughFor, ShortKey;
    if index < |positions| {
      var field := value.fields[positions[index]];
      var budget := Budget(fallback, maxBytes, |positions| - index);
      NextIsKept(maxBytes, fallback, |positions| - index, field);
      var extended := fallback + [Field(field.key, Compact(field.value, budget, false))];
      RoutedKeepsAll(value, maxBytes, positions, index + 1, extended);
      assert Routed(value, maxBytes, positions, index, fallback) == Routed(value, maxBytes, positions, index + 1, extended);
    }
  }

  lemma {:induction false} PositionsAreRouting(fields: seq<Member>, keys: seq<string>, p: nat)
    requires p in RoutingPositions(fields, keys)
    ensures p < |fields| && exists k :: 0 <= k < |keys| && fields[p].key == Literal(keys[k])
  {
    var i := Position(fields, Literal(keys[0]));
    if p == i < |fields| {
      assert fields[p].key == Literal(keys[0]);
    } else {
      PositionsAreRouting(fields, keys[1..], p);
      var k :| 0 <= k < |keys[1..]| && fields[p].key == Literal(keys[1..][k]);
      assert fields[p].key == Literal(keys[k + 1]);
    }
  }

  lemma {:induction false} PresentHasPosition(fields: seq<Member>, keys: seq<string>, k: nat)
    requires k < |keys| && Has(fields, Literal(keys[k]))
    ensures exists p :: p in RoutingPositions(fields, keys) && p < |fields| && fields[p].key == Literal(keys[k])
  {
    var i := Position(fields, Literal(keys[0]));
    if k > 0 {
      PresentHasPosition(fields, keys[1..], k - 1);
      var p :| p in RoutingPositions(fields, keys[1..]) && p < |fields| && fields[p].key == Literal(keys[1..][k - 1]);
      assert p in RoutingPositions(fields, keys);
    } else {
      assert i in RoutingPositions(fields, keys);
    }
  }

  lemma RoutingIsShort()
    ensures forall k :: 0 <= k < |ROUTING| ==> ShortKey(Literal(ROUTING[k]))
  {
    forall k | 0 <= k < |ROUTING| ensures ShortKey(Literal(ROUTING[k])) {
      var key := Literal(ROUTING[k]);
      assert |ROUTING[k]| <= 15;
      assert Plain(key);
      PlainBytes(key, |key|);
    }
  }

  /** When an object has to be cut down to its routing keys and there is room, it keeps every one of
      them that it has, after the marker, and nothing else. */
  lemma RoutingFieldsAreKept(value: Value, maxBytes: nat, preserveDetails: bool, n: nat)
    requires value.Obj? && JsonBytes(Shrunk(value, maxBytes, FirstLimits(maxBytes, preserveDetails))) > maxBytes
    requires n == |RoutingPositions(value.fields, ROUTING)| && maxBytes >= 50 + n * (64 + 19 * n)
    ensures var r := Compact(value, maxBytes, preserveDetails);
      && r.Obj? && |r.fields| == n + 1 && r.fields[0] == TRUNCATED_FIELD
      && (forall k :: 0 <= k < |ROUTING| && Has(value.fields, Literal(ROUTING[k])) ==> Has(r.fields, Literal(ROUTING[k])))
      && (forall j :: 1 <= j < |r.fields| ==> exists k :: 0 <= k < |ROUTING| && r.fields[j].key == Literal(ROUTING[k]))
  {
    var positions := RoutingPositions(value.fields, ROUTING);
    EveryRoutingKeyIsKept(value, maxBytes, positions);
    hide RoutingPositions, Routed, Shrunk, JsonBytes, FirstLimits, Has;
  }

  lemma PositionsAreShort(fields: seq<Member>, positions: seq<nat>)
    requires positions == RoutingPositions(fields, ROUTING)
    ensures forall k :: 0 <= k < |positions| ==> positions[k] < |fields| && ShortKey(fields[positions[k]].key)
  {
    RoutingIsShort();
    hide ShortKey, RoutingPositions;
    forall k | 0 <= k < |positions| ensures positions[k] < |fields| && ShortKey(fields[positions[k]].key) {
      PositionsAreRouting(fields, ROUTING, positions[k]);
    }
  }

  lemma EnoughAtFirst(maxBytes: nat, n: nat)
    requires maxBytes >= 50 + n * (64 + 19 * n)
    ensures EnoughFor(maxBytes, [TRUNCATED_FIELD], n)
  {
    TruncatedBytes();
    hide JsonBytes;
  }

  lemma EveryRoutingKeyIsKept(value: Value, maxBytes: nat, positions: seq<nat>)
    requires value.Obj? && positions == RoutingPositions(value.fields, ROUTING)
    requires maxBytes >= 50 + |positions| * (64 + 19 * |positions|)
    ensures var r := Routed(value, maxBytes, positions, 0, [TRUNCATED_FIELD]);
      && |r| == |positions| + 1 && r[0] == TRUNCATED_FIELD
      && (forall k :: 0 <= k < |ROUTING| && Has(value.fields, Literal(ROUTING[k])) ==> Has(r, Literal(ROUTING[k])))
      && (forall j :: 1 <= j < |r| ==> exists k :: 0 <= k < |ROUTING| && r[j].key == Literal(ROUTING[k]))
  {
    PositionsAreShort(value.fields, positions);
    EnoughAtFirst(maxBytes, |positions|);
    hide ShortKey, JsonBytes, EnoughFor, RoutingPositions;
    RoutedKeepsAll(value, maxBytes, positions, 0, [TRUNCATED_FIELD]);
    var r := Routed(value, maxBytes, positions, 0, [TRUNCATED_FIELD]);
    hide Routed;
    forall k | 0 <= k < |ROUTING| && Has(value.fields, Literal(ROUTING[k])) ensures Has(r, Literal(ROUTING[k])) {
      PresentHasPosition(value.fields, ROUTING, k);
      var p :| p in positions && p < |value.fields| && value.fields[p].key == Literal(ROUTING[k]);
      var i :| 0 <= i < |positions| && positions[i] == p;
      assert r[1 + i - 0].key == Literal(ROUTING[k]);
    }
    forall j | 1 <= j < |r| ensures exists k :: 0 <= k < |ROUTING| && r[j].key == Literal(ROUTING[k]) {
      PositionsAreRouting(value.fields, ROUTING, positions[j - 1]);
      assert r[1 + (j - 1) - 0].key == value.fields[positions[j - 1]].key;
    }
  }

  /** Nothing is lost silently: a compacted value without an omission marker is the value itself,
      hidden fields aside; if the value has no such marker of its own, one appears exactly when
      something is missing. */
  lemma OmissionMarkedExactlyWhen(value: Value, maxBytes: nat, preserveDetails: bool)
    ensures var r := Compact(value, maxBytes, preserveDetails);
      && (!HasOmission(r) ==> r == Visible(value))
      && (!HasOmission(Visible(value)) ==> (HasOmission(r) <==> r != Visible(value)))
  {
    CompactStands(value, maxBytes, preserveDetails);
    if !HasOmission(Compact(value, maxBytes, preserveDetails)) {
      StandsWithoutOmission(value, Compact(value, maxBytes, preserveDetails));
    }
  }

  // ---------------------------------------------------------------------------------------
  // The compaction itself

  /** Keys of the routing list that the object has, as positions of their fields. */
  method FindRouting(fields: seq<Member>) returns (positions: seq<nat>)
    ensures positions == RoutingPositions(fields, ROUTING)
  {
    positions := [];
    var k := |ROUTING|;
    while k > 0
      invariant 0 <= k <= |ROUTING|
      invariant positions == RoutingPositions(fields, ROUTING[k..])
    {
      k := k - 1;
      assert ROUTING[k..][1..] == ROUTING[k + 1..];
      var i := Position(fields, Literal(ROUTING[k]));
      if i < |fields| {
        positions := [i] + positions;
      }
    }
    assert ROUTING[0..] == ROUTING;
  }

  method ShrinkToFit(value: Value, maxBytes: nat, first: Limits) returns (r: Value)
    ensures r == Shrunk(value, maxBytes, first)
  {
    hide JsonBytes, Visit;
    var limits := first;
    r := Visit(value, limits);
    while JsonBytes(r) > maxBytes && limits.chars > 60
      invariant r == Visit(value, limits)
      invariant Shrunk(value, maxBytes, limits) == Shrunk(value, maxBytes, first)
      decreases limits.chars
    {
      limits := Halved(limits);
      r := Visit(value, limits);
    }
  }

  method RouteFallback(value: Value, maxBytes: nat) returns (fallback: seq<Member>)
    requires value.Obj?
    ensures fallback == Routed(value, maxBytes, RoutingPositions(value.fields, ROUTING), 0, [TRUNCATED_FIELD])
    decreases value, 0
  {
    hide JsonBytes, Compact, RoutingPositions;
    fallback := [TRUNCATED_FIELD];
    var positions := FindRouting(value.fields);
    var index := 0;
    while index < |positions|
      invariant index <= |positions|
      invariant Routed(value, maxBytes, positions, index, fallback)
             == Routed(value, maxBytes, positions, 0, [TRUNCATED_FIELD])
    {
      var field := value.fields[positions[index]];
      var budget := Budget(fallback, maxBytes, |positions| - index);
      if budget >= 64 {
        var child := CompactValue(field.value, budget, false);
        if JsonBytes(Obj(fallback + [Field(field.key, child)])) <= maxBytes {
          fallback := fallback + [Field(field.key, child)];
        }
      }
      index := index + 1;
    }
  }

  method CompactValue(value: Value, maxBytes: nat, preserveDetails: bool) returns (r: Value)
    ensures r == Compact(value, maxBytes, preserveDetails)
    decreases value, 1
  {
    r := ShrinkToFit(value, maxBytes, FirstLimits(maxBytes, preserveDetails));
    if JsonBytes(r) <= maxBytes {
      return;
    }
    if value.Obj? {
      var fallback := RouteFallback(value, maxBytes);
      r := Obj(fallback);
    } else {
      r := TRUNCATED;
    }
  }
}
