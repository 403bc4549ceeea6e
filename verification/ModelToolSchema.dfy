/** Projection of a canonical JSON Schema to the function parameters a model gateway accepts.
    A union of objects becomes one object whose properties have the alternatives of all
    branches; formats and Unicode patterns are stripped everywhere. What is proved is which
    values the result accepts: first for stripping alone, then for the properties, openness and
    required names of the merged object, and last for the two together. Names of properties
    stand beside keywords in the fields of an object, which is why a property called like a
    stripped keyword is lost. */
module ModelToolSchema {
  import opened Wrappers
  import opened Json
  import opened JsonSchema

  // ---------------------------------------------------------------------------------------
  // Stripping

  /** `\p{` or `\P{` occurs in the pattern. */
  predicate HasPropertyEscape(pattern: string)
  {
    exists i :: 0 <= i < |pattern| - 2 && pattern[i] == '\\' && (pattern[i + 1] == 'p' || pattern[i + 1] == 'P')
                && pattern[i + 2] == '{'
  }

  predicate Dropped(key: string, arg: Schema)
  {
    KeywordOf(key) == Format || (KeywordOf(key) == Pattern && arg.Str? && HasPropertyEscape(arg.text))
  }

  function Strip(s: Schema): (r: Schema)
    ensures s.Scalar() ==> r == s
    ensures s.Arr? ==> r.Arr? && |r.items| == |s.items| && forall i :: 0 <= i < |s.items| ==> r.items[i] == Strip(s.items[i])
    ensures s.Obj? ==> r.Obj? && r.fields == StripFields(s.fields)
  {
    match s
    case Arr(items) => Arr(StripAll(items))
    case Obj(fields) => Obj(StripFields(fields))
    case _ => s
  }

  function StripAll(items: seq<Schema>): (r: seq<Schema>)
    ensures |r| == |items| && forall i :: 0 <= i < |r| ==> r[i] == Strip(items[i])
  {
    if items == [] then [] else [Strip(items[0])] + StripAll(items[1..])
  }

  function StripMember(f: Member): Member { Field(f.key, Strip(f.value)) }

  function StripFields(fields: seq<Member>): (r: seq<Member>)
    ensures forall f :: f in fields && !Dropped(f.key, f.value) ==> StripMember(f) in r
    ensures forall g :: g in r ==> exists f :: f in fields && !Dropped(f.key, f.value) && g == StripMember(f)
  {
    if fields == [] then []
    else if Dropped(fields[0].key, fields[0].value) then StripFields(fields[1..])
    else [StripMember(fields[0])] + StripFields(fields[1..])
  }

  /** Nothing but validation is lost by stripping: no literal value carries a dropped key, and no
      property is called like one. */
  predicate Keeps(s: Schema)
    decreases s, 1
  {
    s.Obj? ==> forall i :: 0 <= i < |s.fields| ==> KeepsKeyword(s, i)
  }

  predicate KeepsKeyword(s: Schema, i: nat)
    requires s.Obj? && i < |s.fields|
    decreases s, 0
  {
    var arg := s.fields[i].value;
    match KeywordOf(s.fields[i].key)
    case Const | Enum => Strip(arg) == arg
    case AnyOf | AllOf | OneOf | PrefixItems => arg.Arr? ==> forall j :: 0 <= j < |arg.items| ==> Keeps(arg.items[j])
    case Not | AdditionalProperties | PropertyNames | Items => Keeps(arg)
    case Properties =>
      arg.Obj? ==> forall j :: 0 <= j < |arg.fields| ==>
                     !Dropped(arg.fields[j].key, arg.fields[j].value) && Keeps(arg.fields[j].value)
    case _ => true
  }

  /** `b` asserts what `a` does, except that formats and Unicode patterns are not checked. */
  ghost predicate IgnoresDropped(a: Assertions, b: Assertions)
  {
    forall key, arg, v :: b(key, arg, v) <==> (Dropped(key, arg) || a(key, arg, v))
  }

  lemma {:induction false} StripFieldsAll(fields: seq<Member>)
    requires forall i :: 0 <= i < |fields| ==> !Dropped(fields[i].key, fields[i].value)
    ensures var r := StripFields(fields);
      |r| == |fields| && forall i :: 0 <= i < |r| ==> r[i] == StripMember(fields[i])
  {
    if fields != [] {
      StripFieldsAll(fields[1..]);
    }
  }

  lemma StripHas(fields: seq<Member>, name: string)
    requires forall i :: 0 <= i < |fields| ==> !Dropped(fields[i].key, fields[i].value)
    ensures Has(StripFields(fields), name) <==> Has(fields, name)
  {
    StripFieldsAll(fields);
  }

  lemma StripNamed(s: Schema, name: string)
    requires s.Obj? && Keeps(s)
    ensures Named(StripFields(s.fields), name) <==> Named(s.fields, name)
  {
    hide NameOf, KeywordOf, HasPropertyEscape;
    forall f | f in s.fields && KeywordOf(f.key) == Properties
      ensures NamesProperty(StripMember(f), name) <==> NamesProperty(f, name)
    {
      var i :| 0 <= i < |s.fields| && s.fields[i] == f;
      assert KeepsKeyword(s, i);
      if f.value.Obj? {
        StripHas(f.value.fields, name);
      }
    }
    if Named(s.fields, name) {
      var f :| f in s.fields && NamesProperty(f, name);
      assert StripMember(f) in StripFields(s.fields);
    }
  }

  lemma StripPrefixed(s: Schema, k: nat)
    requires s.Obj?
    ensures Prefixed(StripFields(s.fields), k) <==> Prefixed(s.fields, k)
  {
  }

  /** The i-th keyword of a schema is still the j-th of the stripped one. */
  predicate Survives(s: Schema, i: nat, j: nat)
  {
    && s.Obj? && i < |s.fields| && j < |Strip(s).fields| && Strip(s).fields[j] == StripMember(s.fields[i])
    && !Dropped(s.fields[i].key, s.fields[i].value)
  }

  lemma SurvivesSomewhere(s: Schema, i: nat)
    requires s.Obj? && i < |s.fields| && !Dropped(s.fields[i].key, s.fields[i].value)
    ensures exists j :: 0 <= j < |StripFields(s.fields)| && Survives(s, i, j)
  {
    hide Dropped, NameOf, KeywordOf;
    assert s.fields[i] in s.fields;
    var j :| 0 <= j < |StripFields(s.fields)| && StripFields(s.fields)[j] == StripMember(s.fields[i]);
    assert Survives(s, i, j);
  }

  lemma SurvivesFrom(s: Schema, j: nat)
    requires s.Obj? && j < |StripFields(s.fields)|
    ensures exists i :: 0 <= i < |s.fields| && Survives(s, i, j)
  {
    hide Dropped, NameOf, KeywordOf;
    assert StripFields(s.fields)[j] in StripFields(s.fields);
    var f :| f in s.fields && !Dropped(f.key, f.value) && StripFields(s.fields)[j] == StripMember(f);
    var i :| 0 <= i < |s.fields| && s.fields[i] == f;
    assert Survives(s, i, j);
  }

  lemma DroppedHolds(a: Assertions, b: Assertions, s: Schema, i: nat, v: Value)
    requires IgnoresDropped(a, b) && s.Obj? && i < |s.fields| && Dropped(s.fields[i].key, s.fields[i].value)
    ensures Satisfies(b, s, i, v)
  {
  }

  /** What stripping means: the stripped schema accepts exactly what the schema accepts once
      formats and Unicode patterns are not checked. */
  lemma {:induction false} StripMeaning(a: Assertions, b: Assertions, s: Schema, v: Value)
    requires Keeps(s) && IgnoresDropped(a, b)
    ensures Accepts(a, Strip(s), v) <==> Accepts(b, s, v)
    decreases s, 2
  {
    hide Survives, Dropped, Satisfies, IgnoresDropped, Keeps, StripFields;
    if s.Obj? {
      var t := Strip(s);
      if Accepts(a, t, v) {
        forall i | 0 <= i < |s.fields| ensures Satisfies(b, s, i, v) {
          if Dropped(s.fields[i].key, s.fields[i].value) {
            DroppedHolds(a, b, s, i, v);
          } else {
            SurvivesSomewhere(s, i);
            var j :| 0 <= j < |StripFields(s.fields)| && Survives(s, i, j);
            KeywordMeaning(a, b, s, i, j, v);
          }
        }
      }
      if Accepts(b, s, v) {
        forall j | 0 <= j < |t.fields| ensures Satisfies(a, t, j, v) {
          SurvivesFrom(s, j);
          var i :| 0 <= i < |s.fields| && Survives(s, i, j);
          KeywordMeaning(a, b, s, i, j, v);
        }
      }
    }
  }

  lemma {:induction false} KeywordMeaning(a: Assertions, b: Assertions, s: Schema, i: nat, j: nat, v: Value)
    requires Keeps(s) && IgnoresDropped(a, b) && Survives(s, i, j)
    ensures Satisfies(a, Strip(s), j, v) <==> Satisfies(b, s, i, v)
    decreases s, 1
  {
    hide NameOf, KeywordOf, Accepts, Satisfies;
    assert KeywordOf(s.fields[i].key) != Format;
    hide Dropped;
    match KeywordOf(s.fields[i].key)
    case AnyOf | AllOf | OneOf =>
      CombinatorMeaning(a, b, s, i, v);
      CombinatorStripped(a, b, s, i, j, v);
    case Not =>
      CombinatorMeaning(a, b, s, i, v);
      NegationStripped(a, b, s, i, j, v);
    case PrefixItems =>
      PrefixMeaning(a, b, s, i, v);
      PrefixStripped(a, b, s, i, j, v);
    case Properties =>
      PropertiesMeaning(a, b, s, i, v);
      PropertiesStripped(a, b, s, i, j, v);
    case AdditionalProperties | PropertyNames | Items =>
      ApplicatorMeaning(a, b, s, i, v);
      ApplicatorStripped(a, b, s, i, j, v);
    case Type | Required => NamesStripped(a, b, s, i, j, v);
    case _ => AssertionMeaning(a, b, s, i, j, v);
  }

  lemma AssertionMeaning(a: Assertions, b: Assertions, s: Schema, i: nat, j: nat, v: Value)
    requires Keeps(s) && IgnoresDropped(a, b) && Survives(s, i, j)
    requires KeywordOf(s.fields[i].key) in {Const, Enum, Pattern, Other}
    ensures Satisfies(a, Strip(s), j, v) <==> Satisfies(b, s, i, v)
  {
    hide NameOf, KeywordOf, HasPropertyEscape, Accepts, Named, Prefixed, StripFields;
    assert KeepsKeyword(s, i);
  }

  /** Types and required names are texts or lists of texts, which stripping leaves alone. */
  lemma NamesStripped(a: Assertions, b: Assertions, s: Schema, i: nat, j: nat, v: Value)
    requires Survives(s, i, j) && KeywordOf(s.fields[i].key) in {Type, Required}
    ensures Satisfies(a, Strip(s), j, v) <==> Satisfies(b, s, i, v)
  {
    hide NameOf, KeywordOf, Dropped, Accepts, Named, Prefixed, StripFields, IsA, Has;
    var arg := s.fields[i].value;
    if arg.Arr? {
      assert forall k :: 0 <= k < |arg.items| ==>
        (Strip(arg).items[k].Str? <==> arg.items[k].Str?)
        && (arg.items[k].Str? ==> Strip(arg).items[k] == arg.items[k]);
    }
  }

  /** Stripped and relaxed, the schema accepts the same. */
  ghost predicate Agree(a: Assertions, b: Assertions, s: Schema, v: Value)
  {
    Accepts(a, Strip(s), v) <==> Accepts(b, s, v)
  }

  lemma {:induction false} CombinatorMeaning(a: Assertions, b: Assertions, s: Schema, i: nat, v: Value)
    requires Keeps(s) && s.Obj? && i < |s.fields| && IgnoresDropped(a, b)
    requires KeywordOf(s.fields[i].key) in {AnyOf, AllOf, OneOf, Not}
    ensures KeywordOf(s.fields[i].key) == Not ==> Agree(a, b, s.fields[i].value, v)
    ensures KeywordOf(s.fields[i].key) != Not && s.fields[i].value.Arr? ==>
              forall k :: 0 <= k < |s.fields[i].value.items| ==> Agree(a, b, s.fields[i].value.items[k], v)
    decreases s, 0
  {
    hide Accepts, Satisfies, IgnoresDropped, NameOf, KeywordOf;
    var arg := s.fields[i].value;
    assert KeepsKeyword(s, i);
    if KeywordOf(s.fields[i].key) == Not {
      StripMeaning(a, b, arg, v);
    } else if arg.Arr? {
      forall k | 0 <= k < |arg.items| ensures Agree(a, b, arg.items[k], v) {
        StripMeaning(a, b, arg.items[k], v);
      }
    }
  }

  lemma NegationStripped(a: Assertions, b: Assertions, s: Schema, i: nat, j: nat, v: Value)
    requires Survives(s, i, j) && KeywordOf(s.fields[i].key) == Not && Agree(a, b, s.fields[i].value, v)
    ensures Satisfies(a, Strip(s), j, v) <==> Satisfies(b, s, i, v)
  {
  }

  lemma CombinatorStripped(a: Assertions, b: Assertions, s: Schema, i: nat, j: nat, v: Value)
    requires Survives(s, i, j)
    requires KeywordOf(s.fields[i].key) in {AnyOf, AllOf, OneOf}
    requires s.fields[i].value.Arr? ==>
               forall k :: 0 <= k < |s.fields[i].value.items| ==> Agree(a, b, s.fields[i].value.items[k], v)
    ensures Satisfies(a, Strip(s), j, v) <==> Satisfies(b, s, i, v)
  {
    hide NameOf, KeywordOf, Dropped, Strip, Accepts, ExactlyOne, Named, Prefixed, Verdicts;
    var arg := s.fields[i].value;
    if arg.Arr? {
      SameVerdicts(a, b, arg, v);
    }
  }

  lemma SameVerdicts(a: Assertions, b: Assertions, arg: Schema, v: Value)
    requires arg.Arr? && forall k :: 0 <= k < |arg.items| ==> Agree(a, b, arg.items[k], v)
    ensures Strip(arg).Arr? && Verdicts(a, Strip(arg).items, v) == Verdicts(b, arg.items, v)
  {
  }

  lemma {:induction false} PrefixMeaning(a: Assertions, b: Assertions, s: Schema, i: nat, v: Value)
    requires Keeps(s) && s.Obj? && i < |s.fields| && IgnoresDropped(a, b)
    requires KeywordOf(s.fields[i].key) == PrefixItems
    ensures s.fields[i].value.Arr? && v.Arr? ==>
      forall k :: 0 <= k < |s.fields[i].value.items| && k < |v.items| ==> Agree(a, b, s.fields[i].value.items[k], v.items[k])
    decreases s, 0
  {
    hide Accepts, Satisfies, IgnoresDropped, NameOf, KeywordOf;
    var arg := s.fields[i].value;
    assert KeepsKeyword(s, i);
    if arg.Arr? && v.Arr? {
      forall k | 0 <= k < |arg.items| && k < |v.items| ensures Agree(a, b, arg.items[k], v.items[k]) {
        StripMeaning(a, b, arg.items[k], v.items[k]);
      }
    }
  }

  lemma PrefixStripped(a: Assertions, b: Assertions, s: Schema, i: nat, j: nat, v: Value)
    requires Survives(s, i, j) && KeywordOf(s.fields[i].key) == PrefixItems
    requires s.fields[i].value.Arr? && v.Arr? ==>
      forall k :: 0 <= k < |s.fields[i].value.items| && k < |v.items| ==> Agree(a, b, s.fields[i].value.items[k], v.items[k])
    ensures Satisfies(a, Strip(s), j, v) <==> Satisfies(b, s, i, v)
  {
    hide NameOf, KeywordOf, Dropped, Strip, Accepts;
    var arg := s.fields[i].value;
    assert arg.Arr? ==> Strip(arg).Arr? && |Strip(arg).items| == |arg.items|;
    assert arg.Arr? ==> forall k :: 0 <= k < |arg.items| ==> Strip(arg).items[k] == Strip(arg.items[k]);
  }

  /** Property by property, for every instance field of that name. */
  ghost predicate PropertiesAgree(a: Assertions, b: Assertions, fields: seq<Member>, v: Value)
    requires v.Obj?
  {
    && |StripFields(fields)| == |fields|
    && (forall k :: 0 <= k < |fields| ==> StripFields(fields)[k] == StripMember(fields[k]))
    && (forall k, l :: 0 <= k < |fields| && 0 <= l < |v.fields| ==> Agree(a, b, fields[k].value, v.fields[l].value))
  }

  lemma {:induction false} PropertiesMeaning(a: Assertions, b: Assertions, s: Schema, i: nat, v: Value)
    requires Keeps(s) && s.Obj? && i < |s.fields| && IgnoresDropped(a, b)
    requires KeywordOf(s.fields[i].key) == Properties
    ensures s.fields[i].value.Obj? && v.Obj? ==> PropertiesAgree(a, b, s.fields[i].value.fields, v)
    decreases s, 0
  {
    hide Accepts, Satisfies, IgnoresDropped, NameOf, KeywordOf;
    var arg := s.fields[i].value;
    assert KeepsKeyword(s, i);
    if arg.Obj? && v.Obj? {
      StripFieldsAll(arg.fields);
      forall k, l | 0 <= k < |arg.fields| && 0 <= l < |v.fields|
        ensures Agree(a, b, arg.fields[k].value, v.fields[l].value)
      {
        StripMeaning(a, b, arg.fields[k].value, v.fields[l].value);
      }
    }
  }

  lemma PropertiesStripped(a: Assertions, b: Assertions, s: Schema, i: nat, j: nat, v: Value)
    requires Survives(s, i, j) && KeywordOf(s.fields[i].key) == Properties
    requires s.fields[i].value.Obj? && v.Obj? ==> PropertiesAgree(a, b, s.fields[i].value.fields, v)
    ensures Satisfies(a, Strip(s), j, v) <==> Satisfies(b, s, i, v)
  {
    hide NameOf, KeywordOf, Dropped, StripFields, Accepts;
  }

  ghost predicate ApplicatorAgrees(a: Assertions, b: Assertions, s: Schema, arg: Schema, v: Value)
    requires s.Obj?
  {
    && (v.Obj? ==> forall k :: 0 <= k < |v.fields| ==>
          (Named(Strip(s).fields, v.fields[k].key) <==> Named(s.fields, v.fields[k].key))
          && Agree(a, b, arg, v.fields[k].value) && Agree(a, b, arg, Str(v.fields[k].key)))
    && (v.Arr? ==> forall k :: 0 <= k < |v.items| ==>
          (Prefixed(Strip(s).fields, k) <==> Prefixed(s.fields, k)) && Agree(a, b, arg, v.items[k]))
  }

  lemma {:induction false} ApplicatorMeaning(a: Assertions, b: Assertions, s: Schema, i: nat, v: Value)
    requires Keeps(s) && s.Obj? && i < |s.fields| && IgnoresDropped(a, b)
    requires KeywordOf(s.fields[i].key) in {AdditionalProperties, PropertyNames, Items}
    ensures ApplicatorAgrees(a, b, s, s.fields[i].value, v)
    decreases s, 0
  {
    hide Accepts, Satisfies, IgnoresDropped, NameOf, KeywordOf;
    var arg := s.fields[i].value;
    assert KeepsKeyword(s, i);
    if v.Obj? {
      forall k | 0 <= k < |v.fields|
        ensures Named(Strip(s).fields, v.fields[k].key) <==> Named(s.fields, v.fields[k].key)
        ensures Agree(a, b, arg, v.fields[k].value) && Agree(a, b, arg, Str(v.fields[k].key))
      {
        StripNamed(s, v.fields[k].key);
        StripMeaning(a, b, arg, v.fields[k].value);
        StripMeaning(a, b, arg, Str(v.fields[k].key));
      }
    } else if v.Arr? {
      forall k | 0 <= k < |v.items|
        ensures Prefixed(Strip(s).fields, k) <==> Prefixed(s.fields, k)
        ensures Agree(a, b, arg, v.items[k])
      {
        StripPrefixed(s, k);
        StripMeaning(a, b, arg, v.items[k]);
      }
    }
  }

  lemma ApplicatorStripped(a: Assertions, b: Assertions, s: Schema, i: nat, j: nat, v: Value)
    requires Survives(s, i, j) && KeywordOf(s.fields[i].key) in {AdditionalProperties, PropertyNames, Items}
    requires ApplicatorAgrees(a, b, s, s.fields[i].value, v)
    ensures Satisfies(a, Strip(s), j, v) <==> Satisfies(b, s, i, v)
  {
  }

  /** Stripping rejects nothing that was accepted, for a schema without negation in which no
      property is called like a dropped keyword. */
  lemma StripAcceptsMore(a: Assertions, s: Schema, v: Value)
    requires Keeps(s) && Positive(s) && Accepts(a, s, v)
    ensures Accepts(a, Strip(s), v)
  {
    var b := (key, arg, x) => Dropped(key, arg) || a(key, arg, x);
    WeakerAcceptsMore(a, b, s, v);
    StripMeaning(a, b, s, v);
  }

  // ---------------------------------------------------------------------------------------
  // Merging a union of objects into one object

  function Without(fields: seq<Member>, keys: set<Keyword>): (r: seq<Member>)
    ensures forall f :: f in r <==> f in fields && KeywordOf(f.key) !in keys
  {
    if fields == [] then []
    else if KeywordOf(fields[0].key) in keys then Without(fields[1..], keys)
    else [fields[0]] + Without(fields[1..], keys)
  }

  function AddNew<T(==)>(s: seq<T>, x: T): (r: seq<T>)
    ensures x in r && forall y :: y in r ==> y == x || y in s
    ensures s <= r && (Distinct(s) ==> Distinct(r))
  {
    if x in s then s else s + [x]
  }

  predicate Distinct<T(==)>(s: seq<T>) { forall i, j :: 0 <= i < j < |s| ==> s[i] != s[j] }

  function AddKeys(names: seq<string>, fields: seq<Member>): (r: seq<string>)
    ensures names <= r && (Distinct(names) ==> Distinct(r))
    ensures forall n :: n in r <==> n in names || Has(fields, n)
    decreases |fields|
  {
    if fields == [] then names
    else
      assert forall n :: Has(fields, n) <==> fields[0].key == n || Has(fields[1..], n);
      AddKeys(AddNew(names, fields[0].key), fields[1..])
  }

  function PropertiesOf(branch: Schema): seq<Member>
  {
    if !branch.Obj? then []
    else
      var properties := Get(branch.fields, NameOf(Properties));
      if properties.Some? && properties.value.Obj? then properties.value.fields else []
  }

  /** The property names of all branches, each once, in the order they first appear. */
  function Names(branches: seq<Schema>): (r: seq<string>)
    ensures Distinct(r)
    ensures forall n :: n in r <==> exists b :: b in branches && Has(PropertiesOf(b), n)
  {
    if branches == [] then []
    else
      var last := branches[|branches| - 1];
      assert forall b :: b in branches <==> b in branches[..|branches| - 1] || b == last;
      AddKeys(Names(branches[..|branches| - 1]), PropertiesOf(last))
  }

  /** A boolean property schema written as an object. */
  function AsObject(field: Schema): Schema
  {
    match field
    case Bool(true) => Obj([])
    case Bool(false) => Obj([Field(NameOf(Not), Obj([]))])
    case _ => field
  }

  function BranchProperty(branch: Schema, name: string): Option<Schema>
  {
    var field := Get(PropertiesOf(branch), name);
    if field.Some? then Some(AsObject(field.value)) else None
  }

  /** The different schemas the branches give to one property. */
  function Alternatives(branches: seq<Schema>, name: string): (r: seq<Schema>)
    ensures Distinct(r)
    ensures forall s :: s in r <==> exists b :: b in branches && BranchProperty(b, name) == Some(s)
  {
    if branches == [] then []
    else
      var last := branches[|branches| - 1];
      assert forall b :: b in branches <==> b in branches[..|branches| - 1] || b == last;
      var before := Alternatives(branches[..|branches| - 1], name);
      var field := BranchProperty(last, name);
      if field.None? then before else AddNew(before, field.value)
  }

  function Keyed(s: Schema, key: string): Option<Schema>
  {
    if s.Obj? then Get(s.fields, key) else None
  }

  predicate AllLiteral(alternatives: seq<Schema>)
  {
    forall i :: 0 <= i < |alternatives| ==> Keyed(alternatives[i], NameOf(Const)).Some?
  }

  function Literals(alternatives: seq<Schema>): (r: seq<Schema>)
    requires AllLiteral(alternatives)
    ensures |r| == |alternatives| && forall i :: 0 <= i < |r| ==> Keyed(alternatives[i], NameOf(Const)) == Some(r[i])
  {
    seq(|alternatives|, i requires 0 <= i < |alternatives| => Keyed(alternatives[i], NameOf(Const)).value)
  }

  predicate Truthy(s: Schema)
  {
    match s
    case Null => false
    case Bool(truth) => truth
    case Num(digits) => digits != "0"
    case Str(text) => text != ""
    case _ => true
  }

  /** The type all literals share, compared like values: two lists of types are never identical. */
  function SharedType(alternatives: seq<Schema>): Option<Schema>
    requires |alternatives| > 0
  {
    var t := Keyed(alternatives[0], NameOf(Type));
    if t.Some? && Truthy(t.value) && t.value.Scalar()
       && forall i :: 0 <= i < |alternatives| ==> Keyed(alternatives[i], NameOf(Type)) == t
    then t else None
  }

  function FieldSchema(alternatives: seq<Schema>): Schema
    requires |alternatives| > 0
  {
    if |alternatives| == 1 then alternatives[0]
    else if AllLiteral(alternatives) then
      var t := SharedType(alternatives);
      Obj((if t.Some? then [Field(NameOf(Type), t.value)] else []) + [Field(NameOf(Enum), Arr(Literals(alternatives)))])
    else Obj([Field(NameOf(AnyOf), Arr(alternatives))])
  }

  predicate Closed(branch: Schema) { Keyed(branch, NameOf(AdditionalProperties)) == Some(Bool(false)) }

  predicate Requires(branch: Schema, name: string)
  {
    var required := Keyed(branch, NameOf(Required));
    required.Some? && required.value.Arr? && Str(name) in required.value.items
  }

  function RequiredByAll(branches: seq<Schema>, names: seq<string>): (r: seq<Schema>)
    ensures forall s :: s in r <==> exists n :: n in names && (forall b :: b in branches ==> Requires(b, n)) && s == Str(n)
  {
    if names == [] then []
    else
      var rest := RequiredByAll(branches, names[1..]);
      assert forall n :: n in names <==> n == names[0] || n in names[1..];
      if forall b :: b in branches ==> Requires(b, names[0]) then [Str(names[0])] + rest else rest
  }

  function MergedProperties(branches: seq<Schema>): (r: seq<Member>)
    ensures |r| == |Names(branches)|
    ensures forall i :: 0 <= i < |r| ==>
      r[i].key == Names(branches)[i]
      && |Alternatives(branches, r[i].key)| > 0 && r[i].value == FieldSchema(Alternatives(branches, r[i].key))
  {
    var names := Names(branches);
    seq(|names|, i requires 0 <= i < |names| =>
      assert names[i] in names; Field(names[i], FieldSchema(Alternatives(branches, names[i]))))
  }

  const REPLACED: set<Keyword> := {Type, AnyOf, Properties, Required, AdditionalProperties}

  function MergedKeywords(branches: seq<Schema>): seq<Member>
  {
    [Field(NameOf(Properties), Obj(MergedProperties(branches))),
     Field(NameOf(Required), Arr(RequiredByAll(branches, Names(branches)))),
     Field(NameOf(AdditionalProperties), Bool(!(forall b :: b in branches ==> Closed(b)))),
     Field(NameOf(Type), Str("object"))]
  }

  function Merge(fields: seq<Member>, branches: seq<Schema>): seq<Member>
  {
    Without(fields, REPLACED) + MergedKeywords(branches)
  }

  datatype Projection = Projected(schema: Schema) | ParametersNotObjects | RootCombinators

  predicate IsObjectSchema(s: Schema) { Keyed(s, NameOf(Type)) == Some(Str("object")) }

  const ROOT_COMBINATORS: set<Keyword> := {OneOf, AllOf, Enum, Const, Not}

  predicate PlainRoot(fields: seq<Member>)
  {
    Get(fields, NameOf(Type)) == Some(Str("object")) && forall f :: f in fields ==> KeywordOf(f.key) !in ROOT_COMBINATORS
  }

  /** The branches of a root union; none if the root is not a union. */
  function Branches(fields: seq<Member>): seq<Schema>
  {
    var union := Get(fields, NameOf(AnyOf));
    if union.Some? && union.value.Arr? then union.value.items else []
  }

  function Project(fields: seq<Member>): Projection
  {
    var branches := Branches(fields);
    if exists b :: b in branches && !IsObjectSchema(b) then ParametersNotObjects
    else
      var parameters := if branches == [] then fields else Merge(fields, branches);
      if PlainRoot(parameters) then Projected(Strip(Obj(parameters))) else RootCombinators
  }

  /** `openAiFunctionSchema`, after the canonical schema has been written as JSON Schema. */
  method OpenAiFunctionSchema(fields: seq<Member>) returns (r: Projection)
    ensures r == Project(fields)
  {
    hide MergedProperties, RequiredByAll, Names, Closed, PlainRoot, Strip, NameOf, KeywordOf;
    var parameters := fields;
    var branches := Branches(fields);
    if branches != [] {
      if !(forall b :: b in branches ==> IsObjectSchema(b)) {
        return ParametersNotObjects;
      }
      var properties := MergedProperties(branches);
      var required := RequiredByAll(branches, Names(branches));
      var additional := !(forall b :: b in branches ==> Closed(b));
      parameters := Without(parameters, REPLACED);
      parameters := parameters + [Field(NameOf(Properties), Obj(properties)), Field(NameOf(Required), Arr(required)),
                                  Field(NameOf(AdditionalProperties), Bool(additional)), Field(NameOf(Type), Str("object"))];
    }
    if !PlainRoot(parameters) {
      return RootCombinators;
    }
    r := Projected(Strip(Obj(parameters)));
  }

  // ---------------------------------------------------------------------------------------
  // What is projected, and what is dropped

  /** Exactly formats and patterns with a Unicode property escape are dropped. */
  lemma DroppedExactlyWhen(key: string, arg: Schema)
    ensures Dropped(key, arg)
       <==> key == "format"
            || (key == "pattern" && arg.Str?
                && exists a, b :: arg.text == a + "\\p{" + b || arg.text == a + "\\P{" + b)
  {
    hide KeywordOf;
    assert KeywordOf(key) == Format <==> key == "format" by { KeywordsOf(key); }
    assert KeywordOf(key) == Pattern <==> key == "pattern" by { KeywordsOf(key); }
    if arg.Str? {
      EscapeExactlyWhen(arg.text);
    }
    hide HasPropertyEscape;
  }

  lemma KeywordsOf(key: string)
    ensures KeywordOf(key) == Format <==> key == "format"
    ensures KeywordOf(key) == Pattern <==> key == "pattern"
    ensures KeywordOf(key) in ROOT_COMBINATORS <==> key in ["oneOf", "allOf", "enum", "const", "not"]
  {
  }

  lemma EscapeExactlyWhen(text: string)
    ensures HasPropertyEscape(text) <==> exists a, b :: text == a + "\\p{" + b || text == a + "\\P{" + b
  {
    if HasPropertyEscape(text) {
      var i :| 0 <= i < |text| - 2 && text[i] == '\\' && (text[i + 1] == 'p' || text[i + 1] == 'P') && text[i + 2] == '{';
      assert text == text[..i] + [text[i], text[i + 1], text[i + 2]] + text[i + 3..];
      assert [text[i], text[i + 1], text[i + 2]] == "\\p{" || [text[i], text[i + 1], text[i + 2]] == "\\P{";
    }
    if a, b :| text == a + "\\p{" + b || text == a + "\\P{" + b {
      var i := |a|;
      assert text[i] == '\\' && (text[i + 1] == 'p' || text[i + 1] == 'P') && text[i + 2] == '{';
    }
  }

  /** Which schemas are projected: a union of objects, or an object, without a root combinator; a union
      with another branch is refused for that first. */
  lemma ProjectedExactlyWhen(fields: seq<Member>)
    ensures var union := Branches(fields);
      var objects := forall b :: b in union ==> b.Obj? && Get(b.fields, "type") == Some(Str("object"));
      && (Project(fields).ParametersNotObjects? <==> !objects)
      && (Project(fields).Projected? <==>
            && objects
            && (union == [] ==> Get(fields, "type") == Some(Str("object")))
            && forall f :: f in fields ==> f.key !in ["oneOf", "allOf", "enum", "const", "not"])
  {
    var union := Branches(fields);
    forall f | f in fields ensures KeywordOf(f.key) in ROOT_COMBINATORS <==> f.key in ["oneOf", "allOf", "enum", "const", "not"] {
      KeywordsOf(f.key);
    }
    assert NameOf(Type) == "type";
    if union != [] {
      MergedRoot(fields, union);
    }
    hide Merge, KeywordOf, NameOf, Strip;
  }

  lemma MergedRoot(fields: seq<Member>, branches: seq<Schema>)
    ensures PlainRoot(Merge(fields, branches)) <==> forall f :: f in fields ==> KeywordOf(f.key) !in ROOT_COMBINATORS
  {
    var kept, merged := Without(fields, REPLACED), MergedKeywords(branches);
    MergedKeywordsAre(branches);
    KeptIsNoType(fields);
    hide MergedKeywords, KeywordOf, NameOf, Without;
    GetMerged(kept, merged, NameOf(Type));
    assert Merge(fields, branches) == kept + merged;
    hide Merge;
    assert forall f :: f in kept + merged <==> f in kept || f in merged;
  }

  lemma MergedKeywordsAre(branches: seq<Schema>)
    ensures Get(MergedKeywords(branches), NameOf(Type)) == Some(Str("object"))
    ensures forall f :: f in MergedKeywords(branches) ==> KeywordOf(f.key) !in ROOT_COMBINATORS
  {
    NamesMean();
    hide KeywordOf, NameOf, MergedProperties, RequiredByAll, Names, Closed;
    GetType(MergedKeywords(branches));
  }

  lemma KeptIsNoType(fields: seq<Member>)
    ensures forall f :: f in Without(fields, REPLACED) ==> f.key != NameOf(Type)
    ensures forall f :: f in fields && KeywordOf(f.key) in ROOT_COMBINATORS ==> f in Without(fields, REPLACED)
    ensures forall f :: f in Without(fields, REPLACED) ==> f in fields
  {
    NamesMean();
    hide KeywordOf, NameOf;
  }

  lemma GetType(merged: seq<Member>)
    requires |merged| == 4 && merged[3] == Field(NameOf(Type), Str("object"))
    requires forall i :: 0 <= i < 3 ==> merged[i].key != NameOf(Type)
    ensures Get(merged, NameOf(Type)) == Some(Str("object"))
  {
    hide NameOf;
    assert Get(merged[3..], NameOf(Type)) == Some(Str("object"));
    assert merged[2..][1..] == merged[3..] && merged[1..][1..] == merged[2..];
    assert Get(merged[2..], NameOf(Type)) == Get(merged[3..], NameOf(Type));
    assert Get(merged[1..], NameOf(Type)) == Get(merged[2..], NameOf(Type));
  }

  lemma {:induction false} GetMerged(a: seq<Member>, b: seq<Member>, key: string)
    requires forall f :: f in a ==> f.key != key
    ensures Get(a + b, key) == Get(b, key)
  {
    if a == [] {
      assert a + b == b;
    } else {
      assert (a + b)[1..] == a[1..] + b;
      GetMerged(a[1..], b, key);
    }
  }

  /** A property that different branches fix to different values takes exactly these, with the type that
      all of them name, if it is one that says something. */
  lemma LiteralFieldIs(alternatives: seq<Schema>)
    requires |alternatives| > 1 && AllLiteral(alternatives)
    ensures var s := FieldSchema(alternatives);
      && s.Obj? && |Literals(alternatives)| == |alternatives|
      && (forall i :: 0 <= i < |alternatives| ==> Keyed(alternatives[i], NameOf(Const)) == Some(Literals(alternatives)[i]))
      && Get(s.fields, NameOf(Enum)) == Some(Arr(Literals(alternatives)))
      && forall t :: Get(s.fields, NameOf(Type)) == Some(t) <==>
           ((t.Num? && t.digits != "0") || (t.Str? && t.text != "") || t == Bool(true))
           && forall a :: a in alternatives ==> a.Obj? && Get(a.fields, NameOf(Type)) == Some(t)
  {
    NamesMean();
    hide NameOf, KeywordOf;
    var t := SharedType(alternatives);
    var s := FieldSchema(alternatives);
    var enumField := Field(NameOf(Enum), Arr(Literals(alternatives)));
    assert Get([enumField], NameOf(Enum)) == Some(enumField.value);
    assert [enumField][1..] == [] && Get([enumField], NameOf(Type)) == None;
    if t.Some? {
      assert s.fields[1..] == [enumField];
    } else {
      assert s.fields == [enumField];
    }
    assert alternatives[0] in alternatives;
  }

  // ---------------------------------------------------------------------------------------
  // What the merged object accepts

  /** A literal property schema accepts its own literal. */
  ghost predicate LiteralsAccepted(a: Assertions, alternatives: seq<Schema>)
  {
    forall i :: 0 <= i < |alternatives| && Keyed(alternatives[i], NameOf(Const)).Some? ==>
      Accepts(a, alternatives[i], Keyed(alternatives[i], NameOf(Const)).value)
  }

  ghost predicate Chosen(a: Assertions, alternatives: seq<Schema>, x: Value)
  {
    exists i :: 0 <= i < |alternatives| && Accepts(a, alternatives[i], x)
  }

  lemma KeywordHolds(a: Assertions, s: Schema, key: string, v: Value)
    requires Accepts(a, s, v) && Keyed(s, key).Some?
    ensures exists i :: 0 <= i < |s.fields| && s.fields[i] == Field(key, Keyed(s, key).value) && Satisfies(a, s, i, v)
  {
  }

  lemma LiteralIsConstant(a: Assertions, s: Schema, v: Value)
    requires Accepts(a, s, v)
    ensures Keyed(s, NameOf(Const)).Some? ==> v == Keyed(s, NameOf(Const)).value
    ensures Keyed(s, NameOf(Type)).Some? ==> HasType(Keyed(s, NameOf(Type)).value, v)
  {
    if Keyed(s, NameOf(Const)).Some? {
      KeywordHolds(a, s, NameOf(Const), v);
    }
    if Keyed(s, NameOf(Type)).Some? {
      KeywordHolds(a, s, NameOf(Type), v);
    }
  }

  /** The merged schema of one property accepts what one of its alternatives accepts, and, as
      long as literals are accepted by their own schemas, nothing else. */
  lemma FieldSchemaMeaning(a: Assertions, alternatives: seq<Schema>, x: Value)
    requires |alternatives| > 0
    ensures Chosen(a, alternatives, x) ==> Accepts(a, FieldSchema(alternatives), x)
    ensures LiteralsAccepted(a, alternatives) && Accepts(a, FieldSchema(alternatives), x) ==> Chosen(a, alternatives, x)
  {
    if |alternatives| == 1 {
      assert Accepts(a, alternatives[0], x) <==> Chosen(a, alternatives, x);
    } else if AllLiteral(alternatives) {
      LiteralChoice(a, alternatives, x);
    } else {
      AnyOfAlone(a, alternatives, x);
    }
  }

  lemma OneKeyword(a: Assertions, f: Member, x: Value)
    ensures Accepts(a, Obj([f]), x) <==> Satisfies(a, Obj([f]), 0, x)
  {
  }

  lemma AnyOfKeyword(a: Assertions, f: Member, alternatives: seq<Schema>, x: Value)
    requires KeywordOf(f.key) == AnyOf && f.value == Arr(alternatives)
    ensures Satisfies(a, Obj([f]), 0, x) <==> Chosen(a, alternatives, x)
  {
  }

  lemma AnyOfAlone(a: Assertions, alternatives: seq<Schema>, x: Value)
    ensures Accepts(a, Obj([Field(NameOf(AnyOf), Arr(alternatives))]), x) <==> Chosen(a, alternatives, x)
  {
    var f: Member := Field(NameOf(AnyOf), Arr(alternatives));
    assert KeywordOf(f.key) == AnyOf by { NamesMean(); }
    hide NameOf, KeywordOf, Satisfies, Accepts, Chosen;
    OneKeyword(a, f, x);
    AnyOfKeyword(a, f, alternatives, x);
  }

  /** What a literal choice asserts: one of the literals and, if they share it, the type. */
  lemma LiteralKeywords(a: Assertions, alternatives: seq<Schema>, x: Value)
    requires |alternatives| > 1 && AllLiteral(alternatives)
    ensures var t := SharedType(alternatives);
      Accepts(a, FieldSchema(alternatives), x)
      <==> x in Literals(alternatives) && (t.Some? ==> HasType(t.value, x))
  {
    var s := FieldSchema(alternatives);
    var t := SharedType(alternatives);
    NamesMean();
    hide NameOf, KeywordOf, SharedType, Literals, HasType;
    if t.Some? {
      assert Accepts(a, s, x) <==> Satisfies(a, s, 0, x) && Satisfies(a, s, 1, x);
    } else {
      assert Accepts(a, s, x) <==> Satisfies(a, s, 0, x);
    }
  }

  lemma LiteralChoice(a: Assertions, alternatives: seq<Schema>, x: Value)
    requires |alternatives| > 1 && AllLiteral(alternatives)
    ensures Chosen(a, alternatives, x) ==> Accepts(a, FieldSchema(alternatives), x)
    ensures LiteralsAccepted(a, alternatives) && Accepts(a, FieldSchema(alternatives), x) ==> Chosen(a, alternatives, x)
  {
    LiteralKeywords(a, alternatives, x);
    hide Accepts, FieldSchema, HasType;
    if Chosen(a, alternatives, x) {
      var i :| 0 <= i < |alternatives| && Accepts(a, alternatives[i], x);
      LiteralIsConstant(a, alternatives[i], x);
      assert x == Literals(alternatives)[i];
    }
    if LiteralsAccepted(a, alternatives) && Accepts(a, FieldSchema(alternatives), x) {
      var i :| 0 <= i < |alternatives| && Literals(alternatives)[i] == x;
      assert Accepts(a, alternatives[i], x);
    }
  }

  /** The union read field by field: each named field suits one branch, what every branch
      requires is there, and unnamed fields are allowed if some branch is open. */
  ghost predicate Fieldwise(a: Assertions, branches: seq<Schema>, v: Value)
  {
    && v.Obj?
    && (forall k :: 0 <= k < |v.fields| && v.fields[k].key in Names(branches) ==>
          Chosen(a, Alternatives(branches, v.fields[k].key), v.fields[k].value))
    && (forall n :: n in Names(branches) && (forall b :: b in branches ==> Requires(b, n)) ==> Has(v.fields, n))
    && ((forall b :: b in branches ==> Closed(b)) ==>
          forall k :: 0 <= k < |v.fields| ==> v.fields[k].key in Names(branches))
  }

  /** The keywords outside the union that the merged object keeps. */
  ghost predicate KeptHold(a: Assertions, fields: seq<Member>, v: Value)
  {
    forall i :: 0 <= i < |fields| && KeywordOf(fields[i].key) !in REPLACED ==> Satisfies(a, Obj(fields), i, v)
  }

  ghost predicate AllLiteralsAccepted(a: Assertions, branches: seq<Schema>)
  {
    forall n :: n in Names(branches) ==> LiteralsAccepted(a, Alternatives(branches, n))
  }

  /** A keyword that looks at no other keyword holds in any schema that has it. */
  lemma SameKeyword(a: Assertions, s: Schema, i: nat, t: Schema, j: nat, v: Value)
    requires s.Obj? && t.Obj? && i < |s.fields| && j < |t.fields| && s.fields[i] == t.fields[j]
    requires v.Obj? && KeywordOf(s.fields[i].key) != AdditionalProperties
    ensures Satisfies(a, s, i, v) <==> Satisfies(a, t, j, v)
  {
  }

  /** All keywords of an object hold exactly when those of two parts do. */
  lemma MergedHolds(a: Assertions, fields: seq<Member>, branches: seq<Schema>, v: Value)
    requires v.Obj?
    ensures var t: Schema := Obj(Merge(fields, branches));
      var n := |Without(fields, REPLACED)|;
      Accepts(a, t, v) <==>
      (KeptHold(a, fields, v)
       && Satisfies(a, t, n, v) && Satisfies(a, t, n + 1, v) && Satisfies(a, t, n + 2, v) && Satisfies(a, t, n + 3, v))
  {
    hide NameOf, KeywordOf, Satisfies, MergedProperties, RequiredByAll, Names, Closed;
    var kept := Without(fields, REPLACED);
    var s: Schema := Obj(fields);
    var t: Schema := Obj(Merge(fields, branches));
    if Accepts(a, t, v) {
      forall i | 0 <= i < |fields| && KeywordOf(fields[i].key) !in REPLACED ensures Satisfies(a, s, i, v) {
        assert fields[i] in kept;
        var j :| 0 <= j < |kept| && kept[j] == fields[i];
        SameKeyword(a, s, i, t, j, v);
      }
    }
    if KeptHold(a, fields, v) {
      forall j | 0 <= j < |kept| ensures Satisfies(a, t, j, v) {
        assert kept[j] in kept;
        var i :| 0 <= i < |fields| && fields[i] == kept[j];
        SameKeyword(a, s, i, t, j, v);
      }
    }
  }

  ghost predicate NamedFieldsChosen(a: Assertions, branches: seq<Schema>, v: Value)
    requires v.Obj?
  {
    forall k :: 0 <= k < |v.fields| && v.fields[k].key in Names(branches) ==>
      Chosen(a, Alternatives(branches, v.fields[k].key), v.fields[k].value)
  }

  lemma PropertiesMean(a: Assertions, t: Schema, n: nat, p: seq<Member>, v: Value)
    requires t.Obj? && n < |t.fields| && v.Obj? && KeywordOf(t.fields[n].key) == Properties && t.fields[n].value == Obj(p)
    ensures Satisfies(a, t, n, v)
       <==> forall j, k :: 0 <= j < |p| && 0 <= k < |v.fields| ==>
              (p[j].key == v.fields[k].key ==> Accepts(a, p[j].value, v.fields[k].value))
  {
  }

  lemma ChosenPropertiesHold(a: Assertions, branches: seq<Schema>, t: Schema, n: nat, v: Value)
    requires t.Obj? && n < |t.fields| && v.Obj?
    requires KeywordOf(t.fields[n].key) == Properties && t.fields[n].value == Obj(MergedProperties(branches))
    requires NamedFieldsChosen(a, branches, v)
    ensures Satisfies(a, t, n, v)
  {
    hide Names, Alternatives, FieldSchema, Chosen, LiteralsAccepted, NameOf, KeywordOf, MergedProperties, Accepts, Satisfies;
    var p := MergedProperties(branches);
    forall j, k | 0 <= j < |p| && 0 <= k < |v.fields| && p[j].key == v.fields[k].key
      ensures Accepts(a, p[j].value, v.fields[k].value)
    {
      assert Names(branches)[j] in Names(branches);
      FieldSchemaMeaning(a, Alternatives(branches, p[j].key), v.fields[k].value);
    }
    PropertiesMean(a, t, n, p, v);
  }

  lemma HoldingPropertiesChosen(a: Assertions, branches: seq<Schema>, t: Schema, n: nat, v: Value)
    requires t.Obj? && n < |t.fields| && v.Obj?
    requires KeywordOf(t.fields[n].key) == Properties && t.fields[n].value == Obj(MergedProperties(branches))
    requires AllLiteralsAccepted(a, branches) && Satisfies(a, t, n, v)
    ensures NamedFieldsChosen(a, branches, v)
  {
    hide Names, Alternatives, FieldSchema, Chosen, LiteralsAccepted, NameOf, KeywordOf, MergedProperties, Accepts, Satisfies;
    var p := MergedProperties(branches);
    var names := Names(branches);
    PropertiesMean(a, t, n, p, v);
    forall k | 0 <= k < |v.fields| && v.fields[k].key in names
      ensures Chosen(a, Alternatives(branches, v.fields[k].key), v.fields[k].value)
    {
      var j :| 0 <= j < |names| && names[j] == v.fields[k].key;
      assert Accepts(a, p[j].value, v.fields[k].value);
      FieldSchemaMeaning(a, Alternatives(branches, p[j].key), v.fields[k].value);
    }
  }

  lemma MergedRequiredMeaning(a: Assertions, branches: seq<Schema>, t: Schema, n: nat, v: Value)
    requires t.Obj? && n < |t.fields| && v.Obj?
    requires KeywordOf(t.fields[n].key) == Required
    requires t.fields[n].value == Arr(RequiredByAll(branches, Names(branches)))
    ensures Satisfies(a, t, n, v)
       <==> forall x :: x in Names(branches) && (forall b :: b in branches ==> Requires(b, x)) ==> Has(v.fields, x)
  {
    hide NameOf, KeywordOf, Names, Requires, Has, RequiredByAll, Accepts, Named, Prefixed;
    var required := RequiredByAll(branches, Names(branches));
    if Satisfies(a, t, n, v) {
      forall x | x in Names(branches) && (forall b :: b in branches ==> Requires(b, x)) ensures Has(v.fields, x) {
        var name: Schema := Str(x);
        assert name in required;
      }
    } else {
      var j :| 0 <= j < |required| && required[j].Str? && !Has(v.fields, required[j].text);
      assert required[j] in required;
    }
  }

  /** Where the merged object has its four own keywords. */
  ghost predicate Shaped(fields: seq<Member>, branches: seq<Schema>)
  {
    var t := Merge(fields, branches);
    var n := |Without(fields, REPLACED)|;
    && |t| == n + 4
    && (forall i :: 0 <= i < n ==> KeywordOf(t[i].key) !in REPLACED)
    && KeywordOf(t[n].key) == Properties && t[n].value == Obj(MergedProperties(branches))
    && KeywordOf(t[n + 1].key) == Required && t[n + 1].value == Arr(RequiredByAll(branches, Names(branches)))
    && KeywordOf(t[n + 2].key) == AdditionalProperties
    && t[n + 2].value == Bool(!(forall b :: b in branches ==> Closed(b)))
    && KeywordOf(t[n + 3].key) == Type && t[n + 3].value == Str("object")
  }

  lemma MergeShape(fields: seq<Member>, branches: seq<Schema>)
    ensures Shaped(fields, branches)
  {
    hide RequiredByAll, MergedProperties, Names, Closed;
    NamesMean();
    hide NameOf, KeywordOf;
    var kept := Without(fields, REPLACED);
    forall i | 0 <= i < |kept| ensures KeywordOf(kept[i].key) !in REPLACED {
      assert kept[i] in kept;
    }
  }

  /** The names of the merged object are the names of the branches. */
  lemma MergedNames(fields: seq<Member>, branches: seq<Schema>, name: string)
    requires Shaped(fields, branches)
    ensures Named(Merge(fields, branches), name) <==> name in Names(branches)
  {
    hide NameOf, KeywordOf, Names, RequiredByAll, MergedProperties, Merge, Closed, Named, Has, Without;
    OnlyProperties(Merge(fields, branches), |Without(fields, REPLACED)|, MergedProperties(branches), name);
    MergedPropertyNames(branches, name);
  }

  /** With a single `properties` keyword, its names are the names of the object. */
  lemma OnlyProperties(t: seq<Member>, n: nat, p: seq<Member>, name: string)
    requires n < |t| && KeywordOf(t[n].key) == Properties && t[n].value == Obj(p)
    requires forall i :: 0 <= i < |t| && i != n ==> KeywordOf(t[i].key) != Properties
    ensures Named(t, name) <==> Has(p, name)
  {
    hide NameOf, KeywordOf, Has;
    assert t[n] in t;
    if Named(t, name) {
      var f :| f in t && NamesProperty(f, name);
      var i :| 0 <= i < |t| && t[i] == f;
    }
    if Has(p, name) {
      assert NamesProperty(t[n], name);
    }
  }

  lemma MergedPropertyNames(branches: seq<Schema>, name: string)
    ensures Has(MergedProperties(branches), name) <==> name in Names(branches)
  {
  }

  /** The required names of the union are there. */
  ghost predicate RequiredThere(branches: seq<Schema>, v: Value)
    requires v.Obj?
  {
    forall n :: n in Names(branches) && (forall b :: b in branches ==> Requires(b, n)) ==> Has(v.fields, n)
  }

  /** A union of closed branches has no unnamed field. */
  ghost predicate ClosedNames(branches: seq<Schema>, v: Value)
    requires v.Obj?
  {
    (forall b :: b in branches ==> Closed(b)) ==> forall k :: 0 <= k < |v.fields| ==> v.fields[k].key in Names(branches)
  }

  lemma FieldwiseParts(a: Assertions, branches: seq<Schema>, v: Value)
    requires v.Obj?
    ensures Fieldwise(a, branches, v)
       <==> NamedFieldsChosen(a, branches, v) && RequiredThere(branches, v) && ClosedNames(branches, v)
  {
    hide Names, Alternatives, Chosen, Closed, Requires, Has;
  }

  /** What the last three keywords of the merged object ask for. */
  lemma MergedFacts(a: Assertions, fields: seq<Member>, branches: seq<Schema>, v: Value)
    requires v.Obj? && Shaped(fields, branches)
    ensures var t: Schema := Obj(Merge(fields, branches));
      var n := |Without(fields, REPLACED)|;
      && (Satisfies(a, t, n + 1, v) <==> RequiredThere(branches, v))
      && (Satisfies(a, t, n + 2, v) <==> ClosedNames(branches, v)) && Satisfies(a, t, n + 3, v)
  {
    hide NameOf, KeywordOf, Names, RequiredByAll, MergedProperties, Closed, Requires, Has, Merge, Without, Accepts, Satisfies;
    var t: Schema := Obj(Merge(fields, branches));
    var n := |Without(fields, REPLACED)|;
    MergedRequiredMeaning(a, branches, t, n + 1, v);
    MergedOpenness(a, fields, branches, v);
  }

  lemma FieldwiseIsMerged(a: Assertions, fields: seq<Member>, branches: seq<Schema>, v: Value)
    requires v.Obj? && KeptHold(a, fields, v) && Fieldwise(a, branches, v)
    ensures Accepts(a, Obj(Merge(fields, branches)), v)
  {
    hide NameOf, KeywordOf, NamedFieldsChosen, RequiredThere, ClosedNames, Merge, Without, Accepts, Satisfies, KeptHold;
    FieldwiseParts(a, branches, v);
    hide Fieldwise;
    var n := |Without(fields, REPLACED)|;
    MergeShape(fields, branches);
    MergedHolds(a, fields, branches, v);
    ChosenPropertiesHold(a, branches, Obj(Merge(fields, branches)), n, v);
    MergedFacts(a, fields, branches, v);
  }

  lemma MergedIsFieldwise(a: Assertions, fields: seq<Member>, branches: seq<Schema>, v: Value)
    requires v.Obj? && AllLiteralsAccepted(a, branches) && Accepts(a, Obj(Merge(fields, branches)), v)
    ensures KeptHold(a, fields, v) && Fieldwise(a, branches, v)
  {
    hide NameOf, KeywordOf, NamedFieldsChosen, RequiredThere, ClosedNames, Merge, Without, Accepts, Satisfies, KeptHold,
         AllLiteralsAccepted;
    FieldwiseParts(a, branches, v);
    hide Fieldwise;
    var n := |Without(fields, REPLACED)|;
    MergeShape(fields, branches);
    MergedHolds(a, fields, branches, v);
    HoldingPropertiesChosen(a, branches, Obj(Merge(fields, branches)), n, v);
    MergedFacts(a, fields, branches, v);
  }

  /** What the merged object accepts: at least, and with literals that their own schemas accept
      exactly, what the union accepts field by field. */
  lemma MergeMeaning(a: Assertions, fields: seq<Member>, branches: seq<Schema>, v: Value)
    requires v.Obj?
    ensures KeptHold(a, fields, v) && Fieldwise(a, branches, v) ==> Accepts(a, Obj(Merge(fields, branches)), v)
    ensures AllLiteralsAccepted(a, branches) && Accepts(a, Obj(Merge(fields, branches)), v) ==>
              KeptHold(a, fields, v) && Fieldwise(a, branches, v)
  {
    hide Fieldwise, Merge, Accepts, KeptHold, AllLiteralsAccepted;
    if KeptHold(a, fields, v) && Fieldwise(a, branches, v) {
      FieldwiseIsMerged(a, fields, branches, v);
    }
    if AllLiteralsAccepted(a, branches) && Accepts(a, Obj(Merge(fields, branches)), v) {
      MergedIsFieldwise(a, fields, branches, v);
    }
  }

  lemma OpennessMeaning(a: Assertions, t: Schema, i: nat, open: bool, v: Value)
    requires t.Obj? && i < |t.fields| && v.Obj?
    requires KeywordOf(t.fields[i].key) == AdditionalProperties && t.fields[i].value == Bool(open)
    ensures Satisfies(a, t, i, v) <==> open || forall k :: 0 <= k < |v.fields| ==> Named(t.fields, v.fields[k].key)
  {
  }

  lemma ObjectTypeMeaning(a: Assertions, t: Schema, i: nat, v: Value)
    requires t.Obj? && i < |t.fields| && v.Obj?
    requires KeywordOf(t.fields[i].key) == Type && t.fields[i].value == Str("object")
    ensures Satisfies(a, t, i, v)
  {
  }

  lemma MergedOpenness(a: Assertions, fields: seq<Member>, branches: seq<Schema>, v: Value)
    requires v.Obj? && Shaped(fields, branches)
    ensures var t: Schema := Obj(Merge(fields, branches));
      var n := |Without(fields, REPLACED)|;
      && Satisfies(a, t, n + 3, v)
      && (Satisfies(a, t, n + 2, v) <==>
          ((forall b :: b in branches ==> Closed(b)) ==>
             forall k :: 0 <= k < |v.fields| ==> v.fields[k].key in Names(branches)))
  {
    hide NameOf, KeywordOf, Names, RequiredByAll, MergedProperties, Closed, Merge, Without, Named, Satisfies, Accepts;
    var t: Schema := Obj(Merge(fields, branches));
    var n := |Without(fields, REPLACED)|;
    forall k | 0 <= k < |v.fields| ensures Named(t.fields, v.fields[k].key) <==> v.fields[k].key in Names(branches) {
      MergedNames(fields, branches, v.fields[k].key);
    }
    OpennessMeaning(a, t, n + 2, !(forall b :: b in branches ==> Closed(b)), v);
    ObjectTypeMeaning(a, t, n + 3, v);
  }

  // ---------------------------------------------------------------------------------------
  // Every value of the union is a value of the merged object

  predicate UniqueKeys(fields: seq<Member>)
  {
    forall i, j :: 0 <= i < j < |fields| ==> fields[i].key != fields[j].key
  }

  lemma NamedIsInProperties(branch: Schema, name: string)
    requires branch.Obj? && UniqueKeys(branch.fields) && Named(branch.fields, name)
    ensures Has(PropertiesOf(branch), name)
  {
  }

  lemma SameAsObject(a: Assertions, field: Schema, x: Value)
    ensures Accepts(a, AsObject(field), x) <==> Accepts(a, field, x)
  {
    if field == Bool(false) {
      var s := AsObject(field);
      NamesMean();
      assert !Satisfies(a, s, 0, x);
    }
  }

  lemma NamedFieldChosen(a: Assertions, branches: seq<Schema>, b: Schema, v: Value, k: nat)
    requires b in branches && Accepts(a, b, v) && v.Obj? && k < |v.fields|
    requires Has(PropertiesOf(b), v.fields[k].key)
    ensures Chosen(a, Alternatives(branches, v.fields[k].key), v.fields[k].value)
  {
    NamesMean();
    hide NameOf, KeywordOf, Named, Prefixed, Alternatives;
    var name, x := v.fields[k].key, v.fields[k].value;
    var alternatives := Alternatives(branches, name);
    KeywordHolds(a, b, NameOf(Properties), v);
    var field := Get(PropertiesOf(b), name).value;
    var properties := PropertiesOf(b);
    var j :| 0 <= j < |properties| && properties[j] == Field(name, field);
    assert Accepts(a, field, x) by {
      var i :| 0 <= i < |b.fields| && b.fields[i] == Field(NameOf(Properties), Keyed(b, NameOf(Properties)).value) && Satisfies(a, b, i, v);
      PropertiesMean(a, b, i, properties, v);
    }
    SameAsObject(a, field, x);
    assert BranchProperty(b, name) == Some(AsObject(field));
    assert AsObject(field) in alternatives;
  }

  lemma ClosedBranchNames(a: Assertions, b: Schema, v: Value)
    requires b.Obj? && UniqueKeys(b.fields) && Closed(b) && Accepts(a, b, v) && v.Obj?
    ensures forall k :: 0 <= k < |v.fields| ==> Has(PropertiesOf(b), v.fields[k].key)
  {
    NamesMean();
    hide NameOf, KeywordOf, Named, Accepts, Satisfies, PropertiesOf;
    KeywordHolds(a, b, NameOf(AdditionalProperties), v);
    var i :| 0 <= i < |b.fields| && b.fields[i] == Field(NameOf(AdditionalProperties), Bool(false)) && Satisfies(a, b, i, v);
    OpennessMeaning(a, b, i, false, v);
    forall k | 0 <= k < |v.fields| ensures Has(PropertiesOf(b), v.fields[k].key) {
      NamedIsInProperties(b, v.fields[k].key);
    }
  }

  lemma RequiredHolds(a: Assertions, b: Schema, v: Value, name: string)
    requires Accepts(a, b, v) && v.Obj? && Requires(b, name)
    ensures Has(v.fields, name)
  {
    NamesMean();
    hide NameOf, KeywordOf, Named, Prefixed;
    KeywordHolds(a, b, NameOf(Required), v);
  }

  /** A value of a closed branch is a value of the union read field by field. */
  lemma BranchIsFieldwise(a: Assertions, branches: seq<Schema>, b: Schema, v: Value)
    requires b in branches && b.Obj? && UniqueKeys(b.fields) && IsObjectSchema(b) && Closed(b) && Accepts(a, b, v)
    ensures Fieldwise(a, branches, v)
  {
    LiteralIsConstant(a, b, v);
    assert v.Obj?;
    ClosedBranchNames(a, b, v);
    hide Names, Alternatives, Chosen, Closed, Accepts, PropertiesOf, Requires;
    forall k | 0 <= k < |v.fields|
      ensures v.fields[k].key in Names(branches)
      ensures Chosen(a, Alternatives(branches, v.fields[k].key), v.fields[k].value)
    {
      NamedFieldChosen(a, branches, b, v, k);
    }
    forall n | n in Names(branches) && forall c :: c in branches ==> Requires(c, n) ensures Has(v.fields, n) {
      RequiredHolds(a, b, v, n);
    }
  }

  ghost predicate ClosedUnion(branches: seq<Schema>)
  {
    forall b :: b in branches ==> b.Obj? && UniqueKeys(b.fields) && Closed(b)
  }

  lemma UnionAccepted(a: Assertions, fields: seq<Member>, v: Value)
    requires Branches(fields) != [] && Accepts(a, Obj(fields), v)
    ensures exists b :: b in Branches(fields) && Accepts(a, b, v)
  {
    NamesMean();
    hide NameOf, KeywordOf, Named, Prefixed;
    KeywordHolds(a, Obj(fields), NameOf(AnyOf), v);
    var verdicts := Verdicts(a, Branches(fields), v);
    assert true in verdicts;
    var j :| 0 <= j < |verdicts| && verdicts[j];
    assert Branches(fields)[j] in Branches(fields);
  }

  /** Merging a union of closed objects rejects nothing the union accepts. */
  lemma MergeAcceptsMore(a: Assertions, fields: seq<Member>, v: Value)
    requires Branches(fields) != [] && ClosedUnion(Branches(fields))
    requires forall b :: b in Branches(fields) ==> IsObjectSchema(b)
    requires Accepts(a, Obj(fields), v)
    ensures Accepts(a, Obj(Merge(fields, Branches(fields))), v)
  {
    hide NameOf, KeywordOf, Closed, UniqueKeys, IsObjectSchema, Merge, Names, Satisfies;
    UnionAccepted(a, fields, v);
    var branches := Branches(fields);
    var b :| b in branches && Accepts(a, b, v);
    BranchIsFieldwise(a, branches, b, v);
    MergeMeaning(a, fields, branches, v);
  }

  /** Survives stripping and asks for no rejection. */
  predicate Tame(s: Schema) { Keeps(s) && Positive(s) }

  lemma AsObjectTame(field: Schema)
    requires Tame(field)
    ensures Tame(AsObject(field))
  {
  }

  lemma PropertyTame(b: Schema, j: nat)
    requires Tame(b) && j < |PropertiesOf(b)|
    ensures var f := PropertiesOf(b)[j]; Tame(f.value) && !Dropped(f.key, f.value)
  {
    NamesMean();
    hide NameOf, KeywordOf, HasPropertyEscape;
    var f := Field(NameOf(Properties), Get(b.fields, NameOf(Properties)).value);
    var i :| 0 <= i < |b.fields| && b.fields[i] == f;
    assert KeepsKeyword(b, i) && PositiveKeyword(b, i);
  }

  lemma BranchPropertyTame(b: Schema, name: string)
    requires Tame(b) && BranchProperty(b, name).Some?
    ensures var s := BranchProperty(b, name).value; Tame(s) && !Dropped(name, s)
  {
    hide Tame, NameOf, KeywordOf, HasPropertyEscape, PropertiesOf;
    var fields := PropertiesOf(b);
    var field := Get(fields, name).value;
    var j :| 0 <= j < |fields| && fields[j] == Field(name, field);
    PropertyTame(b, j);
    AsObjectTame(field);
  }

  lemma AlternativesTame(branches: seq<Schema>, name: string)
    requires forall b :: b in branches ==> Tame(b)
    ensures forall s :: s in Alternatives(branches, name) ==> Tame(s) && !Dropped(name, s)
  {
    hide Tame, Dropped, Alternatives, BranchProperty;
    forall s | s in Alternatives(branches, name) ensures Tame(s) && !Dropped(name, s) {
      var b :| b in branches && BranchProperty(b, name) == Some(s);
      BranchPropertyTame(b, name);
    }
  }

  lemma LiteralTame(s: Schema)
    requires Tame(s) && Keyed(s, NameOf(Const)).Some?
    ensures Strip(Keyed(s, NameOf(Const)).value) == Keyed(s, NameOf(Const)).value
  {
    NamesMean();
    hide NameOf, KeywordOf, HasPropertyEscape;
    var f := Field(NameOf(Const), Keyed(s, NameOf(Const)).value);
    var i :| 0 <= i < |s.fields| && s.fields[i] == f;
    assert KeepsKeyword(s, i);
  }

  lemma FieldSchemaTame(alternatives: seq<Schema>)
    requires |alternatives| > 0 && forall s :: s in alternatives ==> Tame(s)
    ensures Tame(FieldSchema(alternatives))
  {
    var s := FieldSchema(alternatives);
    if |alternatives| == 1 {
      assert alternatives[0] in alternatives;
    } else if AllLiteral(alternatives) {
      var literals := Literals(alternatives);
      forall i | 0 <= i < |literals| ensures Strip(literals[i]) == literals[i] {
        assert alternatives[i] in alternatives;
        LiteralTame(alternatives[i]);
      }
      assert StripAll(literals) == literals;
      EnumTame(SharedType(alternatives), literals);
    } else {
      AnyOfTame(alternatives);
    }
  }

  lemma EnumTame(t: Option<Schema>, literals: seq<Schema>)
    requires StripAll(literals) == literals
    ensures Tame(Obj((if t.Some? then [Field(NameOf(Type), t.value)] else []) + [Field(NameOf(Enum), Arr(literals))]))
  {
    var s: Schema := Obj((if t.Some? then [Field(NameOf(Type), t.value)] else []) + [Field(NameOf(Enum), Arr(literals))]);
    NamesMean();
    hide NameOf, KeywordOf, Tame;
    TameByKeyword(s);
  }

  lemma AnyOfTame(alternatives: seq<Schema>)
    requires forall s :: s in alternatives ==> Tame(s)
    ensures Tame(Obj([Field(NameOf(AnyOf), Arr(alternatives))]))
  {
    var s: Schema := Obj([Field(NameOf(AnyOf), Arr(alternatives))]);
    NamesMean();
    hide NameOf, KeywordOf;
    assert forall j :: 0 <= j < |alternatives| ==> alternatives[j] in alternatives;
    TameByKeyword(s);
  }

  lemma BranchesTame(fields: seq<Member>)
    requires Tame(Obj(fields))
    ensures forall b :: b in Branches(fields) ==> Tame(b)
  {
    NamesMean();
    hide NameOf, KeywordOf, HasPropertyEscape;
    if Branches(fields) != [] {
      var f := Field(NameOf(AnyOf), Get(fields, NameOf(AnyOf)).value);
      var i :| 0 <= i < |fields| && fields[i] == f;
      assert KeepsKeyword(Obj(fields), i) && PositiveKeyword(Obj(fields), i);
    }
  }

  lemma MergedPropertiesTame(branches: seq<Schema>)
    requires forall b :: b in branches ==> Tame(b)
    ensures forall j :: 0 <= j < |MergedProperties(branches)| ==>
              var f := MergedProperties(branches)[j]; Tame(f.value) && !Dropped(f.key, f.value)
  {
    hide Tame, NameOf, KeywordOf, HasPropertyEscape, FieldSchema, Alternatives, MergedProperties;
    forall j | 0 <= j < |MergedProperties(branches)|
      ensures var f := MergedProperties(branches)[j]; Tame(f.value) && !Dropped(f.key, f.value)
    {
      var f := MergedProperties(branches)[j];
      var alternatives := Alternatives(branches, f.key);
      AlternativesTame(branches, f.key);
      FieldSchemaTame(alternatives);
      FieldSchemaNotDropped(f.key, alternatives);
    }
  }

  lemma FieldSchemaNotDropped(name: string, alternatives: seq<Schema>)
    requires |alternatives| > 0 && forall s :: s in alternatives ==> !Dropped(name, s)
    ensures !Dropped(name, FieldSchema(alternatives))
  {
    hide NameOf, KeywordOf, HasPropertyEscape;
    assert alternatives[0] in alternatives;
  }

  lemma TameByKeyword(s: Schema)
    requires s.Obj? && forall i :: 0 <= i < |s.fields| ==> KeepsKeyword(s, i) && PositiveKeyword(s, i)
    ensures Tame(s)
  {
  }

  lemma MergeTame(fields: seq<Member>, branches: seq<Schema>)
    requires Tame(Obj(fields)) && forall b :: b in branches ==> Tame(b)
    ensures Tame(Obj(Merge(fields, branches)))
  {
    hide NameOf, KeywordOf, HasPropertyEscape, MergedProperties, RequiredByAll, Names, Closed, Dropped, StripFields;
    var t: Schema := Obj(Merge(fields, branches));
    var kept := Without(fields, REPLACED);
    MergeShape(fields, branches);
    MergedPropertiesTame(branches);
    forall j | 0 <= j < |t.fields| ensures KeepsKeyword(t, j) && PositiveKeyword(t, j) {
      if j < |kept| {
        assert kept[j] in kept;
        var i :| 0 <= i < |fields| && fields[i] == kept[j];
        assert KeepsKeyword(Obj(fields), i) && PositiveKeyword(Obj(fields), i);
      }
    }
    TameByKeyword(t);
  }

  /** The projection rejects nothing: for a canonical schema without negation, whose literals and
      property names survive stripping, and whose root union, if it is one, is of closed objects,
      every value it accepts is accepted by the function parameters. */
  lemma ProjectionAcceptsMore(a: Assertions, fields: seq<Member>, v: Value)
    requires Project(fields).Projected? && Keeps(Obj(fields)) && Positive(Obj(fields))
    requires ClosedUnion(Branches(fields))
    requires Accepts(a, Obj(fields), v)
    ensures Accepts(a, Project(fields).schema, v)
  {
    hide NameOf, KeywordOf, Closed, UniqueKeys, Merge, Names, Satisfies, PlainRoot, Strip, Keeps, Positive;
    var branches := Branches(fields);
    if branches == [] {
      StripAcceptsMore(a, Obj(fields), v);
    } else {
      MergeAcceptsMore(a, fields, v);
      BranchesTame(fields);
      MergeTame(fields, branches);
      StripAcceptsMore(a, Obj(Merge(fields, branches)), v);
    }
  }

  /** What the projection of a union means: its parameters accept exactly the objects that the
      union accepts field by field, formats and Unicode patterns aside. */
  lemma ProjectionMeaning(a: Assertions, b: Assertions, fields: seq<Member>, v: Value)
    requires Project(fields).Projected? && Keeps(Obj(fields)) && Positive(Obj(fields))
    requires Branches(fields) != [] && IgnoresDropped(a, b) && AllLiteralsAccepted(b, Branches(fields)) && v.Obj?
    ensures Accepts(a, Project(fields).schema, v) <==> KeptHold(b, fields, v) && Fieldwise(b, Branches(fields), v)
  {
    hide NameOf, KeywordOf, Merge, Names, Satisfies, PlainRoot, Strip, Keeps, Positive, Fieldwise, KeptHold;
    BranchesTame(fields);
    MergeTame(fields, Branches(fields));
    StripMeaning(a, b, Obj(Merge(fields, Branches(fields))), v);
    MergeMeaning(b, fields, Branches(fields), v);
  }

  // ---------------------------------------------------------------------------------------
  // Why the conditions are there

  function ClosedObject(properties: seq<Member>): Schema
  {
    Obj([Field(NameOf(Type), Str("object")), Field(NameOf(Properties), Obj(properties)), Field(NameOf(AdditionalProperties), Bool(false))])
  }

  lemma ClosedObjectMeaning(a: Assertions, properties: seq<Member>, v: Value)
    ensures Accepts(a, ClosedObject(properties), v)
       <==> v.Obj? && forall k :: 0 <= k < |v.fields| ==>
              Has(properties, v.fields[k].key)
              && forall j :: 0 <= j < |properties| ==>
                   (properties[j].key == v.fields[k].key ==> Accepts(a, properties[j].value, v.fields[k].value))
  {
    NamesMean();
    hide NameOf, KeywordOf, Accepts, Satisfies, Has;
    var s := ClosedObject(properties);
    ThreeKeywords(a, s, v);
    if v.Obj? {
      ObjectTypeMeaning(a, s, 0, v);
      PropertiesMean(a, s, 1, properties, v);
      OpennessMeaning(a, s, 2, false, v);
      forall k | 0 <= k < |v.fields| ensures Named(s.fields, v.fields[k].key) <==> Has(properties, v.fields[k].key) {
        assert NamesProperty(s.fields[1], v.fields[k].key) <==> Has(properties, v.fields[k].key);
      }
    } else {
      NotAnObject(a, s, 0, v);
    }
  }

  lemma ThreeKeywords(a: Assertions, s: Schema, v: Value)
    requires s.Obj? && |s.fields| == 3
    ensures Accepts(a, s, v) <==> Satisfies(a, s, 0, v) && Satisfies(a, s, 1, v) && Satisfies(a, s, 2, v)
  {
  }

  lemma NotAnObject(a: Assertions, t: Schema, i: nat, v: Value)
    requires t.Obj? && i < |t.fields| && !v.Obj?
    requires KeywordOf(t.fields[i].key) == Type && t.fields[i].value == Str("object")
    ensures !Satisfies(a, t, i, v)
  {
  }

  /** Apart from a property called `format`, the properties are not lost and ask for no rejection. */
  ghost predicate OthersTame(properties: seq<Member>)
  {
    forall f :: f in properties && KeywordOf(f.key) != Format ==> !Dropped(f.key, f.value) && Tame(f.value)
  }

  /** A closed object with a property called `format` loses that property: a value it accepted
      is still accepted exactly when it has no such field. */
  lemma FormatPropertyLost(a: Assertions, properties: seq<Member>, v: Value)
    requires OthersTame(properties) && v.Obj? && Accepts(a, ClosedObject(properties), v)
    ensures Accepts(a, Strip(ClosedObject(properties)), v)
       <==> forall k :: 0 <= k < |v.fields| ==> KeywordOf(v.fields[k].key) != Format
  {
    hide Accepts, NameOf, KeywordOf, ClosedObject, Strip, Tame, OthersTame, Has, StripFields;
    var r := StripFields(properties);
    StripClosedObject(properties);
    ClosedObjectMeaning(a, properties, v);
    ClosedObjectMeaning(a, r, v);
    forall k | 0 <= k < |v.fields|
      ensures Has(r, v.fields[k].key) <==> KeywordOf(v.fields[k].key) != Format
    {
      StripHasOther(properties, v.fields[k].key);
    }
    forall j, k | 0 <= j < |r| && 0 <= k < |v.fields| && r[j].key == v.fields[k].key
      ensures Accepts(a, r[j].value, v.fields[k].value)
    {
      StrippedPropertyAccepts(a, properties, j, v.fields[k].value, v, k);
    }
  }

  lemma StrippedPropertyAccepts(a: Assertions, properties: seq<Member>, j: nat, x: Value, v: Value, k: nat)
    requires OthersTame(properties) && j < |StripFields(properties)| && v.Obj? && k < |v.fields|
    requires x == v.fields[k].value && StripFields(properties)[j].key == v.fields[k].key
    requires forall i :: 0 <= i < |properties| ==>
               (properties[i].key == v.fields[k].key ==> Accepts(a, properties[i].value, x))
    ensures Accepts(a, StripFields(properties)[j].value, x)
  {
    hide Accepts, NameOf, KeywordOf, Strip, Tame, HasPropertyEscape;
    var r := StripFields(properties);
    assert r[j] in r;
    var f :| f in properties && !Dropped(f.key, f.value) && r[j] == StripMember(f);
    var i :| 0 <= i < |properties| && properties[i] == f;
    TameStripped(a, f.value, x);
  }

  lemma TameStripped(a: Assertions, s: Schema, x: Value)
    requires Tame(s) && Accepts(a, s, x)
    ensures Accepts(a, Strip(s), x)
  {
    StripAcceptsMore(a, s, x);
  }

  lemma StripThree(f: Member, g: Member, h: Member)
    requires !Dropped(f.key, f.value) && !Dropped(g.key, g.value) && !Dropped(h.key, h.value)
    ensures StripFields([f, g, h]) == [StripMember(f), StripMember(g), StripMember(h)]
  {
    hide Dropped, StripMember;
    var fields := [f, g, h];
    StripFieldsAll(fields);
    hide StripFields;
  }

  lemma StripClosedObject(properties: seq<Member>)
    ensures Strip(ClosedObject(properties)) == ClosedObject(StripFields(properties))
  {
    hide NameOf, KeywordOf, Strip, StripFields, Dropped, StripMember;
    var t: Member := Field(NameOf(Type), Str("object"));
    var p: Member := Field(NameOf(Properties), Obj(properties));
    var c: Member := Field(NameOf(AdditionalProperties), Bool(false));
    NamesMean();
    StripOther(t);
    StripOther(p);
    StripOther(c);
    StripThree(t, p, c);
    StripOfObject([t, p, c]);
  }

  lemma StripOther(f: Member)
    requires KeywordOf(f.key) != Format && KeywordOf(f.key) != Pattern
    ensures !Dropped(f.key, f.value)
    ensures f.value.Scalar() ==> StripMember(f) == f
    ensures f.value.Obj? ==> StripMember(f) == Field(f.key, Obj(StripFields(f.value.fields)))
  {
  }

  lemma StripOfObject(fields: seq<Member>)
    ensures Strip(Obj(fields)) == Obj(StripFields(fields))
  {
  }

  lemma StripHasOther(properties: seq<Member>, name: string)
    requires OthersTame(properties)
    ensures Has(StripFields(properties), name) <==> Has(properties, name) && KeywordOf(name) != Format
  {
  }

  /** Negation turns a dropped check into a rejection: what is not of a format becomes not. */
  lemma NegatedFormatLost(a: Assertions, negation: Member, format: Member, v: Value)
    requires KeywordOf(negation.key) == Not && KeywordOf(format.key) == Format && format.value.Scalar()
    requires negation.value == Obj([format])
    ensures Accepts(a, Obj([negation]), v) <==> !a(format.key, format.value, v)
    ensures !Accepts(a, Strip(Obj([negation])), v)
  {
    hide NameOf, KeywordOf, HasPropertyEscape;
    OneKeyword(a, format, v);
    OneKeyword(a, negation, v);
    var stripped := StripMember(negation);
    assert StripFields([format]) == [];
    assert Strip(Obj([negation])) == Obj([stripped]) by {
      assert StripFields([negation]) == [stripped] + StripFields([]);
    }
    OneKeyword(a, stripped, v);
    assert Accepts(a, Obj([]), v);
  }

  /** The literal values of a `const` or `enum`. */
  function LiteralsOf(f: Member): seq<Value>
  {
    if KeywordOf(f.key) == Const then [f.value] else if f.value.Arr? then f.value.items else []
  }

  /** Literals are stripped like schemas: one that was accepted is still accepted exactly when some
      literal is stripped to it. */
  lemma LiteralLostExactlyWhen(a: Assertions, f: Member, v: Value)
    requires KeywordOf(f.key) == Const || (KeywordOf(f.key) == Enum && f.value.Arr?)
    ensures Accepts(a, Obj([f]), v) <==> v in LiteralsOf(f)
    ensures Accepts(a, Strip(Obj([f])), v) <==> exists x :: x in LiteralsOf(f) && v == Strip(x)
  {
    hide NameOf, KeywordOf, HasPropertyEscape;
    var stripped := StripMember(f);
    OneKeyword(a, f, v);
    assert Strip(Obj([f])) == Obj([stripped]) by {
      assert StripFields([f]) == [stripped] + StripFields([]);
    }
    OneKeyword(a, stripped, v);
    StrippedLiterals(f, v);
  }

  lemma StrippedLiterals(f: Member, v: Value)
    requires KeywordOf(f.key) == Const || (KeywordOf(f.key) == Enum && f.value.Arr?)
    ensures v in LiteralsOf(StripMember(f)) <==> exists x :: x in LiteralsOf(f) && v == Strip(x)
  {
    hide NameOf, KeywordOf, HasPropertyEscape;
    var before, after := LiteralsOf(f), LiteralsOf(StripMember(f));
    assert |after| == |before| && forall j :: 0 <= j < |before| ==> after[j] == Strip(before[j]);
    if v in after {
      var j :| 0 <= j < |after| && after[j] == v;
      assert before[j] in before;
    }
    if x :| x in before && v == Strip(x) {
      var j :| 0 <= j < |before| && before[j] == x;
      assert after[j] == v;
    }
  }

  /** A literal object with a field called `format` is one that is lost. */
  lemma LiteralFormatLost(a: Assertions, f: Member, format: Member)
    requires KeywordOf(f.key) == Const && KeywordOf(format.key) == Format && f.value == Obj([format])
    ensures Accepts(a, Obj([f]), Obj([format])) && !Accepts(a, Strip(Obj([f])), Obj([format]))
  {
    LiteralLostExactlyWhen(a, f, Obj([format]));
    hide NameOf, KeywordOf, HasPropertyEscape, Accepts;
    assert StripFields([format]) == [];
    assert Strip(Obj([format])) == Obj([]);
  }

  /** So does exclusive choice: of two alternatives that a format told apart, both hold. */
  lemma ExclusiveFormatLost(a: Assertions, choice: Member, format: Member, v: Value)
    requires KeywordOf(choice.key) == OneOf && KeywordOf(format.key) == Format && format.value.Scalar()
    requires choice.value == Arr([Obj([format]), Obj([])])
    ensures Accepts(a, Obj([choice]), v) <==> !a(format.key, format.value, v)
    ensures !Accepts(a, Strip(Obj([choice])), v)
  {
    hide NameOf, KeywordOf, Satisfies, Accepts, Strip;
    FormatAlone(a, format, v);
    ChoiceMeaning(a, choice, Obj([format]), Obj([]), v);
    ChoiceStripped(choice, format);
    ChoiceMeaning(a, StripMember(choice), Obj([]), Obj([]), v);
  }

  lemma FormatAlone(a: Assertions, format: Member, v: Value)
    requires KeywordOf(format.key) == Format && format.value.Scalar()
    ensures Accepts(a, Obj([format]), v) <==> a(format.key, format.value, v)
    ensures Accepts(a, Obj([]), v)
  {
    hide NameOf, KeywordOf;
    OneKeyword(a, format, v);
  }

  lemma ChoiceMeaning(a: Assertions, choice: Member, s: Schema, t: Schema, v: Value)
    requires KeywordOf(choice.key) == OneOf && choice.value == Arr([s, t])
    ensures Accepts(a, Obj([choice]), v) <==> (Accepts(a, s, v) <==> !Accepts(a, t, v))
  {
    hide NameOf, KeywordOf, ExactlyOne, Verdicts, Accepts;
    OneKeyword(a, choice, v);
    ChoiceOfTwo(a, s, t, v);
  }

  lemma ChoiceStripped(choice: Member, format: Member)
    requires KeywordOf(choice.key) == OneOf && KeywordOf(format.key) == Format
    requires choice.value == Arr([Obj([format]), Obj([])])
    ensures Strip(Obj([choice])) == Obj([StripMember(choice)]) && StripMember(choice).value == Arr([Obj([]), Obj([])])
  {
    hide NameOf, KeywordOf, HasPropertyEscape;
    StripEmpty();
    StripPair(Obj([format]), Obj([]));
    hide Strip;
    StripOfObject([format]);
    StripOfObject([choice]);
    assert StripFields([format]) == [];
    assert StripFields([choice]) == [StripMember(choice)] + StripFields([]);
  }

  lemma StripEmpty()
    ensures Strip(Obj([])) == Obj([])
  {
  }

  lemma StripPair(s: Schema, t: Schema)
    ensures Strip(Arr([s, t])) == Arr([Strip(s), Strip(t)])
  {
    hide Strip;
    assert Strip(Arr([s, t])).items == [Strip(s), Strip(t)];
  }

  lemma ChoiceOfTwo(a: Assertions, s: Schema, t: Schema, v: Value)
    ensures ExactlyOne(Verdicts(a, [s, t], v)) <==> (Accepts(a, s, v) <==> !Accepts(a, t, v))
  {
    hide Accepts, Verdicts, ExactlyOne;
    assert Verdicts(a, [s, t], v) == [Accepts(a, s, v), Accepts(a, t, v)];
    OneOfTwo(Accepts(a, s, v), Accepts(a, t, v));
  }

  lemma OneOfTwo(x: bool, y: bool)
    ensures ExactlyOne([x, y]) <==> x != y
  {
    var verdicts := [x, y];
    assert verdicts[0] == x && verdicts[1] == y;
    if ExactlyOne(verdicts) {
      var j :| 0 <= j < 2 && verdicts[j] && forall k :: 0 <= k < 2 && k != j ==> !verdicts[k];
      assert !verdicts[1 - j];
    }
  }

  /** A union may have open branches: a value it accepts is accepted by the parameters exactly
      when each of its fields that any branch names suits one of the branches that name it. */
  lemma UnionLostExactlyWhen(a: Assertions, b: Assertions, fields: seq<Member>, v: Value)
    requires Project(fields).Projected? && Keeps(Obj(fields)) && Positive(Obj(fields))
    requires Branches(fields) != [] && IgnoresDropped(a, b) && AllLiteralsAccepted(b, Branches(fields))
    requires forall c :: c in Branches(fields) ==> c.Obj? && UniqueKeys(c.fields)
    requires Accepts(a, Obj(fields), v)
    ensures v.Obj?
    ensures Accepts(a, Project(fields).schema, v) <==> NamedFieldsChosen(b, Branches(fields), v)
  {
    hide NameOf, KeywordOf, Merge, Names, Satisfies, PlainRoot, Strip, Keeps, Positive, Closed, UniqueKeys, Requires, Has,
         Chosen, Alternatives, AllLiteralsAccepted, PropertiesOf;
    var branches := Branches(fields);
    WeakerAcceptsMore(a, b, Obj(fields), v);
    UnionAccepted(b, fields, v);
    var c :| c in branches && Accepts(b, c, v);
    LiteralIsConstant(b, c, v);
    ProjectionMeaning(a, b, fields, v);
    FieldwiseParts(b, branches, v);
    hide Fieldwise, IgnoresDropped;
    BranchShape(b, branches, c, v);
  }

  /** A value of a branch has what all branches require, and only known fields if all are closed. */
  lemma BranchShape(b: Assertions, branches: seq<Schema>, c: Schema, v: Value)
    requires c in branches && c.Obj? && UniqueKeys(c.fields) && v.Obj? && Accepts(b, c, v)
    ensures (forall d :: d in branches ==> Closed(d)) ==> forall k :: 0 <= k < |v.fields| ==> v.fields[k].key in Names(branches)
    ensures forall n :: n in Names(branches) && (forall d :: d in branches ==> Requires(d, n)) ==> Has(v.fields, n)
  {
    hide NameOf, KeywordOf, Names, Accepts, Closed, UniqueKeys, Requires, Has, PropertiesOf;
    if forall d :: d in branches ==> Closed(d) {
      ClosedBranchNames(b, c, v);
      forall k | 0 <= k < |v.fields| ensures v.fields[k].key in Names(branches) {
        assert Has(PropertiesOf(c), v.fields[k].key);
      }
    }
    forall n | n in Names(branches) && forall d :: d in branches ==> Requires(d, n) ensures Has(v.fields, n) {
      RequiredHolds(b, c, v, n);
    }
  }

  const ONLY_A: Schema := Obj([Field(NameOf(Const), Str("a"))])
  const ANY_OBJECT: Schema := Obj([Field(NameOf(Type), Str("object"))])

  /** A closed branch that fixes `kind`, beside one that is open. */
  function OpenBranches(): seq<Schema> { [ClosedObject([Field("kind", ONLY_A)]), ANY_OBJECT] }

  function OpenUnion(): seq<Member> { [Field(NameOf(AnyOf), Arr(OpenBranches()))] }

  lemma OnlyA(a: Assertions, x: Value)
    ensures Accepts(a, ONLY_A, x) <==> x == Str("a")
  {
    NamesMean();
    hide NameOf, KeywordOf;
    OneKeyword(a, Field(NameOf(Const), Str("a")), x);
  }

  lemma AnyObject(a: Assertions, v: Value)
    ensures Accepts(a, ANY_OBJECT, v) <==> v.Obj?
  {
    NamesMean();
    hide NameOf, KeywordOf;
    OneKeyword(a, Field(NameOf(Type), Str("object")), v);
  }

  lemma {:induction false} GetAt(fields: seq<Member>, i: nat)
    requires i < |fields| && forall k :: 0 <= k < i ==> fields[k].key != fields[i].key
    ensures Get(fields, fields[i].key) == Some(fields[i].value)
  {
    if i > 0 {
      GetAt(fields[1..], i - 1);
    }
  }

  lemma ClosedObjectTame(f: Member)
    requires KeywordOf(f.key) == Other && Tame(f.value)
    ensures Tame(ClosedObject([f])) && UniqueKeys(ClosedObject([f]).fields) && PropertiesOf(ClosedObject([f])) == [f]
  {
    NamesMean();
    var s := ClosedObject([f]);
    assert Keeps(Bool(false)) && Positive(Bool(false));
    hide NameOf, KeywordOf, Keeps, Positive;
    GetAt(s.fields, 1);
    assert KeepsKeyword(s, 1) && PositiveKeyword(s, 1);
    TameByKeyword(s);
  }

  lemma OpenUnionTame()
    ensures Tame(Obj(OpenUnion())) && Tame(ONLY_A)
  {
    NamesMean();
    assert KeywordOf("kind") == Other;
    hide NameOf, KeywordOf, Keeps, Positive;
    TameByKeyword(ONLY_A);
    TameByKeyword(ANY_OBJECT);
    ClosedObjectTame(Field("kind", ONLY_A));
    AnyOfTame(OpenBranches());
  }

  lemma OpenUnionNames()
    ensures "kind" in Names(OpenBranches())
    ensures forall n, s :: s in Alternatives(OpenBranches(), n) ==> s == ONLY_A
    ensures forall c :: c in OpenBranches() ==> c.Obj? && UniqueKeys(c.fields)
  {
    var kind: Member := Field("kind", ONLY_A);
    assert KeywordOf("kind") == Other;
    OpenUnionTame();
    ClosedObjectTame(kind);
    NamesMean();
    hide KeywordOf, Names, Alternatives, Tame, ClosedObject, NameOf;
    var closed := ClosedObject([kind]);
    assert OpenBranches()[0] == closed && closed in OpenBranches();
    assert Has(PropertiesOf(closed), "kind") by { assert PropertiesOf(closed)[0].key == "kind"; }
    assert PropertiesOf(ANY_OBJECT) == [];
    forall n ensures BranchProperty(closed, n).Some? ==> BranchProperty(closed, n) == Some(ONLY_A) {
      if Get([kind], n).Some? {
        assert Field(n, Get([kind], n).value) == kind;
      }
    }
  }

  lemma MergedIsPlain(branches: seq<Schema>)
    ensures PlainRoot(MergedKeywords(branches))
  {
    NamesMean();
    hide KeywordOf, NameOf, MergedProperties, RequiredByAll, Names, Closed, Get;
    GetAt(MergedKeywords(branches), 3);
  }

  lemma OpenUnionProjected()
    ensures Branches(OpenUnion()) == OpenBranches() && Project(OpenUnion()).Projected?
  {
    NamesMean();
    hide KeywordOf, MergedKeywords, PlainRoot, Strip;
    var fields, branches := OpenUnion(), OpenBranches();
    assert Branches(fields) == branches;
    assert Without(fields, REPLACED) == [] by { assert fields[0] in fields; }
    MergedIsPlain(branches);
    assert Merge(fields, branches) == MergedKeywords(branches);
    assert IsObjectSchema(branches[0]) && IsObjectSchema(branches[1]);
  }

  /** Such a union accepts through its open branch what the parameters, which know only the fixed
      alternative of `kind`, reject. */
  lemma OpenBranchLost(a: Assertions)
    ensures var v: Value := Obj([Field("kind", Str("b"))]);
      Accepts(a, Obj(OpenUnion()), v) && Project(OpenUnion()).Projected? && !Accepts(a, Project(OpenUnion()).schema, v)
  {
    var v: Value := Obj([Field("kind", Str("b"))]);
    var b := (key, arg, x) => Dropped(key, arg) || a(key, arg, x);
    AnyObject(a, v);
    AnyOfAlone(a, OpenBranches(), v);
    OpenLiteralsAccepted(b);
    OnlyA(b, Str("b"));
    OpenUnionTame();
    OpenUnionNames();
    OpenUnionProjected();
    hide NameOf, KeywordOf, Accepts, Project, Names, Alternatives, Branches, Keeps, Positive, ONLY_A, ClosedObject,
         AllLiteralsAccepted, UniqueKeys, HasPropertyEscape;
    assert OpenBranches()[1] == ANY_OBJECT;
    UnionLostExactlyWhen(a, b, OpenUnion(), v);
    assert v.fields[0].key == "kind";
    var alternatives := Alternatives(OpenBranches(), "kind");
    forall i | 0 <= i < |alternatives| ensures !Accepts(b, alternatives[i], Str("b")) {
      assert alternatives[i] in alternatives;
    }
    assert !Chosen(b, alternatives, v.fields[0].value);
  }

  lemma OpenLiteralsAccepted(b: Assertions)
    ensures AllLiteralsAccepted(b, OpenBranches())
  {
    OpenUnionNames();
    OnlyA(b, Str("a"));
    assert Keyed(ONLY_A, NameOf(Const)) == Some(Str("a"));
    hide NameOf, KeywordOf, Accepts, Names, Alternatives, OpenBranches, UniqueKeys, Keyed;
    forall n, i | n in Names(OpenBranches()) && 0 <= i < |Alternatives(OpenBranches(), n)|
      ensures Alternatives(OpenBranches(), n)[i] == ONLY_A
    {
      assert Alternatives(OpenBranches(), n)[i] in Alternatives(OpenBranches(), n);
    }
  }
}
