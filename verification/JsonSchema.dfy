/** Which values a JSON Schema accepts (JSON Schema 2020-12, Core section 10 and Validation
    section 6), for the keywords that the tool schemas use. A schema is a JSON value; every
    member of a schema object asserts something on its own, and `additionalProperties` looks at
    the properties beside it. Keywords about single values, such as lengths, bounds, patterns
    and formats, are left to a function, so that a schema can be read with and without them. */
module JsonSchema {
  import opened Json

  type Schema = Json<string>
  type Value = Json<string>
  type Member = Field<string>

  /** The assertions whose argument is a single value (lengths, bounds, patterns, formats):
      keyword, argument, instance. */
  type Assertions = (string, Json<string>, Value) -> bool

  datatype Keyword =
    | Type | Const | Enum | AnyOf | AllOf | OneOf | Not | Properties | Required | AdditionalProperties
    | PropertyNames | PrefixItems | Items | Format | Pattern | Other

  function KeywordOf(key: string): Keyword
  {
    match key
    case "type" => Type
    case "const" => Const
    case "enum" => Enum
    case "anyOf" => AnyOf
    case "allOf" => AllOf
    case "oneOf" => OneOf
    case "not" => Not
    case "properties" => Properties
    case "required" => Required
    case "additionalProperties" => AdditionalProperties
    case "propertyNames" => PropertyNames
    case "prefixItems" => PrefixItems
    case "items" => Items
    case "format" => Format
    case "pattern" => Pattern
    case _ => Other
  }

  /** The name of a keyword; `Other` has none. */
  function NameOf(k: Keyword): string
  {
    match k
    case Type => "type"
    case Const => "const"
    case Enum => "enum"
    case AnyOf => "anyOf"
    case AllOf => "allOf"
    case OneOf => "oneOf"
    case Not => "not"
    case Properties => "properties"
    case Required => "required"
    case AdditionalProperties => "additionalProperties"
    case PropertyNames => "propertyNames"
    case PrefixItems => "prefixItems"
    case Items => "items"
    case Format => "format"
    case Pattern => "pattern"
    case Other => ""
  }

  lemma NamesMean()
    ensures forall k :: k != Other ==> KeywordOf(NameOf(k)) == k
  {
  }

  predicate IsA(name: string, v: Value)
  {
    match v
    case Null => name == "null"
    case Bool(_) => name == "boolean"
    case Num(digits) => name == "number" || (name == "integer" && '.' !in digits)
    case Str(_) => name == "string"
    case Arr(_) => name == "array"
    case Obj(_) => name == "object"
  }

  predicate HasType(arg: Schema, v: Value)
  {
    match arg
    case Str(name) => IsA(name, v)
    case Arr(names) => exists i :: 0 <= i < |names| && names[i].Str? && IsA(names[i].text, v)
    case _ => true
  }

  predicate NamesProperty(f: Member, name: string)
  {
    KeywordOf(f.key) == Properties && f.value.Obj? && Has(f.value.fields, name)
  }

  /** The object schema names this property. */
  predicate Named(fields: seq<Member>, name: string)
  {
    exists f :: f in fields && NamesProperty(f, name)
  }

  predicate CoversItem(f: Member, j: nat)
  {
    KeywordOf(f.key) == PrefixItems && f.value.Arr? && j < |f.value.items|
  }

  predicate Prefixed(fields: seq<Member>, j: nat)
  {
    exists f :: f in fields && CoversItem(f, j)
  }

  ghost predicate Accepts(a: Assertions, s: Schema, v: Value)
    decreases s, 1
  {
    match s
    case Bool(truth) => truth
    case Obj(fields) => forall i :: 0 <= i < |fields| ==> Satisfies(a, s, i, v)
    case _ => true
  }

  predicate ExactlyOne(verdicts: seq<bool>)
  {
    exists j :: 0 <= j < |verdicts| && verdicts[j] && forall k :: 0 <= k < |verdicts| && k != j ==> !verdicts[k]
  }

  ghost function Verdicts(a: Assertions, schemas: seq<Schema>, v: Value): (r: seq<bool>)
    ensures |r| == |schemas| && forall j :: 0 <= j < |r| ==> r[j] == Accepts(a, schemas[j], v)
    decreases schemas
  {
    if schemas == [] then [] else [Accepts(a, schemas[0], v)] + Verdicts(a, schemas[1..], v)
  }

  /** The instance satisfies the i-th keyword of an object schema. */
  ghost predicate Satisfies(a: Assertions, s: Schema, i: nat, v: Value)
    requires s.Obj? && i < |s.fields|
    decreases s, 0
  {
    var arg := s.fields[i].value;
    match KeywordOf(s.fields[i].key)
    case Type => HasType(arg, v)
    case Const => v == arg
    case Enum => arg.Arr? ==> v in arg.items
    case AnyOf => arg.Arr? ==> true in Verdicts(a, arg.items, v)
    case AllOf => arg.Arr? ==> false !in Verdicts(a, arg.items, v)
    case OneOf => arg.Arr? ==> ExactlyOne(Verdicts(a, arg.items, v))
    case Not => !Accepts(a, arg, v)
    case Properties =>
      arg.Obj? && v.Obj? ==>
        forall j, k :: 0 <= j < |arg.fields| && 0 <= k < |v.fields| ==>
          (arg.fields[j].key == v.fields[k].key ==> Accepts(a, arg.fields[j].value, v.fields[k].value))
    case Required =>
      arg.Arr? && v.Obj? ==>
        forall j :: 0 <= j < |arg.items| && arg.items[j].Str? ==> Has(v.fields, arg.items[j].text)
    case AdditionalProperties =>
      v.Obj? ==>
        forall k :: 0 <= k < |v.fields| && !Named(s.fields, v.fields[k].key) ==> Accepts(a, arg, v.fields[k].value)
    case PropertyNames => v.Obj? ==> forall k :: 0 <= k < |v.fields| ==> Accepts(a, arg, Str(v.fields[k].key))
    case PrefixItems =>
      arg.Arr? && v.Arr? ==>
        forall j :: 0 <= j < |arg.items| && j < |v.items| ==> Accepts(a, arg.items[j], v.items[j])
    case Items =>
      v.Arr? ==> forall j :: 0 <= j < |v.items| && !Prefixed(s.fields, j) ==> Accepts(a, arg, v.items[j])
    case _ => arg.Scalar() ==> a(s.fields[i].key, arg, v)
  }

  // ---------------------------------------------------------------------------------------
  // Checking less accepts more, unless a keyword asks for rejection

  /** No keyword asks that a subschema reject: no `oneOf`, and `not` only of the empty schema. */
  predicate Positive(s: Schema)
    decreases s, 1
  {
    s.Obj? ==> forall i :: 0 <= i < |s.fields| ==> PositiveKeyword(s, i)
  }

  predicate PositiveKeyword(s: Schema, i: nat)
    requires s.Obj? && i < |s.fields|
    decreases s, 0
  {
    var arg := s.fields[i].value;
    match KeywordOf(s.fields[i].key)
    case Not => arg == Obj([])
    case OneOf => !arg.Arr?
    case AnyOf | AllOf | PrefixItems => arg.Arr? ==> forall j :: 0 <= j < |arg.items| ==> Positive(arg.items[j])
    case AdditionalProperties | PropertyNames | Items => Positive(arg)
    case Properties => arg.Obj? ==> forall j :: 0 <= j < |arg.fields| ==> Positive(arg.fields[j].value)
    case _ => true
  }

  ghost predicate Weaker(a: Assertions, b: Assertions)
  {
    forall key, arg, v :: a(key, arg, v) ==> b(key, arg, v)
  }

  lemma {:induction false} WeakerAcceptsMore(a: Assertions, b: Assertions, s: Schema, v: Value)
    requires Positive(s) && Weaker(a, b) && Accepts(a, s, v)
    ensures Accepts(b, s, v)
    decreases s, 2
  {
    hide KeywordOf;
    if s.Obj? {
      forall i | 0 <= i < |s.fields| ensures Satisfies(b, s, i, v) {
        assert Satisfies(a, s, i, v);
        WeakerSatisfied(a, b, s, i, v);
      }
    }
  }

  lemma {:induction false} WeakerSatisfied(a: Assertions, b: Assertions, s: Schema, i: nat, v: Value)
    requires Positive(s) && s.Obj? && i < |s.fields| && Weaker(a, b) && Satisfies(a, s, i, v)
    ensures Satisfies(b, s, i, v)
    decreases s, 1
  {
    hide KeywordOf, Named, Prefixed, Has;
    var arg := s.fields[i].value;
    assert PositiveKeyword(s, i);
    match KeywordOf(s.fields[i].key)
    case AnyOf | AllOf => WeakerCombined(a, b, s, i, v);
    case PrefixItems =>
      if arg.Arr? && v.Arr? {
        forall j | 0 <= j < |arg.items| && j < |v.items| ensures Accepts(b, arg.items[j], v.items[j]) {
          WeakerAcceptsMore(a, b, arg.items[j], v.items[j]);
        }
      }
    case Properties =>
      if arg.Obj? && v.Obj? {
        forall j, k | 0 <= j < |arg.fields| && 0 <= k < |v.fields| && arg.fields[j].key == v.fields[k].key
          ensures Accepts(b, arg.fields[j].value, v.fields[k].value)
        {
          WeakerAcceptsMore(a, b, arg.fields[j].value, v.fields[k].value);
        }
      }
    case AdditionalProperties =>
      if v.Obj? {
        forall k | 0 <= k < |v.fields| && !Named(s.fields, v.fields[k].key) ensures Accepts(b, arg, v.fields[k].value) {
          WeakerAcceptsMore(a, b, arg, v.fields[k].value);
        }
      }
    case PropertyNames =>
      if v.Obj? {
        forall k | 0 <= k < |v.fields| ensures Accepts(b, arg, Str(v.fields[k].key)) {
          WeakerAcceptsMore(a, b, arg, Str(v.fields[k].key));
        }
      }
    case Items =>
      if v.Arr? {
        forall k | 0 <= k < |v.items| && !Prefixed(s.fields, k) ensures Accepts(b, arg, v.items[k]) {
          WeakerAcceptsMore(a, b, arg, v.items[k]);
        }
      }
    case _ =>
  }

  lemma {:induction false} WeakerCombined(a: Assertions, b: Assertions, s: Schema, i: nat, v: Value)
    requires Positive(s) && s.Obj? && i < |s.fields| && Weaker(a, b) && Satisfies(a, s, i, v)
    requires KeywordOf(s.fields[i].key) in {AnyOf, AllOf}
    ensures Satisfies(b, s, i, v)
    decreases s, 0
  {
    hide KeywordOf, Accepts;
    var arg := s.fields[i].value;
    assert PositiveKeyword(s, i);
    if arg.Arr? {
      forall j | 0 <= j < |arg.items| && Accepts(a, arg.items[j], v) ensures Verdicts(b, arg.items, v)[j] {
        WeakerAcceptsMore(a, b, arg.items[j], v);
      }
      var verdicts := Verdicts(a, arg.items, v);
      if KeywordOf(s.fields[i].key) == AnyOf {
        var j :| 0 <= j < |verdicts| && verdicts[j];
        assert Verdicts(b, arg.items, v)[j];
      } else {
        assert forall j :: 0 <= j < |verdicts| ==> verdicts[j];
      }
    }
  }
}
