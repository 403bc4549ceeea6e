/** JSON values as `JSON.parse` yields them. The type of strings is left open: schemas are read
    as characters, prompts as UTF-16 code units. A number is its canonical text, the fields of an
    object keep their order. */
module Json {
  import opened Wrappers

  datatype Json<S> =
    | Null
    | Bool(truth: bool)
    | Num(digits: string)
    | Str(text: S)
    | Arr(items: seq<Json<S>>)
    | Obj(fields: seq<Field<S>>)
  {
    predicate Scalar() { !Arr? && !Obj? }
  }

  datatype Field<S> = Field(key: S, value: Json<S>)

  /** `object[key]` */
  function Get<S(==)>(fields: seq<Field<S>>, key: S): (r: Option<Json<S>>)
    ensures r.Some? <==> Has(fields, key)
    ensures r.Some? ==> Field(key, r.value) in fields
  {
    if fields == [] then None
    else if fields[0].key == key then Some(fields[0].value)
    else Get(fields[1..], key)
  }

  predicate Has<S(==)>(fields: seq<Field<S>>, key: S)
  {
    exists i :: 0 <= i < |fields| && fields[i].key == key
  }
}
