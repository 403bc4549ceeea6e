/** The number of UTF-8 bytes of `JSON.stringify` for values whose strings are UTF-16 texts. */
module JsonSize {
  import opened Utf16
  import opened Json

  type Value = Json<Text>
  type Member = Field<Text>

  function JsonBytes(j: Value): (n: nat)
  {
    match j
    case Null => 4
    case Bool(truth) => if truth then 4 else 5
    case Num(digits) => |digits|
    case Str(text) => StringBytes(text)
    case Arr(items) => 2 + ItemBytes(items) + Commas(|items|)
    case Obj(fields) => 2 + FieldBytes(fields) + Commas(|fields|)
  }

  function Commas(n: nat): nat { if n == 0 then 0 else n - 1 }

  function ItemBytes(items: seq<Value>): nat
  {
    if items == [] then 0 else ItemBytes(items[..|items| - 1]) + JsonBytes(items[|items| - 1])
  }

  function MemberBytes(f: Member): nat { StringBytes(f.key) + 1 + JsonBytes(f.value) }

  function FieldBytes(fields: seq<Member>): nat
  {
    if fields == [] then 0 else FieldBytes(fields[..|fields| - 1]) + MemberBytes(fields[|fields| - 1])
  }
}
