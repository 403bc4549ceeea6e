/** The text that `JSON.stringify` writes (RFC 8259 sections 2 to 7; an unpaired surrogate becomes a
    six-character escape), and that the sizes used everywhere are the UTF-8 sizes of this text. */
module JsonText {
  import opened Utf16
  import opened Json
  import opened JsonSize

  /** ASCII at both ends, so that putting texts together pairs no surrogates. */
  predicate Joinable(t: Text) { t != [] && t[0] < 0x80 && t[|t| - 1] < 0x80 }

  lemma {:induction false} Utf8OfBoth(a: Text, b: Text, k: nat)
    requires k <= |b| && (a == [] || b == [] || a[|a| - 1] < 0x80 || b[0] < 0x80)
    ensures Utf8Bytes(a + b, 0, |a| + k) == Utf8Length(a) + Utf8Bytes(b, 0, k)
    decreases k
  {
    var s := a + b;
    if k == 0 {
      assert s[..|a|] == a;
      Utf8OfPrefix(s, |a|, |a|);
    } else {
      assert s[|a| + k - 1] == b[k - 1];
      if k >= 2 {
        assert s[|a| + k - 2] == b[k - 2];
        Utf8OfBoth(a, b, k - 2);
      }
      Utf8OfBoth(a, b, k - 1);
    }
  }

  lemma Utf8Joins(a: Text, b: Text)
    requires a == [] || b == [] || a[|a| - 1] < 0x80 || b[0] < 0x80
    ensures Utf8Length(a + b) == Utf8Length(a) + Utf8Length(b)
  {
    Utf8OfBoth(a, b, |b|);
  }

  lemma {:induction false} AsciiLength(t: Text, end: nat)
    requires end <= |t| && forall i :: 0 <= i < |t| ==> t[i] < 0x80
    ensures Utf8Bytes(t, 0, end) == end
    ensures end == |t| ==> Utf8Length(t) == end
    decreases end
  {
    if end > 0 {
      AsciiLength(t, end - 1);
    }
  }

  // ---------------------------------------------------------------------------------------
  // Strings

  function Hex(d: nat): Unit
    requires d < 16
  {
    if d < 10 then 48 + d else 87 + d
  }

  /** A unit that is not half of a pair, as it stands between quotes. */
  function Escaped(u: Unit): (t: Text)
    ensures t != []
  {
    match u
    case 34 => [92, 34]
    case 92 => [92, 92]
    case 8 => [92, 98]
    case 9 => [92, 116]
    case 10 => [92, 110]
    case 12 => [92, 102]
    case 13 => [92, 114]
    case _ =>
      if u < 0x20 || High(u) || Low(u)
      then [92, 117, Hex(u / 4096), Hex(u / 256 % 16), Hex(u / 16 % 16), Hex(u % 16)]
      else [u]
  }

  lemma EscapedLength(u: Unit)
    ensures Utf8Length(Escaped(u)) == UnitBytes(u)
    ensures forall i :: 0 <= i < |Escaped(u)| ==> !High(Escaped(u)[i]) && !Low(Escaped(u)[i])
  {
    var t := Escaped(u);
    if |t| > 1 {
      assert forall i :: 0 <= i < |t| ==> t[i] < 0x80;
      AsciiLength(t, |t|);
    } else {
      assert Utf8Bytes(t, 0, 0) == 0;
    }
  }

  /** The first `to` units of a string between quotes; surrogate pairs stand as they are. */
  function Body(s: Text, to: nat): Text
    requires to <= |s|
  {
    if to == 0 then []
    else if PairBefore(s, 0, to) then Body(s, to - 2) + s[to - 2..to]
    else Body(s, to - 1) + Escaped(s[to - 1])
  }

  lemma PairLength(high: Unit, low: Unit)
    requires High(high) && Low(low)
    ensures Utf8Length([high, low]) == 4
  {
    assert PairBefore([high, low], 0, 2);
    assert Utf8Bytes([high, low], 0, 0) == 0;
  }

  /** Putting a text behind one that does not end in the first half of a pair. */
  lemma {:induction false} Utf8After(a: Text, b: Text, k: nat)
    requires k <= |b| && (a == [] || !High(a[|a| - 1]))
    ensures Utf8Bytes(a + b, 0, |a| + k) == Utf8Length(a) + Utf8Bytes(b, 0, k)
    decreases k
  {
    var s := a + b;
    if k == 0 {
      assert s[..|a|] == a;
      Utf8OfPrefix(s, |a|, |a|);
    } else {
      assert s[|a| + k - 1] == b[k - 1];
      if k >= 2 {
        assert s[|a| + k - 2] == b[k - 2];
        Utf8After(a, b, k - 2);
      }
      Utf8After(a, b, k - 1);
    }
  }

  lemma Utf8Behind(a: Text, b: Text)
    requires a == [] || !High(a[|a| - 1])
    ensures Utf8Length(a + b) == Utf8Length(a) + Utf8Length(b)
  {
    Utf8After(a, b, |b|);
  }

  lemma {:induction false} BodyLength(s: Text, to: nat)
    requires to <= |s|
    ensures Utf8Length(Body(s, to)) == Bytes(s, 0, to)
    ensures Body(s, to) == [] || !High(Body(s, to)[|Body(s, to)| - 1])
  {
    hide Utf8Length, Escaped, UnitBytes;
    if to == 0 {
      AsciiLength([], 0);
    } else {
      if PairBefore(s, 0, to) {
        BodyLength(s, to - 2);
        assert s[to - 2..to] == [s[to - 2], s[to - 1]];
        PairLength(s[to - 2], s[to - 1]);
        Utf8Behind(Body(s, to - 2), s[to - 2..to]);
      } else {
        BodyLength(s, to - 1);
        EscapedLength(s[to - 1]);
        Utf8Behind(Body(s, to - 1), Escaped(s[to - 1]));
      }
    }
  }

  function Quoted(s: Text): (t: Text)
    ensures Joinable(t)
  {
    [34] + Body(s, |s|) + [34]
  }

  lemma QuotedLength(s: Text)
    ensures Utf8Length(Quoted(s)) == StringBytes(s)
  {
    BodyLength(s, |s|);
    AsciiLength([34], 1);
    Utf8Joins([34], Body(s, |s|));
    Utf8Joins([34] + Body(s, |s|), [34]);
  }

  // ---------------------------------------------------------------------------------------
  // Values

  /** Numbers are written in ASCII. */
  predicate Numeric(j: Value)
  {
    match j
    case Num(digits) => digits != "" && forall i :: 0 <= i < |digits| ==> digits[i] < 128 as char
    case Arr(items) => forall i :: 0 <= i < |items| ==> Numeric(items[i])
    case Obj(fields) => forall i :: 0 <= i < |fields| ==> Numeric(fields[i].value)
    case _ => true
  }

  /** `JSON.stringify(j)` */
  function Stringified(j: Value): (t: Text)
    requires Numeric(j)
    ensures Joinable(t)
    decreases j, 1
  {
    match j
    case Null => Literal("null")
    case Bool(truth) => if truth then Literal("true") else Literal("false")
    case Num(digits) => Literal(digits)
    case Str(text) => Quoted(text)
    case Arr(items) => [91] + Listed(items) + [93]
    case Obj(fields) => [123] + Fielded(fields) + [125]
  }

  function Listed(items: seq<Value>): (t: Text)
    requires forall i :: 0 <= i < |items| ==> Numeric(items[i])
    ensures items == [] <==> t == []
    ensures t != [] ==> Joinable(t)
    decreases items, 0
  {
    if items == [] then []
    else
      var rest := Listed(items[..|items| - 1]);
      (if rest == [] then [] else rest + [44]) + Stringified(items[|items| - 1])
  }

  function Membered(f: Member): (t: Text)
    requires Numeric(f.value)
    ensures Joinable(t)
    decreases f
  {
    Quoted(f.key) + [58] + Stringified(f.value)
  }

  function Fielded(fields: seq<Member>): (t: Text)
    requires forall i :: 0 <= i < |fields| ==> Numeric(fields[i].value)
    ensures fields == [] <==> t == []
    ensures t != [] ==> Joinable(t)
    decreases fields, 0
  {
    if fields == [] then []
    else
      var rest := Fielded(fields[..|fields| - 1]);
      (if rest == [] then [] else rest + [44]) + Membered(fields[|fields| - 1])
  }

  lemma LiteralLength(s: string)
    requires forall i :: 0 <= i < |s| ==> s[i] < 128 as char
    ensures Utf8Length(Literal(s)) == |s|
  {
    AsciiLength(Literal(s), |s|);
  }

  lemma WordLengths()
    ensures Utf8Length(Literal("null")) == 4 && Utf8Length(Literal("true")) == 4 && Utf8Length(Literal("false")) == 5
  {
    LiteralLength("null");
    LiteralLength("true");
    LiteralLength("false");
  }

  lemma BracketLength(open: Unit, t: Text, close: Unit)
    requires open < 0x80 && close < 0x80
    ensures Utf8Length([open] + t + [close]) == Utf8Length(t) + 2
  {
    AsciiLength([open], 1);
    AsciiLength([close], 1);
    Utf8Joins([open], t);
    Utf8Joins([open] + t, [close]);
  }

  lemma NextLength(rest: Text, last: Text)
    requires Joinable(last) && (rest != [] ==> Joinable(rest))
    ensures Utf8Length((if rest == [] then [] else rest + [44]) + last)
         == Utf8Length(rest) + (if rest == [] then 0 else 1) + Utf8Length(last)
  {
    AsciiLength([44], 1);
    Utf8Joins(rest, [44]);
    Utf8Joins(if rest == [] then [] else rest + [44], last);
  }

  /** The sizes by which everything is bounded are those of the JSON text in UTF-8. */
  lemma {:induction false} StringifiedLength(j: Value)
    requires Numeric(j)
    ensures Utf8Length(Stringified(j)) == JsonBytes(j)
    decreases j, 1
  {
    match j
    case Num(digits) => LiteralLength(digits);
    case Str(text) => QuotedLength(text);
    case Arr(items) =>
      ListedLength(items);
      BracketLength(91, Listed(items), 93);
    case Obj(fields) =>
      FieldedLength(fields);
      BracketLength(123, Fielded(fields), 125);
    case _ => WordLengths();
  }

  lemma {:induction false} ListedLength(items: seq<Value>)
    requires forall i :: 0 <= i < |items| ==> Numeric(items[i])
    ensures Utf8Length(Listed(items)) == ItemBytes(items) + Commas(|items|)
    decreases items, 0
  {
    if items != [] {
      var n := |items| - 1;
      ListedLength(items[..n]);
      StringifiedLength(items[n]);
      NextLength(Listed(items[..n]), Stringified(items[n]));
      hide Utf8Length, Stringified, JsonBytes;
    }
  }

  lemma {:induction false} MemberedLength(f: Member)
    requires Numeric(f.value)
    ensures Utf8Length(Membered(f)) == MemberBytes(f)
    decreases f
  {
    QuotedLength(f.key);
    StringifiedLength(f.value);
    AsciiLength([58], 1);
    Utf8Joins(Quoted(f.key), [58]);
    Utf8Joins(Quoted(f.key) + [58], Stringified(f.value));
    hide Utf8Length, Quoted, Stringified, JsonBytes;
  }

  lemma {:induction false} FieldedLength(fields: seq<Member>)
    requires forall i :: 0 <= i < |fields| ==> Numeric(fields[i].value)
    ensures Utf8Length(Fielded(fields)) == FieldBytes(fields) + Commas(|fields|)
    decreases fields, 0
  {
    if fields != [] {
      var n := |fields| - 1;
      FieldedLength(fields[..n]);
      MemberedLength(fields[n]);
      NextLength(Fielded(fields[..n]), Membered(fields[n]));
      hide Utf8Length, Membered, JsonBytes;
    }
  }
}
