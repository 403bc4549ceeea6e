/** Strings as sequences of UTF-16 code units, and the number of UTF-8 bytes that
    `JSON.stringify` needs for them (RFC 8259 section 7; an unpaired surrogate is written as a
    six-character escape). Stretches of a string are named by their end positions, so that
    sizes of prefixes can be compared without cutting the string. */
module Utf16 {

  type Unit = u: int | 0 <= u < 0x1_0000
  type Text = seq<Unit>

  const NEWLINE: Unit := 10

  /** Text of a literal whose characters all lie in the Basic Multilingual Plane. */
  function Literal(s: string): (t: Text)
    ensures |t| == |s|
  {
    seq(|s|, i requires 0 <= i < |s| => if s[i] as int < 0x1_0000 then s[i] as int else 0xFFFD)
  }

  predicate High(u: Unit) { 0xD800 <= u < 0xDC00 }

  predicate Low(u: Unit) { 0xDC00 <= u < 0xE000 }

  /** Bytes of one code unit that is not half of a surrogate pair. */
  function UnitBytes(u: Unit): (n: nat)
    ensures 1 <= n <= 6
    ensures High(u) || Low(u) ==> n == 6
    ensures n == 1 <==> 0x20 <= u < 0x80 && u != 34 && u != 92
  {
    if u == 34 || u == 92 || u == 8 || u == 9 || u == 10 || u == 12 || u == 13 then 2
    else if u < 0x20 then 6
    else if u < 0x80 then 1
    else if u < 0x800 then 2
    else if High(u) || Low(u) then 6
    else 3
  }

  /** A surrogate pair ends at `to` and lies within the stretch from `from`. */
  predicate PairBefore(s: Text, from: nat, to: nat)
  {
    from + 2 <= to <= |s| && High(s[to - 2]) && Low(s[to - 1])
  }

  /** Escaped bytes of the stretch `from..to`; a surrogate pair takes four. */
  function Bytes(s: Text, from: nat, to: nat): (n: nat)
    requires from <= to <= |s|
  {
    if from == to then 0
    else if PairBefore(s, from, to) then Bytes(s, from, to - 2) + 4
    else Bytes(s, from, to - 1) + UnitBytes(s[to - 1])
  }

  /** `Buffer.byteLength(JSON.stringify(s))`. */
  function StringBytes(s: Text): nat { Bytes(s, 0, |s|) + 2 }

  lemma {:induction false} BytesBounds(s: Text, from: nat, to: nat)
    requires from <= to <= |s|
    ensures to - from <= Bytes(s, from, to) <= 6 * (to - from)
  {
    if from == to {
    } else if PairBefore(s, from, to) {
      BytesBounds(s, from, to - 2);
    } else {
      BytesBounds(s, from, to - 1);
    }
  }

  /** A stretch of a string costs the same inside the string and cut out of it. */
  lemma {:induction false} BytesOfSlice(s: Text, from: nat, to: nat)
    requires from <= to <= |s|
    ensures StringBytes(s[from..to]) == Bytes(s, from, to) + 2
  {
    BytesOfSlicePrefix(s, from, to, to);
  }

  lemma {:induction false} BytesOfSlicePrefix(s: Text, from: nat, end: nat, to: nat)
    requires from <= end <= to <= |s|
    ensures Bytes(s[from..to], 0, end - from) == Bytes(s, from, end)
    decreases end
  {
    var t := s[from..to];
    if from < end {
      assert t[end - from - 1] == s[end - 1];
      if from + 2 <= end {
        assert t[end - from - 2] == s[end - 2];
        BytesOfSlicePrefix(s, from, end - 2, to);
      }
      BytesOfSlicePrefix(s, from, end - 1, to);
    }
  }

  /** A string of printable ASCII without quotes or backslashes is written as it is. */
  predicate Plain(s: Text) { forall i :: 0 <= i < |s| ==> UnitBytes(s[i]) == 1 }

  lemma {:induction false} PlainBytes(s: Text, to: nat)
    requires Plain(s) && to <= |s|
    ensures Bytes(s, 0, to) == to
  {
    if to > 0 {
      PlainBytes(s, to - 1);
    }
  }

  /** Ending a stretch at `m` would cut a surrogate pair in two. */
  predicate Splits(s: Text, from: nat, m: nat)
  {
    from < m < |s| && High(s[m - 1]) && Low(s[m])
  }

  /** The cost of a stretch grows with its end, except that cutting a surrogate pair costs two
      bytes more than keeping it. */
  lemma {:induction false} LongerCostsMore(s: Text, from: nat, a: nat, b: nat)
    requires from <= a < b <= |s|
    ensures Bytes(s, from, b) >= Bytes(s, from, a) + if Splits(s, from, a) then b - a - 3 else b - a
    decreases b
  {
    if PairBefore(s, from, b) {
      if a < b - 2 {
        LongerCostsMore(s, from, a, b - 2);
      } else if a == b - 1 {
        SplitCost(s, from, a);
      }
    } else if a < b - 1 {
      LongerCostsMore(s, from, a, b - 1);
    }
  }

  /** The exact cost around a cut pair: six bytes for the lone half, four for the pair. */
  lemma SplitCost(s: Text, from: nat, m: nat)
    requires Splits(s, from, m)
    ensures Bytes(s, from, m) == Bytes(s, from, m - 1) + 6
    ensures Bytes(s, from, m + 1) == Bytes(s, from, m - 1) + 4
  {
    assert !PairBefore(s, from, m);
    assert PairBefore(s, from, m + 1);
  }

  /** First position of a unit at or after `from`, or the length of the text. */
  function IndexOf(s: Text, u: Unit, from: nat): (i: nat)
    requires from <= |s|
    ensures from <= i <= |s|
    ensures i < |s| ==> s[i] == u
    ensures forall k :: from <= k < i ==> s[k] != u
    decreases |s| - from
  {
    if from == |s| || s[from] == u then from else IndexOf(s, u, from + 1)
  }

  /** Last position of a unit within `from..end`, or the position before `from`. */
  function LastIndexOf(s: Text, u: Unit, from: nat, end: nat): (i: int)
    requires from <= end <= |s|
    ensures from - 1 <= i < end
    ensures i >= from ==> s[i] == u
    ensures forall k :: i < k < end ==> s[k] != u
    decreases end - from
  {
    if end == from then from - 1
    else if s[end - 1] == u then end - 1
    else LastIndexOf(s, u, from, end - 1)
  }

  /** UTF-8 bytes of the stretch `from..end`; an unpaired surrogate becomes U+FFFD. */
  function Utf8Bytes(s: Text, from: nat, end: nat): (n: nat)
    requires from <= end <= |s|
    decreases end - from
  {
    if from == end then 0
    else if PairBefore(s, from, end) then Utf8Bytes(s, from, end - 2) + 4
    else
      var u := s[end - 1];
      Utf8Bytes(s, from, end - 1) + if u < 0x80 then 1 else if u < 0x800 then 2 else 3
  }

  /** `Buffer.byteLength(s)`. */
  function Utf8Length(s: Text): nat { Utf8Bytes(s, 0, |s|) }

  lemma {:induction false} Utf8Shorter(s: Text, a: nat, b: nat)
    requires a <= b <= |s| && !Splits(s, 0, a)
    ensures Utf8Bytes(s, 0, a) <= Utf8Bytes(s, 0, b)
    decreases b
  {
    if a < b {
      if PairBefore(s, 0, b) {
        assert a <= b - 2;
        Utf8Shorter(s, a, b - 2);
      } else {
        Utf8Shorter(s, a, b - 1);
      }
    }
  }

  lemma {:induction false} Utf8OfPrefix(s: Text, m: nat, end: nat)
    requires end <= m <= |s|
    ensures Utf8Bytes(s[..m], 0, end) == Utf8Bytes(s, 0, end)
    decreases end
  {
    if end > 0 {
      if end >= 2 {
        Utf8OfPrefix(s, m, end - 2);
      }
      Utf8OfPrefix(s, m, end - 1);
    }
  }

  /** The longest prefix, not cutting a surrogate pair, that needs at most `max` bytes. */
  function Utf8Fit(s: Text, m: nat, max: nat): (r: nat)
    requires m <= |s|
    ensures r <= m && Utf8Bytes(s, 0, r) <= max
    ensures r > 0 ==> !Splits(s, 0, r)
    ensures forall k :: r < k <= m && !Splits(s, 0, k) ==> Utf8Bytes(s, 0, k) > max
    decreases m
  {
    if m == 0 then 0
    else if !Splits(s, 0, m) && Utf8Bytes(s, 0, m) <= max then m
    else Utf8Fit(s, m - 1, max)
  }

  /** Decoding the bytes of a string replaces its unpaired surrogates. */
  function Decoded(s: Text): (t: Text)
    ensures |t| == |s|
  {
    seq(|s|, i requires 0 <= i < |s| =>
      if (High(s[i]) && !(i + 1 < |s| && Low(s[i + 1]))) || (Low(s[i]) && !(i > 0 && High(s[i - 1])))
      then 0xFFFD else s[i])
  }

  lemma {:induction false} DecodedUtf8(s: Text, end: nat)
    requires end <= |s| && !Splits(s, 0, end)
    ensures Utf8Bytes(Decoded(s), 0, end) == Utf8Bytes(s, 0, end)
    decreases end
  {
    if end > 0 {
      if PairBefore(s, 0, end) {
        DecodedUtf8(s, end - 2);
      } else {
        DecodedUtf8(s, end - 1);
      }
    }
  }

  /** The prefix of a captured text that fits the given number of bytes. */
  function Utf8Prefix(s: Text, max: nat): (t: Text)
    ensures Utf8Length(t) <= max
    ensures Utf8Length(s) <= max ==> t == s
  {
    if Utf8Length(s) <= max then s
    else
      var m := Utf8Fit(s, |s|, max);
      DecodedUtf8(s, m);
      Utf8OfPrefix(Decoded(s), m, m);
      Decoded(s)[..m]
  }

  // ---------------------------------------------------------------------------------------
  // The bytes themselves

  type Byte = b: int | 0 <= b < 256

  /** UTF-8 (RFC 3629 section 3). */
  function Utf8(c: int): seq<Byte>
    requires 0 <= c < 0x11_0000
  {
    if c < 0x80 then [c]
    else if c < 0x800 then [0xC0 + c / 64, 0x80 + c % 64]
    else if c < 0x1_0000 then [0xE0 + c / 4096, 0x80 + c / 64 % 64, 0x80 + c % 64]
    else [0xF0 + c / 0x4_0000, 0x80 + c / 4096 % 64, 0x80 + c / 64 % 64, 0x80 + c % 64]
  }

  /** The bytes of the first `end` units; an unpaired surrogate is written as U+FFFD. */
  function Encoded(s: Text, end: nat): seq<Byte>
    requires end <= |s|
  {
    if end == 0 then []
    else if PairBefore(s, 0, end) then
      Encoded(s, end - 2) + Utf8(0x1_0000 + (s[end - 2] as int - 0xD800) * 0x400 + (s[end - 1] as int - 0xDC00))
    else Encoded(s, end - 1) + Utf8(if 0xD800 <= s[end - 1] < 0xE000 then 0xFFFD else s[end - 1])
  }

  /** The sizes are those of the bytes. */
  lemma {:induction false} EncodedLength(s: Text, end: nat)
    requires end <= |s|
    ensures |Encoded(s, end)| == Utf8Bytes(s, 0, end)
  {
    if end > 0 {
      EncodedLength(s, if PairBefore(s, 0, end) then end - 2 else end - 1);
    }
  }

  /** A half of a pair without its other half. */
  predicate Lone(s: Text, i: nat)
    requires i < |s|
  {
    (0xD800 <= s[i] < 0xDC00 && (i + 1 == |s| || !(0xDC00 <= s[i + 1] < 0xE000)))
    || (0xDC00 <= s[i] < 0xE000 && (i == 0 || !(0xD800 <= s[i - 1] < 0xDC00)))
  }

  /** Decoding the bytes of a string gives a whole one with the same bytes, and the string itself if it
      was whole. */
  lemma DecodedIsWhole(s: Text)
    ensures forall i :: 0 <= i < |s| ==> !Lone(Decoded(s), i)
    ensures Encoded(Decoded(s), |s|) == Encoded(s, |s|)
    ensures (forall i :: 0 <= i < |s| ==> !Lone(s, i)) ==> Decoded(s) == s
  {
    SameBytes(s, |s|);
    hide Encoded;
    DecodedUnits(s);
    hide Decoded, Lone;
  }

  lemma DecodedUnits(s: Text)
    ensures forall i :: 0 <= i < |s| ==> Decoded(s)[i] == if Lone(s, i) then 0xFFFD else s[i]
    ensures forall i :: 0 <= i < |s| ==> !Lone(Decoded(s), i)
  {
  }

  lemma {:induction false} SameBytes(s: Text, end: nat)
    requires end <= |s| && !Splits(s, 0, end)
    ensures Encoded(Decoded(s), end) == Encoded(s, end)
    decreases end
  {
    hide Utf8;
    var t := Decoded(s);
    if end > 0 {
      DecodedUnits(s);
      hide Decoded;
      if PairBefore(s, 0, end) {
        assert !Lone(s, end - 1) && !Lone(s, end - 2);
        SameBytes(s, end - 2);
      } else {
        assert !PairBefore(t, 0, end);
        assert t[end - 1] == if 0xD800 <= s[end - 1] < 0xE000 then 0xFFFD else s[end - 1];
        SameBytes(s, end - 1);
      }
    }
  }

  /** Text in the Basic Multilingual Plane is written unit by unit. */
  lemma LiteralUnits(s: string)
    requires forall i :: 0 <= i < |s| ==> s[i] < 128 as char
    ensures forall i :: 0 <= i < |s| ==> Literal(s)[i] == s[i] as int
  {
  }
}
