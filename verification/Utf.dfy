/** Conversions between UTF-8, UTF-16 and UTF-32, with any room in the target. */
module Utf {

  datatype Result = ConversionOk | SourceExhausted | TargetExhausted | SourceIllegal

  const REPLACEMENT: bv32 := 0xFFFD

  /** A Unicode scalar value: any code point but the surrogates. */
  predicate Scalar(ch: bv32) {
    ch < 0xD800 || 0xDFFF < ch < 0x110000
  }

  /** The first byte of a code point of more than one byte, and the others: each holds six bits. */
  function Lead2(ch: bv32): bv8 {
    (((ch >> 6) | 0xC0) & 0xFF) as bv8
  }

  function Lead3(ch: bv32): bv8 {
    (((ch >> 12) | 0xE0) & 0xFF) as bv8
  }

  function Lead4(ch: bv32): bv8 {
    (((ch >> 18) | 0xF0) & 0xFF) as bv8
  }

  function Tail(ch: bv32): bv8 {
    ((ch | 0x80) & 0xBF) as bv8
  }

  function Tail6(ch: bv32): bv8 {
    (((ch >> 6) | 0x80) & 0xBF) as bv8
  }

  function Tail12(ch: bv32): bv8 {
    (((ch >> 12) | 0x80) & 0xBF) as bv8
  }

  function Byte(ch: bv32): bv8 {
    (ch & 0xFF) as bv8
  }

  /** UTF-8, RFC 3629 section 3. */
  function Encode8(ch: bv32): (r: seq<bv8>)
    ensures |r| <= 4 && (ch < 0x110000 ==> |r| >= 1)
  {
    if ch < 0x80 then [Byte(ch)]
    else if ch < 0x800 then [Lead2(ch), Tail(ch)]
    else if ch < 0x10000 then [Lead3(ch), Tail6(ch), Tail(ch)]
    else if ch < 0x110000 then [Lead4(ch), Tail12(ch), Tail6(ch), Tail(ch)]
    else []
  }

  /** The parts of a code point beyond the first plane, and of a surrogate. */
  function Upper(ch: bv32): bv32 {
    (ch - 0x10000) >> 10
  }

  function Lower(ch: bv32): bv32 {
    (ch - 0x10000) & 0x3FF
  }

  predicate IsHigh(w: bv16) {
    0xD800 <= w <= 0xDBFF
  }

  predicate IsLow(w: bv16) {
    0xDC00 <= w <= 0xDFFF
  }

  function Narrow(ch: bv32): bv16 {
    (ch & 0xFFFF) as bv16
  }

  function Wide(w: bv16): bv32 {
    w as bv32
  }

  function Surrogate(part: bv32, base: bv32): bv16 {
    ((part + base) & 0xFFFF) as bv16
  }

  function PartOf(w: bv16, base: bv32): bv32 {
    (w as bv32) - base
  }

  function Joined(h: bv32, l: bv32): bv32 {
    (h << 10) + l + 0x10000
  }

  lemma Splits(ch: bv32)
    requires 0x10000 <= ch < 0x110000
    ensures Upper(ch) < 0x400 && Lower(ch) < 0x400 && Joined(Upper(ch), Lower(ch)) == ch
  {
    var c := ch - 0x10000;
    assert c < 0x100000;
    assert ((c >> 10) << 10) + (c & 0x3FF) == c;
  }

  lemma Joins(h: bv32, l: bv32)
    requires h < 0x400 && l < 0x400
    ensures 0x10000 <= Joined(h, l) < 0x110000 && Upper(Joined(h, l)) == h && Lower(Joined(h, l)) == l
  {
    JoinBounds(h, l);
  }

  lemma JoinBounds(h: bv32, l: bv32)
    requires h < 0x400 && l < 0x400
    ensures (h << 10) + l < 0x100000 && 0x10000 <= (h << 10) + l + 0x10000 < 0x110000
    ensures (h << 10) + l + 0x10000 - 0x10000 == (h << 10) + l
    ensures ((h << 10) + l) >> 10 == h && ((h << 10) + l) & 0x3FF == l
  {
  }

  lemma SurrogatePart(part: bv32)
    requires part < 0x400
    ensures IsHigh(Surrogate(part, 0xD800)) && PartOf(Surrogate(part, 0xD800), 0xD800) == part
    ensures IsLow(Surrogate(part, 0xDC00)) && PartOf(Surrogate(part, 0xDC00), 0xDC00) == part
  {
  }

  lemma HighPart(w: bv16)
    requires IsHigh(w)
    ensures !IsLow(w) && PartOf(w, 0xD800) < 0x400 && Surrogate(PartOf(w, 0xD800), 0xD800) == w
  {
  }

  lemma LowPart(w: bv16)
    requires IsLow(w)
    ensures !IsHigh(w) && PartOf(w, 0xDC00) < 0x400 && Surrogate(PartOf(w, 0xDC00), 0xDC00) == w
  {
  }

  /** UTF-16, RFC 2781 section 2. */
  function Encode16(ch: bv32): (r: seq<bv16>)
    ensures |r| <= 2 && (ch < 0x110000 ==> |r| >= 1)
  {
    if ch < 0x10000 then [Narrow(ch)]
    else if ch < 0x110000 then [Surrogate(Upper(ch), 0xD800), Surrogate(Lower(ch), 0xDC00)]
    else []
  }

  function Encode32(ch: bv32): (r: seq<bv32>)
    ensures |r| == 1
  {
    [ch]
  }

  /** The encodings of code points one after the other. */
  function All<T>(encode: bv32 -> seq<T>, points: seq<bv32>): seq<T> {
    if points == [] then [] else All(encode, points[..|points| - 1]) + encode(points[|points| - 1])
  }

  ghost predicate At<T>(s: seq<T>, i: nat, w: seq<T>) {
    i + |w| <= |s| && s[i..i + |w|] == w
  }

  /** No scalar value's encoding stands at i. */
  ghost predicate Broken<T>(encode: bv32 -> seq<T>, s: seq<T>, i: nat) {
    forall p | Scalar(p) :: !At(s, i, encode(p))
  }

  lemma AllMore<T>(encode: bv32 -> seq<T>, points: seq<bv32>, p: bv32)
    ensures All(encode, points + [p]) == All(encode, points) + encode(p)
  {
    assert (points + [p])[..|points|] == points;
  }

  /** Point k of a text stands after the ones before it. */
  lemma {:induction false} AllAt<T>(encode: bv32 -> seq<T>, points: seq<bv32>, k: nat)
    requires k < |points|
    ensures At(All(encode, points), |All(encode, points[..k])|, encode(points[k]))
    decreases |points|
  {
    var n := |points| - 1;
    if k < n {
      AllAt(encode, points[..n], k);
      assert points[..n][..k] == points[..k];
      var a := All(encode, points[..n]);
      var i := |All(encode, points[..k])|;
      assert (a + encode(points[n]))[i..i + |encode(points[k])|] == a[i..i + |encode(points[k])|];
    }
  }

  /** The next code point of a source. */
  datatype Step = Point(ch: bv32, size: nat) | Illegal | Exhausted

  function Step16(source: seq<bv16>, i: nat, strict: bool): (r: Step)
    ensures r.Point? ==> 1 <= r.size <= 2 && i + r.size <= |source|
  {
    if i >= |source| then Exhausted
    else if IsHigh(source[i]) then
      if i + 1 < |source| then
        if IsLow(source[i + 1]) then Point(Joined(PartOf(source[i], 0xD800), PartOf(source[i + 1], 0xDC00)), 2)
        else if strict then Illegal
        else Point(Wide(source[i]), 1)
      else Exhausted
    else if strict && IsLow(source[i]) then Illegal
    else Point(Wide(source[i]), 1)
  }

  /** A surrogate pair stands for a code point beyond the first plane, and is its encoding. */
  lemma PairJoins(high: bv16, low: bv16)
    requires IsHigh(high) && IsLow(low)
    ensures var ch := Joined(PartOf(high, 0xD800), PartOf(low, 0xDC00));
      0x10000 <= ch < 0x110000 && Scalar(ch) && Encode16(ch) == [high, low]
  {
    HighPart(high);
    LowPart(low);
    Joins(PartOf(high, 0xD800), PartOf(low, 0xDC00));
    hide Joined, PartOf, Surrogate, Upper, Lower, IsHigh, IsLow, Narrow;
  }

  lemma WordPoint(w: bv16)
    ensures Wide(w) < 0x10000 && Narrow(Wide(w)) == w
    ensures Scalar(Wide(w)) <==> !IsHigh(w) && !IsLow(w)
  {
  }

  lemma PointWord(ch: bv32)
    requires ch < 0x10000
    ensures Wide(Narrow(ch)) == ch
    ensures Scalar(ch) <==> !IsHigh(Narrow(ch)) && !IsLow(Narrow(ch))
  {
  }

  /** In strict mode what is read is a scalar value, and its encoding stands there. */
  lemma StepSound(source: seq<bv16>, i: nat)
    requires i < |source| && Step16(source, i, true).Point?
    ensures var r := Step16(source, i, true); Scalar(r.ch) && r.size == |Encode16(r.ch)| && At(source, i, Encode16(r.ch))
  {
    hide Joined, PartOf, Surrogate, Upper, Lower, IsHigh, IsLow, Narrow, Wide, Scalar;
    if IsHigh(source[i]) {
      PairJoins(source[i], source[i + 1]);
      assert source[i..i + 2] == [source[i], source[i + 1]];
    } else {
      WordPoint(source[i]);
      assert source[i..i + 1] == [source[i]];
    }
  }

  /** And every encoded scalar value is read. */
  lemma StepComplete(source: seq<bv16>, i: nat, p: bv32, strict: bool)
    requires Scalar(p) && At(source, i, Encode16(p))
    ensures i < |source| && Step16(source, i, strict) == Point(p, |Encode16(p)|)
  {
    ScalarBound(p);
    hide Joined, PartOf, Surrogate, Upper, Lower, IsHigh, IsLow, Narrow, Wide, Scalar;
    assert source[i] == source[i..i + |Encode16(p)|][0];
    if p < 0x10000 {
      PointWord(p);
    } else {
      assert source[i + 1] == source[i..i + 2][1];
      Splits(p);
      SurrogatePart(Upper(p));
      SurrogatePart(Lower(p));
    }
  }

  lemma ScalarBound(p: bv32)
    requires Scalar(p)
    ensures p < 0x110000
  {
  }

  /** How many bytes follow a first byte, by the table of the converter. */
  function Trailing(b: bv8): (r: nat)
    ensures r <= 5
  {
    if b < 0xC0 then 0 else if b < 0xE0 then 1 else if b < 0xF0 then 2 else if b < 0xF8 then 3 else if b < 0xFC then 4 else 5
  }

  predicate FirstOk(b: bv8) {
    !(0x80 <= b < 0xC2) && b <= 0xF4
  }

  predicate SecondOk(b: bv8, a: bv8) {
    && a <= 0xBF
    && (if b == 0xE0 then a >= 0xA0 else if b == 0xED then a <= 0x9F else if b == 0xF0 then a >= 0x90
        else if b == 0xF4 then a <= 0x8F else a >= 0x80)
  }

  predicate TailOk(a: bv8) {
    0x80 <= a <= 0xBF
  }

  /** isLegalUTF8. Behind 0xED and 0xF4 it sets no lower bound for the second byte. */
  predicate IsLegal(source: seq<bv8>, i: nat, length: nat)
    requires 0 < length && i + length <= |source|
  {
    && length <= 4
    && (length >= 4 ==> TailOk(source[i + 3]))
    && (length >= 3 ==> TailOk(source[i + 2]))
    && (length >= 2 ==> SecondOk(source[i], source[i + 1]))
    && FirstOk(source[i])
  }

  function Offset(extra: nat): bv32 {
    if extra == 0 then 0 else if extra == 1 then 0x3080 else if extra == 2 then 0xE2080 else if extra == 3 then 0x3C82080
    else if extra == 4 then 0xFA082080 else 0x82082080
  }

  function Value(gathered: bv32, extra: nat): bv32 {
    gathered - Offset(extra)
  }

  function Wide8(b: bv8): bv32 {
    b as bv32
  }

  /** One more byte on a code point. */
  function Shifted(ch: bv32, b: bv8): bv32 {
    (ch << 6) + (b as bv32)
  }

  /** The bytes of a sequence, shifted together. */
  function Gather(source: seq<bv8>, i: nat, length: nat): bv32
    requires 0 < length && i + length <= |source|
  {
    if length == 1 then Wide8(source[i]) else Shifted(Gather(source, i, length - 1), source[i + length - 1])
  }

  function Step8(source: seq<bv8>, i: nat): (r: Step)
    ensures r.Point? ==> 1 <= r.size <= 4 && i + r.size <= |source|
  {
    if i >= |source| then Exhausted
    else
      var extra := Trailing(source[i]);
      if i + extra >= |source| then Exhausted
      else if !IsLegal(source, i, extra + 1) then Illegal
      else Point(Value(Gather(source, i, extra + 1), extra), extra + 1)
  }

  lemma OneByte(ch: bv32)
    requires ch < 0x80
    ensures Trailing(Byte(ch)) == 0 && FirstOk(Byte(ch)) && Value(Wide8(Byte(ch)), 0) == ch
  {
  }

  lemma TwoBytes(ch: bv32)
    requires 0x80 <= ch < 0x800
    ensures var b, a := Lead2(ch), Tail(ch);
      Trailing(b) == 1 && FirstOk(b) && SecondOk(b, a) && Value(Shifted(Wide8(b), a), 1) == ch
  {
  }

  lemma ThreeBytesLegal(ch: bv32)
    requires 0x800 <= ch < 0x10000 && Scalar(ch)
    ensures Trailing(Lead3(ch)) == 2 && FirstOk(Lead3(ch)) && TailOk(Tail(ch))
    ensures SecondOk(Lead3(ch), Tail6(ch))
  {
  }

  lemma ThreeBytes(ch: bv32)
    requires 0x800 <= ch < 0x10000
    ensures Value(Shifted(Shifted(Wide8(Lead3(ch)), Tail6(ch)), Tail(ch)), 2) == ch
  {
  }

  lemma FourBytesLegal(ch: bv32)
    requires 0x10000 <= ch < 0x110000
    ensures Trailing(Lead4(ch)) == 3 && FirstOk(Lead4(ch)) && TailOk(Tail6(ch)) && TailOk(Tail(ch))
    ensures SecondOk(Lead4(ch), Tail12(ch))
  {
  }

  lemma FourBytes(ch: bv32)
    requires 0x10000 <= ch < 0x110000
    ensures Value(Shifted(Shifted(Shifted(Wide8(Lead4(ch)), Tail12(ch)), Tail6(ch)), Tail(ch)), 3) == ch
  {
  }

  lemma Sequence1(source: seq<bv8>, i: nat, b: bv8, p: bv32)
    requires At(source, i, [b]) && Trailing(b) == 0 && FirstOk(b)
    requires Value(Wide8(b), 0) == p
    ensures i < |source| && IsLegal(source, i, 1) && Step8(source, i) == Point(p, 1)
  {
    SameBytes(source, i, [b]);
    hide At, Trailing, FirstOk, SecondOk, TailOk, Shifted, Value, Wide8;
    assert Gather(source, i, 1) == Wide8(source[i]);
  }

  lemma Sequence2(source: seq<bv8>, i: nat, b: bv8, a: bv8, p: bv32)
    requires At(source, i, [b, a]) && Trailing(b) == 1 && FirstOk(b) && SecondOk(b, a)
    requires Value(Shifted(Wide8(b), a), 1) == p
    ensures i < |source| && IsLegal(source, i, 2) && Step8(source, i) == Point(p, 2)
  {
    SameBytes(source, i, [b, a]);
    hide At, Trailing, FirstOk, SecondOk, TailOk, Shifted, Value, Wide8;
    assert Gather(source, i, 1) == Wide8(source[i]);
    assert Gather(source, i, 2) == Shifted(Gather(source, i, 1), source[i + 1]);
  }

  lemma Sequence3(source: seq<bv8>, i: nat, b: bv8, a: bv8, c: bv8, p: bv32)
    requires At(source, i, [b, a, c]) && Trailing(b) == 2 && FirstOk(b) && SecondOk(b, a) && TailOk(c)
    requires Value(Shifted(Shifted(Wide8(b), a), c), 2) == p
    ensures i < |source| && IsLegal(source, i, 3) && Step8(source, i) == Point(p, 3)
  {
    SameBytes(source, i, [b, a, c]);
    hide At, Trailing, FirstOk, SecondOk, TailOk, Shifted, Value, Wide8;
    assert Gather(source, i, 1) == Wide8(source[i]);
    assert Gather(source, i, 2) == Shifted(Gather(source, i, 1), source[i + 1]);
    assert Gather(source, i, 3) == Shifted(Gather(source, i, 2), source[i + 2]);
  }

  lemma Sequence4(source: seq<bv8>, i: nat, b: bv8, a: bv8, c: bv8, d: bv8, p: bv32)
    requires At(source, i, [b, a, c, d]) && Trailing(b) == 3 && FirstOk(b) && SecondOk(b, a) && TailOk(c) && TailOk(d)
    requires Value(Shifted(Shifted(Shifted(Wide8(b), a), c), d), 3) == p
    ensures i < |source| && IsLegal(source, i, 4) && Step8(source, i) == Point(p, 4)
  {
    SameBytes(source, i, [b, a, c, d]);
    hide At, Trailing, FirstOk, SecondOk, TailOk, Shifted, Value, Wide8;
    assert Gather(source, i, 1) == Wide8(source[i]);
    assert Gather(source, i, 2) == Shifted(Gather(source, i, 1), source[i + 1]);
    assert Gather(source, i, 3) == Shifted(Gather(source, i, 2), source[i + 2]);
    assert Gather(source, i, 4) == Shifted(Gather(source, i, 3), source[i + 3]);
  }

  /** Every encoded scalar value is legal and read. */
  lemma Step8Complete(source: seq<bv8>, i: nat, p: bv32)
    requires Scalar(p) && At(source, i, Encode8(p))
    ensures i < |source| && |Encode8(p)| > 0 && i + |Encode8(p)| <= |source| && IsLegal(source, i, |Encode8(p)|)
    ensures Step8(source, i) == Point(p, |Encode8(p)|)
  {
    ScalarBound(p);
    if p < 0x80 {
      OneByte(p);
      hide *;
      Sequence1(source, i, Byte(p), p);
    } else if p < 0x800 {
      TwoBytes(p);
      hide *;
      Sequence2(source, i, Lead2(p), Tail(p), p);
    } else if p < 0x10000 {
      ThreeBytes(p);
      ThreeBytesLegal(p);
      hide *;
      Sequence3(source, i, Lead3(p), Tail6(p), Tail(p), p);
    } else {
      FourBytes(p);
      FourBytesLegal(p);
      hide *;
      Sequence4(source, i, Lead4(p), Tail12(p), Tail6(p), Tail(p), p);
    }
  }

  lemma SameBytes(source: seq<bv8>, i: nat, w: seq<bv8>)
    requires At(source, i, w)
    ensures |w| > 0 ==> source[i] == w[0]
    ensures |w| > 1 ==> source[i + 1] == w[1]
    ensures |w| > 2 ==> source[i + 2] == w[2]
    ensures |w| > 3 ==> source[i + 3] == w[3]
  {
    var t := source[i..i + |w|];
    assert |w| > 0 ==> t[0] == source[i];
    assert |w| > 1 ==> t[1] == source[i + 1];
    assert |w| > 2 ==> t[2] == source[i + 2];
    assert |w| > 3 ==> t[3] == source[i + 3];
  }

  function Mark(n: nat): bv32 {
    if n <= 1 then 0 else if n == 2 then 0xC0 else if n == 3 then 0xE0 else 0xF0
  }

  function First(ch: bv32, n: nat): bv8 {
    ((ch | Mark(n)) & 0xFF) as bv8
  }

  function Rest(ch: bv32): bv32 {
    ch >> 6
  }

  lemma TailsShift(ch: bv32)
    ensures Tail(Rest(ch)) == Tail6(ch) && Tail(Rest(Rest(ch))) == Tail12(ch)
  {
  }

  lemma FirstShifts(ch: bv32)
    ensures First(ch, 1) == Byte(ch) && First(Rest(ch), 2) == Lead2(ch)
  {
  }

  lemma FirstShiftsTwice(ch: bv32)
    ensures First(Rest(Rest(ch)), 3) == Lead3(ch)
  {
    assert ch >> 6 >> 6 == ch >> 12;
  }

  lemma FirstShiftsThrice(ch: bv32)
    ensures First(Rest(Rest(Rest(ch))), 4) == Lead4(ch)
  {
    assert ch >> 6 >> 6 >> 6 == ch >> 18;
  }

  /** The bytes of a code point from the lowest six bits up. */
  lemma BytesOf(ch: bv32)
    requires ch < 0x110000
    ensures var n := |Encode8(ch)|;
      && 1 <= n <= 4
      && (n == 1 ==> Encode8(ch) == [First(ch, 1)])
      && (n == 2 ==> Encode8(ch) == [First(Rest(ch), 2), Tail(ch)])
      && (n == 3 ==> Encode8(ch) == [First(Rest(Rest(ch)), 3), Tail(Rest(ch)), Tail(ch)])
      && (n == 4 ==> Encode8(ch) == [First(Rest(Rest(Rest(ch))), 4), Tail(Rest(Rest(ch))), Tail(Rest(ch)), Tail(ch)])
  {
    TailsShift(ch);
    FirstShifts(ch);
    FirstShiftsTwice(ch);
    FirstShiftsThrice(ch);
    hide Tail, Tail6, Tail12, Lead2, Lead3, Lead4, First, Byte, Rest;
  }

  method PutByte(target: array<bv8>, p: nat, b: bv8)
    requires p < target.Length
    modifies target
    ensures target[..] == old(target[..])[p := b]
  {
    target[p] := b;
  }

  /** Four bytes put one below the other stand in order. */
  lemma Stacked(was: seq<bv8>, at: nat, w: seq<bv8>)
    requires 1 <= |w| <= 4 && at + |w| <= |was|
    ensures var n := |w|;
      var s4 := if n >= 4 then was[at + n - 1 := w[n - 1]] else was;
      var s3 := if n >= 3 then s4[at + 2 := w[2]] else s4;
      var s2 := if n >= 2 then s3[at + 1 := w[1]] else s3;
      Placed(was, s2[at := w[0]], at, w)
  {
  }

  /** The words w were written at a place, and nothing else. */
  ghost predicate Placed<T>(was: seq<T>, now: seq<T>, at: nat, w: seq<T>) {
    && |now| == |was| && at + |w| <= |was|
    && (forall k | 0 <= k < |w| :: now[at + k] == w[k])
    && forall k | 0 <= k < |was| && !(at <= k < at + |w|) :: now[k] == was[k]
  }

  /** Writes the bytes of a code point, the last one first. */
  method Write8(target: array<bv8>, at: nat, ch: bv32, n: nat)
    requires ch < 0x110000 && n == |Encode8(ch)| && at + n <= target.Length
    modifies target
    ensures Placed(old(target[..]), target[..], at, Encode8(ch))
  {
    BytesOf(ch);
    hide *;
    Stacked(target[..], at, Encode8(ch));
    var c := ch;
    if n >= 4 { PutByte(target, at + 3, Tail(c)); c := Rest(c); }
    if n >= 3 { PutByte(target, at + 2, Tail(c)); c := Rest(c); }
    if n >= 2 { PutByte(target, at + 1, Tail(c)); c := Rest(c); }
    PutByte(target, at, First(c, n));
  }

  /** What a conversion has written so far. */
  ghost predicate Output<T>(encode: bv32 -> seq<T>, points: seq<bv32>, target: seq<T>, was: seq<T>, written: nat) {
    |target| == |was| && written <= |target| && target[..written] == All(encode, points) && target[written..] == was[written..]
  }

  predicate AllScalar(points: seq<bv32>) {
    forall p | p in points :: Scalar(p)
  }

  function Strict16(source: seq<bv16>, i: nat): Step {
    Step16(source, i, true)
  }

  function Lenient16(source: seq<bv16>, i: nat): Step {
    Step16(source, i, false)
  }

  /** How UTF-16 is read. */
  function Reading16(strict: bool): (seq<bv16>, nat) -> Step {
    if strict then Strict16 else Lenient16
  }

  /** The code points are what is read from the start of the source up to n. */
  ghost predicate Reads<S>(step: (seq<S>, nat) -> Step, source: seq<S>, n: nat, points: seq<bv32>)
    decreases |points|
  {
    if points == [] then n == 0
    else
      var last := |points| - 1;
      n <= |source| && exists m: nat :: m < n && Reads(step, source, m, points[..last]) && step(source, m) == Point(points[last], n - m)
  }

  lemma ReadsNone<S>(step: (seq<S>, nat) -> Step, source: seq<S>)
    ensures Reads(step, source, 0, [])
  {
  }

  lemma ReadsMore<S>(step: (seq<S>, nat) -> Step, source: seq<S>, n: nat, points: seq<bv32>, ch: bv32, size: nat)
    requires Reads(step, source, n, points) && step(source, n) == Point(ch, size) && 0 < size && n + size <= |source|
    ensures Reads(step, source, n + size, points + [ch])
  {
    assert (points + [ch])[..|points|] == points;
  }

  /** The last point was read from where the others end. */
  lemma ReadsLast<S>(step: (seq<S>, nat) -> Step, source: seq<S>, n: nat, points: seq<bv32>) returns (m: nat, before: seq<bv32>, ch: bv32)
    requires Reads(step, source, n, points) && points != []
    ensures points == before + [ch] && |before| < |points|
    ensures m < n <= |source| && Reads(step, source, m, before) && step(source, m) == Point(ch, n - m)
  {
    var last := |points| - 1;
    before, ch := points[..last], points[last];
    m :| m < n && Reads(step, source, m, points[..last]) && step(source, m) == Point(points[last], n - m);
  }

  /** The place where point k was read. */
  lemma {:induction false} ReadsAt<S>(step: (seq<S>, nat) -> Step, source: seq<S>, n: nat, points: seq<bv32>, k: nat) returns (m: nat)
    requires Reads(step, source, n, points) && k <= |points|
    ensures m <= n && Reads(step, source, m, points[..k])
    ensures k < |points| ==> m < n <= |source| && step(source, m).Point? && step(source, m).ch == points[k]
    decreases |points|
  {
    if k == |points| {
      assert points[..k] == points;
      m := n;
    } else {
      var last := |points| - 1;
      var l: nat :| l < n && Reads(step, source, l, points[..last]) && step(source, l) == Point(points[last], n - l);
      if k == last {
        m := l;
      } else {
        m := ReadsAt(step, source, l, points[..last], k);
        assert points[..last][..k] == points[..k];
      }
    }
  }

  lemma {:induction false} ReadsSame<S>(step: (seq<S>, nat) -> Step, source: seq<S>, n: nat, n': nat, points: seq<bv32>)
    requires Reads(step, source, n, points) && Reads(step, source, n', points)
    ensures n == n'
    decreases |points|
  {
    if points != [] {
      var last := |points| - 1;
      var m: nat :| m < n && Reads(step, source, m, points[..last]) && step(source, m) == Point(points[last], n - m);
      var m': nat :| m' < n' && Reads(step, source, m', points[..last]) && step(source, m') == Point(points[last], n' - m');
      ReadsSame(step, source, m, m', points[..last]);
    }
  }

  /** Of two readings of a source the shorter is the start of the longer. */
  lemma {:induction false} ReadsAgree<S>(step: (seq<S>, nat) -> Step, source: seq<S>, n: nat, points: seq<bv32>, n': nat, points': seq<bv32>)
    requires Reads(step, source, n, points) && Reads(step, source, n', points') && |points| <= |points'|
    ensures points <= points'
    decreases |points|
  {
    if points != [] {
      var last := |points| - 1;
      var m: nat :| m < n && Reads(step, source, m, points[..last]) && step(source, m) == Point(points[last], n - m);
      ReadsAgree(step, source, m, points[..last], n', points');
      var m' := ReadsAt(step, source, n', points', last);
      assert points'[..last] == points[..last];
      ReadsSame(step, source, m, m', points[..last]);
      assert points == points[..last] + [points[last]];
    }
  }

  /** Every encoded scalar value is read. */
  ghost predicate Complete<S(!new)>(read: bv32 -> seq<S>, step: (seq<S>, nat) -> Step) {
    forall source: seq<S>, i: nat, p | Scalar(p) && At(source, i, read(p)) :: step(source, i) == Point(p, |read(p)|) && |read(p)| > 0
  }

  lemma Complete8()
    ensures Complete(Encode8, Step8)
  {
    hide Scalar, At, Encode8, Step8;
    forall source: seq<bv8>, i: nat, p | Scalar(p) && At(source, i, Encode8(p))
      ensures Step8(source, i) == Point(p, |Encode8(p)|) && |Encode8(p)| > 0
    {
      hide IsLegal;
      Step8Complete(source, i, p);
    }
  }

  lemma Complete16()
    ensures Complete(Encode16, Strict16) && Complete(Encode16, Lenient16)
  {
    hide Scalar, At, Encode16, Step16;
    forall source: seq<bv16>, i: nat, p | Scalar(p) && At(source, i, Encode16(p))
      ensures Strict16(source, i) == Point(p, |Encode16(p)|) && |Encode16(p)| > 0
    {
      ScalarEncodes(p);
      StepComplete(source, i, p, true);
    }
    forall source: seq<bv16>, i: nat, p | Scalar(p) && At(source, i, Encode16(p))
      ensures Lenient16(source, i) == Point(p, |Encode16(p)|) && |Encode16(p)| > 0
    {
      ScalarEncodes(p);
      StepComplete(source, i, p, false);
    }
  }

  lemma ScalarEncodes(p: bv32)
    requires Scalar(p)
    ensures |Encode16(p)| > 0 && |Encode8(p)| > 0
  {
  }

  lemma AllComplete()
    ensures Complete(Encode8, Step8) && Complete(Encode16, Strict16) && Complete(Encode16, Lenient16)
  {
    Complete8();
    Complete16();
  }

  /** A text at the start of the source is read as it was encoded. */
  lemma {:induction false} GivenReads<S(!new)>(read: bv32 -> seq<S>, step: (seq<S>, nat) -> Step, source: seq<S>, given: seq<bv32>)
    requires Complete(read, step) && AllScalar(given) && All(read, given) <= source
    ensures Reads(step, source, |All(read, given)|, given)
    decreases |given|
  {
    if given != [] {
      var last := |given| - 1;
      var a, b := All(read, given[..last]), read(given[last]);
      assert a + b <= source;
      PrefixParts(a, b, source);
      assert Scalar(given[last]);
      GivenReads(read, step, source, given[..last]);
      hide Scalar;
      ReadsMore(step, source, |a|, given[..last], given[last], |b|);
      assert given[..last] + [given[last]] == given;
    }
  }

  lemma PrefixParts<S>(a: seq<S>, b: seq<S>, source: seq<S>)
    requires a + b <= source
    ensures a <= source && At(source, |a|, b) && |a| + |b| <= |source|
  {
    assert (a + b)[..|a|] == a && (a + b)[|a|..] == b;
    assert source[..|a| + |b|] == a + b;
    assert source[|a|..|a| + |b|] == source[..|a| + |b|][|a|..];
    assert source[..|a|] == source[..|a| + |b|][..|a|];
  }

  /** Where and why a conversion stopped. */
  ghost predicate Ended<S, T>(step: (seq<S>, nat) -> Step, write: bv32 -> seq<T>, source: seq<S>, consumed: nat, written: nat,
                              room: nat, result: Result)
  {
    && consumed <= |source| && written <= room
    && match result
       case ConversionOk => consumed == |source|
       case SourceIllegal => consumed < |source| && step(source, consumed) == Illegal
       case SourceExhausted => consumed < |source| && step(source, consumed) == Exhausted
       case TargetExhausted =>
         consumed < |source| && step(source, consumed).Point? && written + |write(step(source, consumed).ch)| > room
  }

  /** How far a conversion got on a source that starts with the text `given`: it read all of that text and went on, or
      stopped before one of its code points that did not fit. If there is nothing behind the text, that is all it read. */
  ghost predicate Converted<S, T>(read: bv32 -> seq<S>, write: bv32 -> seq<T>, source: seq<S>, given: seq<bv32>, points: seq<bv32>,
                                  result: Result, consumed: nat, written: nat, room: nat)
  {
    AllScalar(given) && All(read, given) <= source ==>
      if |given| <= |points| then
        && given <= points && |All(read, given)| <= consumed
        && (All(read, given) == source ==> points == given && result == ConversionOk && consumed == |source|)
      else
        points <= given && consumed == |All(read, points)| && result == TargetExhausted && written + |write(given[|points|])| > room
  }

  lemma IsConverted<S(!new), T>(read: bv32 -> seq<S>, step: (seq<S>, nat) -> Step, write: bv32 -> seq<T>, source: seq<S>, given: seq<bv32>,
                          points: seq<bv32>, result: Result, consumed: nat, written: nat, room: nat)
    requires Complete(read, step) && Reads(step, source, consumed, points)
    requires Ended(step, write, source, consumed, written, room, result)
    ensures Converted(read, write, source, given, points, result, consumed, written, room)
  {
    if AllScalar(given) && All(read, given) <= source {
      GivenReads(read, step, source, given);
      var n := |All(read, given)|;
      hide Complete, All, AllScalar;
      if |given| <= |points| {
        ReadsAgree(step, source, n, given, consumed, points);
        var m := ReadsAt(step, source, consumed, points, |given|);
        assert points[..|given|] == given;
        ReadsSame(step, source, n, m, given);
        if |given| == |points| { assert points == given; }
      } else {
        ReadsAgree(step, source, consumed, points, n, given);
        var m := ReadsAt(step, source, n, given, |points|);
        assert given[..|points|] == points;
        ReadsSame(step, source, consumed, m, points);
        GivenStart(read, step, source, given, points, consumed);
      }
    }
  }

  lemma GivenStart<S(!new)>(read: bv32 -> seq<S>, step: (seq<S>, nat) -> Step, source: seq<S>, given: seq<bv32>, points: seq<bv32>, consumed: nat)
    requires Complete(read, step) && AllScalar(given) && All(read, given) <= source && points <= given
    requires Reads(step, source, consumed, points)
    ensures consumed == |All(read, points)|
  {
    var rest := given[|points|..];
    assert given == points + rest;
    AllSplits(read, points, rest);
    PrefixParts(All(read, points), All(read, rest), source);
    GivenReads(read, step, source, points);
    ReadsSame(step, source, consumed, |All(read, points)|, points);
  }

  lemma {:induction false} AllSplits<T>(encode: bv32 -> seq<T>, a: seq<bv32>, b: seq<bv32>)
    ensures All(encode, a + b) == All(encode, a) + All(encode, b)
  {
    if b == [] {
      assert a + b == a;
    } else {
      assert (a + b)[..|a + b| - 1] == a + b[..|b| - 1];
      AllSplits(encode, a, b[..|b| - 1]);
    }
  }

  lemma OutputMore<T>(encode: bv32 -> seq<T>, points: seq<bv32>, target: seq<T>, target': seq<T>, was: seq<T>, written: nat, p: bv32)
    requires Output(encode, points, target, was, written) && Placed(target, target', written, encode(p))
    ensures Output(encode, points + [p], target', was, written + |encode(p)|)
  {
    AllMore(encode, points, p);
    hide All;
    var n := written + |encode(p)|;
    assert target'[..written] == target[..written];
    assert target'[written..n] == encode(p);
    assert target'[..n] == target'[..written] + target'[written..n];
    assert target[n..] == target[written..][n - written..] && was[n..] == was[written..][n - written..];
    assert target'[n..] == target[n..];
  }

  function BytesFor(ch: bv32): nat {
    if ch < 0x80 then 1 else if ch < 0x800 then 2 else if ch < 0x10000 then 3 else if ch < 0x110000 then 4 else 3
  }

  /** What is written for a code point: the replacement character for one that is too large. */
  function Clean(ch: bv32): bv32 {
    if ch < 0x110000 then ch else REPLACEMENT
  }

  lemma BytesForIs(ch: bv32)
    ensures Clean(ch) < 0x110000 && |Encode8(Clean(ch))| == BytesFor(ch) <= 4
    ensures Scalar(ch) ==> Clean(ch) == ch
  {
  }

  /** Reads the next code point of UTF-16. */
  method Read16(source: seq<bv16>, i: nat, strict: bool) returns (step: Step)
    requires i < |source|
    ensures step == Step16(source, i, strict)
  {
    var ch := Wide(source[i]);
    var size := 1;
    if IsHigh(source[i]) {
      if i + 1 < |source| {
        if IsLow(source[i + 1]) {
          ch := Joined(PartOf(source[i], 0xD800), PartOf(source[i + 1], 0xDC00));
          size := 2;
        } else if strict {
          return Illegal;
        }
      } else {
        return Exhausted;
      }
    } else if strict {
      if IsLow(source[i]) { return Illegal; }
    }
    step := Point(ch, size);
  }

  lemma NothingRead(source: seq<bv16>)
    ensures AllScalar([]) && All(Encode16, []) == [] == source[..0]
  {
  }

  lemma StrictStep(source: seq<bv16>, i: nat)
    requires Strict16(source, i).Point?
    ensures var r := Strict16(source, i);
      Scalar(r.ch) && r.size == |Encode16(r.ch)| && i + r.size <= |source| && source[i..i + r.size] == Encode16(r.ch)
  {
    hide Scalar, Encode16;
    StepSound(source, i);
  }

  lemma ScalarsMore(points: seq<bv32>, ch: bv32)
    requires AllScalar(points) && Scalar(ch)
    ensures AllScalar(points + [ch])
  {
  }

  /** In strict mode the source read so far is the encoding of the code points. */
  lemma {:induction false} StrictSound(source: seq<bv16>, n: nat, points: seq<bv32>)
    requires Reads(Strict16, source, n, points) && n <= |source|
    ensures AllScalar(points) && source[..n] == All(Encode16, points)
    decreases |points|
  {
    if points != [] {
      hide *;
      var m, before, ch := ReadsLast(Strict16, source, n, points);
      StrictSound(source, m, before);
      StrictStep(source, m);
      AllMore(Encode16, before, ch);
      ScalarsMore(before, ch);
      assert source[..n] == source[..m] + source[m..n];
    } else {
      NothingRead(source);
    }
  }

  /** One more code point read and written. */
  lemma Advance<S, T>(step: (seq<S>, nat) -> Step, source: seq<S>, points: seq<bv32>, consumed: nat, ch: bv32, size: nat,
                      write: bv32 -> seq<T>, target: seq<T>, target': seq<T>, was: seq<T>, written: nat)
    requires Reads(step, source, consumed, points) && step(source, consumed) == Point(ch, size) && 0 < size && consumed + size <= |source|
    requires Output(write, points, target, was, written) && Placed(target, target', written, write(ch))
    ensures Reads(step, source, consumed + size, points + [ch])
    ensures Output(write, points + [ch], target', was, written + |write(ch)|)
  {
    hide *;
    OutputMore(write, points, target, target', was, written, ch);
    ReadsMore(step, source, consumed, points, ch, size);
  }

  lemma OutputNone<T>(write: bv32 -> seq<T>, target: seq<T>)
    ensures Output(write, [], target, target, 0)
  {
  }

  method ConvertUTF16toUTF8(source: seq<bv16>, target: array<bv8>, strict: bool)
    returns (result: Result, consumed: nat, written: nat, ghost points: seq<bv32>)
    modifies target
    ensures Reads(Reading16(strict), source, consumed, points) && Output(Encode8, points, target[..], old(target[..]), written)
    ensures Ended(Reading16(strict), Encode8, source, consumed, written, target.Length, result) && consumed <= |source|
    ensures strict ==> AllScalar(points) && source[..consumed] == All(Encode16, points)
    ensures strict && (result == SourceIllegal || result == SourceExhausted) ==> Broken(Encode16, source, consumed)
    ensures forall given :: Converted(Encode16, Encode8, source, given, points, result, consumed, written, target.Length)
  {
    hide *;
    result, consumed, written, points := ConversionOk, 0, 0, [];
    ghost var reading := Reading16(strict);
    ReadsNone(reading, source);
    OutputNone(Encode8, target[..]);
    while consumed < |source|
      invariant Reads(reading, source, consumed, points) && consumed <= |source|
      invariant Output(Encode8, points, target[..], old(target[..]), written) && written <= target.Length
      invariant result == ConversionOk
      decreases |source| - consumed
    {
      var step := Read16(source, consumed, strict);
      StepKinds(source, consumed, strict);
      if step.Illegal? || step.Exhausted? {
        result := if step.Illegal? then SourceIllegal else SourceExhausted;
        break;
      }
      var ch, size := step.ch, step.size;
      var bytesToWrite := BytesFor(ch);
      BytesForIs(ch);
      if written + bytesToWrite > target.Length {
        result := TargetExhausted;
        break;
      }
      ghost var was := target[..];
      Write8(target, written, Clean(ch), bytesToWrite);
      Advance(reading, source, points, consumed, ch, size, Encode8, was, target[..], old(target[..]), written);
      points := points + [ch];
      consumed := consumed + size;
      written := written + bytesToWrite;
    }
    End16(source, strict, points, consumed, Encode8, written, target.Length, result);
  }

  /** What the end of a conversion from UTF-16 comes to. */
  lemma End16<T>(source: seq<bv16>, strict: bool, points: seq<bv32>, consumed: nat, write: bv32 -> seq<T>, written: nat, room: nat,
                 result: Result)
    requires Reads(Reading16(strict), source, consumed, points) && consumed <= |source| && written <= room
    requires result == ConversionOk ==> consumed == |source|
    requires result == SourceIllegal ==> consumed < |source| && Step16(source, consumed, strict) == Illegal
    requires result == SourceExhausted ==> consumed < |source| && Step16(source, consumed, strict) == Exhausted
    requires result == TargetExhausted ==>
               && consumed < |source| && Step16(source, consumed, strict).Point?
               && written + |write(Step16(source, consumed, strict).ch)| > room
    ensures Ended(Reading16(strict), write, source, consumed, written, room, result)
    ensures strict ==> AllScalar(points) && source[..consumed] == All(Encode16, points)
    ensures forall given :: Converted(Encode16, write, source, given, points, result, consumed, written, room)
  {
    hide Step16, Converted, Reads, Scalar, AllScalar;
    AllComplete();
    hide Complete;
    if strict { StrictSound(source, consumed, points); }
    forall given
      ensures Converted(Encode16, write, source, given, points, result, consumed, written, room)
    {
      IsConverted(Encode16, Reading16(strict), write, source, given, points, result, consumed, written, room);
    }
  }

  /** Where nothing can be read in strict mode, no scalar value stands. */
  lemma StepKinds(source: seq<bv16>, i: nat, strict: bool)
    requires i < |source|
    ensures var r := Step16(source, i, strict);
      && (r.Point? ==> i + r.size <= |source| && r.size >= 1 && Clean(r.ch) == r.ch && Reading16(strict)(source, i) == r)
      && (strict && !r.Point? ==> Broken(Encode16, source, i))
  {
    if Step16(source, i, strict).Point? { CleanRead(source, i, strict); }
    hide Scalar, At, Encode16;
    if strict && !Step16(source, i, strict).Point? {
      forall p | Scalar(p)
        ensures !At(source, i, Encode16(p))
      {
        if At(source, i, Encode16(p)) { StepComplete(source, i, p, strict); }
      }
    }
  }

  /** UTF-16 has no code point that is too large. */
  lemma CleanRead(source: seq<bv16>, i: nat, strict: bool)
    requires i < |source| && Step16(source, i, strict).Point?
    ensures Clean(Step16(source, i, strict).ch) == Step16(source, i, strict).ch
  {
    if IsHigh(source[i]) && i + 1 < |source| && IsLow(source[i + 1]) {
      PairJoins(source[i], source[i + 1]);
    } else {
      WordPoint(source[i]);
    }
    hide Joined, PartOf, IsHigh, IsLow, Wide, Narrow, Scalar, Encode16;
  }

  /** Reads the next sequence of UTF-8. */
  method Read8(source: seq<bv8>, i: nat) returns (step: Step)
    requires i < |source|
    ensures step == Step8(source, i)
  {
    hide Trailing, IsLegal, Shifted, Wide8, Value;
    var extra := Trailing(source[i]);
    if i + extra >= |source| { return Exhausted; }
    if !IsLegal(source, i, extra + 1) { return Illegal; }
    var ch := Wide8(source[i]);
    var n := 1;
    while n < extra + 1
      invariant 1 <= n <= extra + 1 && ch == Gather(source, i, n)
    {
      ch := Shifted(ch, source[i + n]);
      n := n + 1;
    }
    step := Point(Value(ch, extra), extra + 1);
  }

  /** A first byte behind which isLegalUTF8 forgets the lower bound of the second, and a second byte below it. */
  predicate Loose(source: seq<bv8>, i: nat) {
    i + 1 < |source| && (source[i] == 0xED || source[i] == 0xF4) && source[i + 1] < 0x80
  }

  /** What is accepted stands for a scalar value, as long as its own encoding; and it is that encoding exactly if its
      second byte is not loose. No byte behind its first looks like a first byte of that kind. */
  lemma AcceptedIs(source: seq<bv8>, i: nat)
    requires Step8(source, i).Point?
    ensures var r := Step8(source, i);
      && Scalar(r.ch) && r.size == |Encode8(r.ch)|
      && (At(source, i, Encode8(r.ch)) <==> !Loose(source, i))
      && forall k | i < k < i + r.size :: source[k] <= 0xBF
  {
    SequenceOf(source, i);
    var r := Step8(source, i);
    hide Gather, Scalar, Encode8, Shifted, Wide8, Value, Step8, At, IsLegal, FirstOk, SecondOk, TailOk, Trailing;
    if r.size == 1 {
      AcceptedOne(source[i]);
    } else if r.size == 2 {
      AcceptedTwo(source[i], source[i + 1]);
    } else if r.size == 3 {
      AcceptedThree(source[i], source[i + 1], source[i + 2]);
    } else {
      AcceptedFour(source[i], source[i + 1], source[i + 2], source[i + 3]);
    }
    StandsAt(source, i, Encode8(r.ch));
  }

  /** What was accepted, byte by byte. */
  lemma SequenceOf(source: seq<bv8>, i: nat)
    requires Step8(source, i).Point?
    ensures var r := Step8(source, i); var b := source[i];
      && 1 <= r.size <= 4 && i + r.size <= |source| && FirstOk(b) && Trailing(b) == r.size - 1
      && (r.size == 1 ==> r.ch == Value(Wide8(b), 0))
      && (r.size >= 2 ==> SecondOk(b, source[i + 1]) && source[i + 1] <= 0xBF)
      && (r.size == 2 ==> r.ch == Value(Shifted(Wide8(b), source[i + 1]), 1))
      && (r.size >= 3 ==> TailOk(source[i + 2]) && source[i + 2] <= 0xBF)
      && (r.size == 3 ==> r.ch == Value(Shifted(Shifted(Wide8(b), source[i + 1]), source[i + 2]), 2))
      && (r.size == 4 ==> TailOk(source[i + 3]) && source[i + 3] <= 0xBF
                          && r.ch == Value(Shifted(Shifted(Shifted(Wide8(b), source[i + 1]), source[i + 2]), source[i + 3]), 3))
  {
    hide FirstOk, Shifted, Wide8, Value, Trailing;
    var n := Step8(source, i).size;
    assert Gather(source, i, 1) == Wide8(source[i]);
    assert n >= 2 ==> Gather(source, i, 2) == Shifted(Gather(source, i, 1), source[i + 1]);
    assert n >= 3 ==> Gather(source, i, 3) == Shifted(Gather(source, i, 2), source[i + 2]);
    assert n >= 4 ==> Gather(source, i, 4) == Shifted(Gather(source, i, 3), source[i + 3]);
  }

  /** Whether up to four bytes stand at a place. */
  lemma StandsAt(source: seq<bv8>, i: nat, w: seq<bv8>)
    requires 1 <= |w| <= 4 && i + |w| <= |source|
    ensures At(source, i, w) <==>
              w == (if |w| == 1 then [source[i]] else if |w| == 2 then [source[i], source[i + 1]]
                    else if |w| == 3 then [source[i], source[i + 1], source[i + 2]]
                    else [source[i], source[i + 1], source[i + 2], source[i + 3]])
  {
    var t := source[i..i + |w|];
    assert t == (if |w| == 1 then [source[i]] else if |w| == 2 then [source[i], source[i + 1]]
                 else if |w| == 3 then [source[i], source[i + 1], source[i + 2]]
                 else [source[i], source[i + 1], source[i + 2], source[i + 3]]);
  }

  lemma AcceptedOne(b: bv8)
    requires FirstOk(b) && Trailing(b) == 0
    ensures var ch := Value(Wide8(b), 0); Scalar(ch) && Encode8(ch) == [b] && b != 0xED && b != 0xF4
  {
    var ch := Value(Wide8(b), 0);
    assert ch < 0x80 && Byte(ch) == b;
  }

  lemma AcceptedTwo(b: bv8, a: bv8)
    requires FirstOk(b) && Trailing(b) == 1 && SecondOk(b, a)
    ensures var ch := Value(Shifted(Wide8(b), a), 1); Scalar(ch) && Encode8(ch) == [b, a] && b != 0xED && b != 0xF4
  {
    var ch := Value(Shifted(Wide8(b), a), 1);
    assert 0x80 <= ch < 0x800 && Lead2(ch) == b && Tail(ch) == a;
  }

  lemma AcceptedThree(b: bv8, a: bv8, c: bv8)
    requires FirstOk(b) && Trailing(b) == 2 && SecondOk(b, a) && TailOk(c)
    ensures var ch := Value(Shifted(Shifted(Wide8(b), a), c), 2);
      Scalar(ch) && |Encode8(ch)| == 3 && (Encode8(ch) == [b, a, c] <==> !(b == 0xED && a < 0x80)) && b != 0xF4
  {
    LooseSecond(b, a);
    ThreeInRange(b, a, c);
    if a >= 0x80 { ThreeParts(b, a, c); }
    TailsMarked(Value(Shifted(Shifted(Wide8(b), a), c), 2));
    hide Value, Shifted, Wide8, Lead3, Tail6, Tail, Scalar, FirstOk, SecondOk, TailOk;
  }

  lemma ThreeInRange(b: bv8, a: bv8, c: bv8)
    requires FirstOk(b) && Trailing(b) == 2 && SecondOk(b, a) && TailOk(c)
    ensures var ch := Value(Shifted(Shifted(Wide8(b), a), c), 2); 0x800 <= ch < 0x10000 && Scalar(ch)
  {
  }

  lemma ThreeParts(b: bv8, a: bv8, c: bv8)
    requires FirstOk(b) && Trailing(b) == 2 && SecondOk(b, a) && TailOk(c) && a >= 0x80
    ensures var ch := Value(Shifted(Shifted(Wide8(b), a), c), 2); Lead3(ch) == b && Tail6(ch) == a && Tail(ch) == c
  {
  }

  lemma TailsMarked(ch: bv32)
    ensures Tail6(ch) >= 0x80 && Tail12(ch) >= 0x80
  {
  }

  /** A second byte without its mark passes only behind two first bytes. */
  lemma LooseSecond(b: bv8, a: bv8)
    requires SecondOk(b, a)
    ensures a < 0x80 ==> b == 0xED || b == 0xF4
    ensures Trailing(0xED) == 2 && Trailing(0xF4) == 3
  {
  }

  lemma AcceptedFour(b: bv8, a: bv8, c: bv8, d: bv8)
    requires FirstOk(b) && Trailing(b) == 3 && SecondOk(b, a) && TailOk(c) && TailOk(d)
    ensures var ch := Value(Shifted(Shifted(Shifted(Wide8(b), a), c), d), 3);
      Scalar(ch) && |Encode8(ch)| == 4 && (Encode8(ch) == [b, a, c, d] <==> !(b == 0xF4 && a < 0x80)) && b != 0xED
  {
    LooseSecond(b, a);
    FourInRange(b, a, c, d);
    if a >= 0x80 { FourParts(b, a, c, d); }
    TailsMarked(Value(Shifted(Shifted(Shifted(Wide8(b), a), c), d), 3));
    hide Value, Shifted, Wide8, Lead4, Tail12, Tail6, Tail, FirstOk, SecondOk, TailOk;
  }

  lemma FourInRange(b: bv8, a: bv8, c: bv8, d: bv8)
    requires FirstOk(b) && Trailing(b) == 3 && SecondOk(b, a) && TailOk(c) && TailOk(d)
    ensures var ch := Value(Shifted(Shifted(Shifted(Wide8(b), a), c), d), 3); 0x10000 <= ch < 0x110000
  {
  }

  lemma FourParts(b: bv8, a: bv8, c: bv8, d: bv8)
    requires FirstOk(b) && Trailing(b) == 3 && SecondOk(b, a) && TailOk(c) && TailOk(d) && a >= 0x80
    ensures var ch := Value(Shifted(Shifted(Shifted(Wide8(b), a), c), d), 3);
      Lead4(ch) == b && Tail12(ch) == a && Tail6(ch) == c && Tail(ch) == d
  {
  }

  /** No second byte is loose. */
  predicate Tight(s: seq<bv8>) {
    forall i | 0 <= i < |s| :: !Loose(s, i)
  }

  /** What was read are scalar values, whatever the bytes; and the bytes are their encoding exactly if they are tight. */
  lemma {:induction false} TightIs(source: seq<bv8>, n: nat, points: seq<bv32>)
    requires Reads(Step8, source, n, points) && n <= |source|
    ensures AllScalar(points) && n == |All(Encode8, points)|
    ensures source[..n] == All(Encode8, points) <==> Tight(source[..n])
    ensures n > 0 ==> source[n - 1] <= 0xBF
    decreases |points|
  {
    hide *;
    if points != [] {
      var m, before, ch := ReadsLast(Step8, source, n, points);
      TightIs(source, m, before);
      TightStep(source, m, n, before, ch);
    } else {
      NothingRead8(source, n);
    }
  }

  lemma NothingRead8(source: seq<bv8>, n: nat)
    requires Reads(Step8, source, n, [])
    ensures n == 0 && AllScalar([]) && All(Encode8, []) == [] == source[..0] && Tight(source[..0])
  {
  }

  lemma TightStep(source: seq<bv8>, m: nat, n: nat, before: seq<bv32>, ch: bv32)
    requires m < n <= |source| && Step8(source, m) == Point(ch, n - m)
    requires AllScalar(before) && m == |All(Encode8, before)| && (source[..m] == All(Encode8, before) <==> Tight(source[..m]))
    requires m > 0 ==> source[m - 1] <= 0xBF
    ensures AllScalar(before + [ch]) && n == |All(Encode8, before + [ch])| && source[n - 1] <= 0xBF
    ensures source[..n] == All(Encode8, before + [ch]) <==> Tight(source[..n])
  {
    hide *;
    AcceptedIs(source, m);
    LastByte(source, m);
    TightMore(source, m, n);
    AllMore(Encode8, before, ch);
    ScalarsMore(before, ch);
    StandsThere(source, m, n, Encode8(ch));
    assert source[..n] == source[..m] + source[m..n];
    Parts(source[..m], source[m..n], All(Encode8, before), Encode8(ch));
  }

  lemma StandsThere<T>(source: seq<T>, m: nat, n: nat, w: seq<T>)
    requires m <= n <= |source| && n - m == |w|
    ensures At(source, m, w) <==> source[m..n] == w
  {
  }

  lemma Parts<T>(a: seq<T>, b: seq<T>, a': seq<T>, b': seq<T>)
    requires |a| == |a'| && |b| == |b'|
    ensures a + b == a' + b' <==> a == a' && b == b'
  {
    if a + b == a' + b' {
      assert a == (a + b)[..|a|] && b == (a + b)[|a|..];
      assert a' == (a' + b')[..|a|] && b' == (a' + b')[|a|..];
    }
  }

  lemma LastByte(source: seq<bv8>, m: nat)
    requires Step8(source, m).Point?
    ensures var n := m + Step8(source, m).size; source[n - 1] <= 0xBF && n > m
  {
    AcceptedIs(source, m);
    hide Scalar, Encode8, Gather;
    if Step8(source, m).size == 1 {
      assert Trailing(source[m]) == 0;
    }
  }

  /** One more accepted sequence m..n-1: only its first two bytes matter. */
  lemma TightMore(source: seq<bv8>, m: nat, n: nat)
    requires m < n <= |source| && (m > 0 ==> source[m - 1] <= 0xBF)
    requires forall k | m < k < n :: source[k] <= 0xBF
    requires m + 1 == n ==> source[m] <= 0xBF
    ensures Tight(source[..n]) <==> Tight(source[..m]) && !Loose(source, m)
  {
    var s, s' := source[..m], source[..n];
    assert forall i | 0 <= i < m - 1 :: Loose(s, i) <==> Loose(s', i);
    assert m > 0 ==> !Loose(s, m - 1) && !Loose(s', m - 1);
    assert Loose(s', m) <==> Loose(source, m);
    assert forall i | m < i < n :: !Loose(s', i);
    if Tight(s') {
      forall i | 0 <= i < m ensures !Loose(s, i) { assert i < m - 1 ==> !Loose(s', i); }
      assert !Loose(s', m);
    }
    if Tight(s) && !Loose(source, m) {
      forall i | 0 <= i < n ensures !Loose(s', i) { assert i < m - 1 ==> !Loose(s, i); }
    }
  }

  /** The bytes ED 20 80 are accepted as U+B800, whose encoding is EB A0 80. */
  lemma LooseExample()
    ensures var source: seq<bv8> := [0xED, 0x20, 0x80];
      Step8(source, 0) == Point(0xB800, 3) && Loose(source, 0) && Encode8(0xB800) == [0xEB, 0xA0, 0x80]
  {
    var source: seq<bv8> := [0xED, 0x20, 0x80];
    assert Trailing(0xED) == 2 && IsLegal(source, 0, 3);
    assert Gather(source, 0, 1) == 0xED;
    assert Gather(source, 0, 2) == Shifted(0xED, 0x20);
    assert Gather(source, 0, 3) == Shifted(Shifted(0xED, 0x20), 0x80);
  }

  /** What cannot be read is no encoding of a scalar value. */
  lemma Step8Kinds(source: seq<bv8>, i: nat)
    requires i < |source|
    ensures var r := Step8(source, i);
      if r.Point? then r.size >= 1 && i + r.size <= |source| && Scalar(r.ch) else Broken(Encode8, source, i)
  {
    if Step8(source, i).Point? {
      AcceptedIs(source, i);
    } else {
      hide Scalar, At, Encode8, Step8, IsLegal;
      forall p | Scalar(p)
        ensures !At(source, i, Encode8(p))
      {
        if At(source, i, Encode8(p)) { Step8Complete(source, i, p); }
      }
    }
  }

  predicate IsSurrogate(ch: bv32) {
    0xD800 <= ch <= 0xDFFF
  }

  /** The kinds of code points the writers tell apart. */
  lemma PointKinds(ch: bv32)
    ensures ch <= 0xFFFF && !IsSurrogate(ch) ==> |Encode16(ch)| == 1 && Encode16(ch)[0] == Narrow(ch) && Scalar(ch)
    ensures 0xFFFF < ch <= 0x10FFFF ==> Encode16(ch) == [Surrogate(Upper(ch), 0xD800), Surrogate(Lower(ch), 0xDC00)] && Scalar(ch)
    ensures (IsSurrogate(ch) || ch > 0x10FFFF ==> !Scalar(ch)) && Scalar(REPLACEMENT)
    ensures Encode16(REPLACEMENT) == [Narrow(REPLACEMENT)] && Encode32(ch) == [ch] && Encode32(REPLACEMENT) == [REPLACEMENT]
  {
    hide Narrow, Surrogate, Upper, Lower;
  }

  /** Writes one code point of UTF-16. */
  method Write16(target: array<bv16>, at: nat, ch: bv32)
    requires at + |Encode16(ch)| <= target.Length && |Encode16(ch)| > 0
    modifies target
    ensures Placed(old(target[..]), target[..], at, Encode16(ch))
  {
    hide Narrow, Surrogate, Upper, Lower;
    if ch <= 0xFFFF {
      target[at] := Narrow(ch);
    } else {
      target[at] := Surrogate(Upper(ch), 0xD800);
      target[at + 1] := Surrogate(Lower(ch), 0xDC00);
    }
  }

  /** What to do with a code point that was read. */
  datatype Decision = Write(ch: bv32, size: nat) | Full | Refused

  /** Whether a code point goes to UTF-16: it must fit, and in strict mode be a scalar value. */
  method Decide16(ch: bv32, room: nat, strict: bool) returns (d: Decision)
    ensures d.Write? ==> 0 < d.size == |Encode16(d.ch)| <= room && Scalar(d.ch)
    ensures (d.Full? ==> room < 2) && (d.Refused? ==> !Scalar(ch))
    ensures Scalar(ch) ==> if |Encode16(ch)| <= room then d == Write(ch, |Encode16(ch)|) else d == Full
  {
    PointKinds(ch);
    hide Encode16, Scalar;
    if room == 0 { return Full; }
    if ch <= 0xFFFF {
      if IsSurrogate(ch) {
        return if strict then Refused else Write(REPLACEMENT, 1);
      }
      return Write(ch, 1);
    }
    if ch > 0x10FFFF {
      return if strict then Refused else Write(REPLACEMENT, 1);
    }
    if room == 1 { return Full; }
    d := Write(ch, 2);
  }

  /** Whether a code point goes to UTF-32. One that is too large is replaced and reported. */
  method Decide32(ch: bv32, room: nat, strict: bool) returns (d: Decision, tooLarge: bool)
    ensures d.Write? ==> 0 < d.size == |Encode32(d.ch)| <= room && Scalar(d.ch)
    ensures (d.Full? ==> room == 0) && (d.Refused? ==> !Scalar(ch)) && (tooLarge ==> ch > 0x10FFFF)
    ensures Scalar(ch) ==> !tooLarge && if 1 <= room then d == Write(ch, 1) else d == Full
  {
    PointKinds(ch);
    hide Encode16, Scalar;
    tooLarge := false;
    if room == 0 { return Full, false; }
    if ch <= 0x10FFFF {
      if IsSurrogate(ch) {
        return if strict then Refused else Write(REPLACEMENT, 1), false;
      }
      return Write(ch, 1), false;
    }
    return Write(REPLACEMENT, 1), true;
  }

  method ConvertUTF8toUTF16(source: seq<bv8>, target: array<bv16>, strict: bool)
    returns (result: Result, consumed: nat, written: nat, ghost points: seq<bv32>)
    modifies target
    ensures Reads(Step8, source, consumed, points) && Output(Encode16, points, target[..], old(target[..]), written)
    ensures Ended(Step8, Encode16, source, consumed, written, target.Length, result) && consumed <= |source|
    ensures AllScalar(points) && (source[..consumed] == All(Encode8, points) <==> Tight(source[..consumed]))
    ensures result == SourceIllegal || result == SourceExhausted ==> Broken(Encode8, source, consumed)
    ensures forall given :: Converted(Encode8, Encode16, source, given, points, result, consumed, written, target.Length)
  {
    hide *;
    result, consumed, written, points := ConversionOk, 0, 0, [];
    ReadsNone(Step8, source);
    OutputNone(Encode16, target[..]);
    while consumed < |source|
      invariant Reads(Step8, source, consumed, points) && consumed <= |source|
      invariant Output(Encode16, points, target[..], old(target[..]), written) && written <= target.Length
      invariant result == ConversionOk
      decreases |source| - consumed
    {
      var step := Read8(source, consumed);
      Step8Kinds(source, consumed);
      if step.Illegal? || step.Exhausted? {
        result := if step.Illegal? then SourceIllegal else SourceExhausted;
        break;
      }
      var ch, size := step.ch, step.size;
      var decision := Decide16(ch, target.Length - written, strict);
      if decision.Full? || decision.Refused? {
        result := if decision.Full? then TargetExhausted else SourceIllegal;
        break;
      }
      ch := decision.ch;
      ghost var was := target[..];
      Write16(target, written, ch);
      Advance(Step8, source, points, consumed, ch, size, Encode16, was, target[..], old(target[..]), written);
      points := points + [ch];
      consumed := consumed + size;
      written := written + decision.size;
    }
    End8(source, points, consumed, Encode16, written, target.Length, result);
  }

  /** What the end of a conversion from UTF-8 comes to. */
  lemma End8<T>(source: seq<bv8>, points: seq<bv32>, consumed: nat, write: bv32 -> seq<T>, written: nat, room: nat, result: Result)
    requires Reads(Step8, source, consumed, points) && consumed <= |source| && written <= room
    requires result == ConversionOk ==> consumed == |source|
    requires result == SourceIllegal ==> consumed < |source| && Step8(source, consumed) == Illegal
    requires result == SourceExhausted ==> consumed < |source| && Step8(source, consumed) == Exhausted
    requires result == TargetExhausted ==>
               && consumed < |source| && Step8(source, consumed).Point?
               && written + |write(Step8(source, consumed).ch)| > room
    ensures Ended(Step8, write, source, consumed, written, room, result)
    ensures AllScalar(points) && (source[..consumed] == All(Encode8, points) <==> Tight(source[..consumed]))
    ensures forall given :: Converted(Encode8, write, source, given, points, result, consumed, written, room)
  {
    hide Step8, Converted, Reads, Scalar, AllScalar, Tight;
    AllComplete();
    hide Complete;
    TightIs(source, consumed, points);
    forall given
      ensures Converted(Encode8, write, source, given, points, result, consumed, written, room)
    {
      IsConverted(Encode8, Step8, write, source, given, points, result, consumed, written, room);
    }
  }

  function CleanAll(source: seq<bv32>): seq<bv32> {
    if source == [] then [] else CleanAll(source[..|source| - 1]) + [Clean(source[|source| - 1])]
  }

  /** The code points read are those of the source, too large ones replaced; in strict mode none is a surrogate. */
  ghost predicate Cleaned(source: seq<bv32>, n: nat, points: seq<bv32>, strict: bool) {
    n <= |source| && points == CleanAll(source[..n]) && (strict ==> forall k | 0 <= k < n :: !IsSurrogate(source[k]))
  }

  lemma CleanMore(source: seq<bv32>, n: nat, points: seq<bv32>, strict: bool)
    requires n < |source| && Cleaned(source, n, points, strict) && (strict ==> !IsSurrogate(source[n]))
    ensures Cleaned(source, n + 1, points + [Clean(source[n])], strict)
  {
    hide IsSurrogate, Clean;
    assert source[..n + 1][..n] == source[..n];
  }

  lemma CleanNone(source: seq<bv32>, strict: bool)
    ensures Cleaned(source, 0, [], strict)
  {
  }

  /** How UTF-32 is read. */
  function Strict32(source: seq<bv32>, i: nat): Step {
    if i >= |source| then Exhausted else if IsSurrogate(source[i]) then Illegal else Point(Clean(source[i]), 1)
  }

  function Lenient32(source: seq<bv32>, i: nat): Step {
    if i >= |source| then Exhausted else Point(Clean(source[i]), 1)
  }

  function Reading32(strict: bool): (seq<bv32>, nat) -> Step {
    if strict then Strict32 else Lenient32
  }

  lemma ScalarKinds(ch: bv32)
    ensures Scalar(ch) ==> !IsSurrogate(ch) && Clean(ch) == ch && !TooLarge(ch)
    ensures !IsSurrogate(ch) ==> Scalar(Clean(ch))
  {
  }

  /** In UTF-32 a code point stands for itself. */
  lemma AllComplete32()
    ensures Complete(Encode32, Strict32) && Complete(Encode32, Lenient32)
  {
    hide Scalar, IsSurrogate, Clean;
    forall source: seq<bv32>, i: nat, p | Scalar(p) && At(source, i, Encode32(p))
      ensures Strict32(source, i) == Point(p, 1) && Lenient32(source, i) == Point(p, 1)
    {
      assert source[i..i + 1][0] == source[i];
      ScalarKinds(p);
    }
  }

  /** What the end of a conversion from UTF-32 comes to. A code point that is too large is reported, but the conversion
      goes on. */
  ghost predicate Ended32<T>(strict: bool, write: bv32 -> seq<T>, source: seq<bv32>, consumed: nat, written: nat, room: nat,
                             result: Result)
  {
    && consumed <= |source| && written <= room
    && (result == ConversionOk ==> consumed == |source| && forall k | 0 <= k < |source| :: !TooLarge(source[k]))
    && (result == SourceIllegal ==>
          || (consumed < |source| && Reading32(strict)(source, consumed) == Illegal)
          || (consumed == |source| && exists k | 0 <= k < |source| :: TooLarge(source[k])))
    && (result == TargetExhausted ==>
          && consumed < |source| && Reading32(strict)(source, consumed).Point?
          && written + |write(Clean(source[consumed]))| > room)
    && result != SourceExhausted
  }

  method ConvertUTF32toUTF8(source: seq<bv32>, target: array<bv8>, strict: bool)
    returns (result: Result, consumed: nat, written: nat, ghost points: seq<bv32>)
    modifies target
    ensures Reads(Reading32(strict), source, consumed, points) && Output(Encode8, points, target[..], old(target[..]), written)
    ensures Ended32(strict, Encode8, source, consumed, written, target.Length, result) && Cleaned(source, consumed, points, strict)
    ensures strict ==> AllScalar(points)
    ensures forall given :: Converted(Encode32, Encode8, source, given, points, result, consumed, written, target.Length)
  {
    hide *;
    result, consumed, written, points := ConversionOk, 0, 0, [];
    ghost var reading := Reading32(strict);
    ReadsNone(reading, source);
    OutputNone(Encode8, target[..]);
    CleanNone(source, strict);
    while consumed < |source|
      invariant Reads(reading, source, consumed, points) && consumed <= |source|
      invariant Output(Encode8, points, target[..], old(target[..]), written) && written <= target.Length
      invariant Cleaned(source, consumed, points, strict)
      invariant result == if exists k | 0 <= k < consumed :: TooLarge(source[k]) then SourceIllegal else ConversionOk
      decreases |source| - consumed
    {
      var ch := source[consumed];
      StepIs32(source, consumed, strict);
      if strict {
        if IsSurrogate(ch) {
          result := SourceIllegal;
          break;
        }
      }
      var bytesToWrite := BytesFor(ch);
      BytesForIs(ch);
      if TooLarge(ch) {
        result := SourceIllegal;
      }
      if written + bytesToWrite > target.Length {
        result := TargetExhausted;
        break;
      }
      CleanMore(source, consumed, points, strict);
      ch := Clean(ch);
      ghost var was := target[..];
      Write8(target, written, ch, bytesToWrite);
      Advance(reading, source, points, consumed, ch, 1, Encode8, was, target[..], old(target[..]), written);
      points := points + [ch];
      consumed := consumed + 1;
      written := written + bytesToWrite;
    }
    End32(source, strict, points, consumed, Encode8, written, target.Length, result);
  }

  lemma StepIs32(source: seq<bv32>, i: nat, strict: bool)
    requires i < |source|
    ensures Reading32(strict)(source, i) == if strict && IsSurrogate(source[i]) then Illegal else Point(Clean(source[i]), 1)
  {
  }

  lemma End32<T>(source: seq<bv32>, strict: bool, points: seq<bv32>, consumed: nat, write: bv32 -> seq<T>, written: nat, room: nat,
                 result: Result)
    requires Reads(Reading32(strict), source, consumed, points) && Cleaned(source, consumed, points, strict)
    requires consumed <= |source| && written <= room && result != SourceExhausted
    requires result == ConversionOk ==> consumed == |source| && !exists k | 0 <= k < consumed :: TooLarge(source[k])
    requires result == SourceIllegal ==>
               || (consumed < |source| && strict && IsSurrogate(source[consumed]))
               || (consumed == |source| && exists k | 0 <= k < consumed :: TooLarge(source[k]))
    requires result == TargetExhausted ==>
               && consumed < |source| && !(strict && IsSurrogate(source[consumed]))
               && written + |write(Clean(source[consumed]))| > room
    ensures Ended32(strict, write, source, consumed, written, room, result)
    ensures strict ==> AllScalar(points)
    ensures forall given :: Converted(Encode32, write, source, given, points, result, consumed, written, room)
  {
    if consumed < |source| { StepIs32(source, consumed, strict); }
    hide Converted, Reads, Scalar, AllScalar, Clean, TooLarge, IsSurrogate;
    AllComplete32();
    hide Complete;
    if strict { CleanScalars(source, consumed, points); }
    forall given
      ensures Converted(Encode32, write, source, given, points, result, consumed, written, room)
    {
      Converted32(source, strict, given, points, consumed, write, written, room, result);
    }
  }

  lemma Converted32<T>(source: seq<bv32>, strict: bool, given: seq<bv32>, points: seq<bv32>, consumed: nat, write: bv32 -> seq<T>,
                       written: nat, room: nat, result: Result)
    requires Reads(Reading32(strict), source, consumed, points) && Complete(Encode32, Reading32(strict))
    requires Ended32(strict, write, source, consumed, written, room, result)
    ensures Converted(Encode32, write, source, given, points, result, consumed, written, room)
  {
    var result' := if consumed == |source| then ConversionOk else result;
    if consumed < |source| { StepIs32(source, consumed, strict); }
    IsConverted(Encode32, Reading32(strict), write, source, given, points, result', consumed, written, room);
    All32(given);
    if AllScalar(given) && given == source {
      forall k | 0 <= k < |source|
        ensures !TooLarge(source[k])
      {
        assert source[k] in given;
        ScalarKinds(source[k]);
      }
    }
  }

  lemma {:induction false} CleanScalars(source: seq<bv32>, n: nat, points: seq<bv32>)
    requires Cleaned(source, n, points, true)
    ensures AllScalar(points)
  {
    if n > 0 {
      assert source[..n][..n - 1] == source[..n - 1];
      CleanScalars(source, n - 1, CleanAll(source[..n - 1]));
      ScalarKinds(source[n - 1]);
      assert points == CleanAll(source[..n - 1]) + [Clean(source[n - 1])];
    }
  }

  method ConvertUTF8toUTF32(source: seq<bv8>, target: array<bv32>, strict: bool)
    returns (result: Result, consumed: nat, written: nat, ghost points: seq<bv32>)
    modifies target
    ensures Reads(Step8, source, consumed, points) && Output(Encode32, points, target[..], old(target[..]), written)
    ensures Ended(Step8, Encode32, source, consumed, written, target.Length, result) && consumed <= |source|
    ensures AllScalar(points) && (source[..consumed] == All(Encode8, points) <==> Tight(source[..consumed]))
    ensures result == SourceIllegal || result == SourceExhausted ==> Broken(Encode8, source, consumed)
    ensures forall given :: Converted(Encode8, Encode32, source, given, points, result, consumed, written, target.Length)
  {
    hide *;
    result, consumed, written, points := ConversionOk, 0, 0, [];
    ReadsNone(Step8, source);
    OutputNone(Encode32, target[..]);
    while consumed < |source|
      invariant Reads(Step8, source, consumed, points) && consumed <= |source|
      invariant Output(Encode32, points, target[..], old(target[..]), written) && written <= target.Length
      invariant result == ConversionOk
      decreases |source| - consumed
    {
      var step := Read8(source, consumed);
      Step8Kinds(source, consumed);
      if step.Illegal? || step.Exhausted? {
        result := if step.Illegal? then SourceIllegal else SourceExhausted;
        break;
      }
      var ch, size := step.ch, step.size;
      var decision, tooLarge := Decide32(ch, target.Length - written, strict);
      if decision.Full? || decision.Refused? {
        result := if decision.Full? then TargetExhausted else SourceIllegal;
        break;
      }
      if tooLarge {
        result := SourceIllegal;
      }
      ch := decision.ch;
      ghost var was := target[..];
      Write32(target, written, ch);
      Advance(Step8, source, points, consumed, ch, size, Encode32, was, target[..], old(target[..]), written);
      points := points + [ch];
      consumed := consumed + size;
      written := written + 1;
    }
    End8(source, points, consumed, Encode32, written, target.Length, result);
  }

  method Write32(target: array<bv32>, at: nat, ch: bv32)
    requires at < target.Length
    modifies target
    ensures |Encode32(ch)| == 1 && Placed(old(target[..]), target[..], at, Encode32(ch))
  {
    target[at] := ch;
  }

  predicate TooLarge(ch: bv32) {
    ch > 0x10FFFF
  }

  /** A text with a part of it left needs room for that too. */
  lemma PrefixFits<T>(encode: bv32 -> seq<T>, given: seq<bv32>, points: seq<bv32>)
    requires points <= given && |points| < |given|
    ensures |All(encode, points)| + |encode(given[|points|])| <= |All(encode, given)|
  {
    assert given[..|points|] == points;
    AllAt(encode, given, |points|);
  }

  /** UTF-16 to UTF-8 and back is the identity on every text of scalar values. */
  method RoundTrip16(points: seq<bv32>) returns (back: seq<bv16>)
    requires AllScalar(points)
    ensures back == All(Encode16, points)
  {
    hide All, Encode16, Encode8, Scalar, AllScalar, At, Reads, Ended, Step8, Step16, Tight;
    var source := All(Encode16, points);
    var bytes := new bv8[|All(Encode8, points)|];
    var result, consumed, written;
    ghost var read;
    result, consumed, written, read := ConvertUTF16toUTF8(source, bytes, true);
    assert Converted(Encode16, Encode8, source, points, read, result, consumed, written, bytes.Length);
    if |read| < |points| { PrefixFits(Encode8, points, read); assert false; }
    assert bytes[..written] == bytes[..];
    var words := new bv16[|source|];
    result, consumed, written, read := ConvertUTF8toUTF16(bytes[..], words, true);
    assert Converted(Encode8, Encode16, bytes[..], points, read, result, consumed, written, words.Length);
    if |read| < |points| { PrefixFits(Encode16, points, read); assert false; }
    assert words[..written] == words[..];
    back := words[..];
  }

  /** UTF-32 to UTF-8 and back is the identity on every text of scalar values. */
  method RoundTrip32(points: seq<bv32>) returns (back: seq<bv32>)
    requires AllScalar(points)
    ensures back == points
  {
    hide Encode32, Encode8, Scalar, AllScalar, At, Reads, Ended, Ended32, Step8, Tight;
    All32(points);
    hide All;
    var bytes := new bv8[|All(Encode8, points)|];
    var result, consumed, written;
    ghost var read;
    result, consumed, written, read := ConvertUTF32toUTF8(points, bytes, true);
    assert Converted(Encode32, Encode8, points, points, read, result, consumed, written, bytes.Length);
    if |read| < |points| { PrefixFits(Encode8, points, read); assert false; }
    assert bytes[..written] == bytes[..];
    var words := new bv32[|points|];
    result, consumed, written, read := ConvertUTF8toUTF32(bytes[..], words, true);
    assert Converted(Encode8, Encode32, bytes[..], points, read, result, consumed, written, words.Length);
    if |read| < |points| { PrefixFits(Encode32, points, read); assert false; }
    assert words[..written] == words[..];
    back := words[..];
  }

  lemma {:induction false} All32(points: seq<bv32>)
    ensures All(Encode32, points) == points
  {
    if points != [] {
      All32(points[..|points| - 1]);
    }
  }
}
