/** Bencoding: the values, their canonical text, and the recursive grammar the decoder's stack loop follows. */
module Bencode {

  const INT64_MIN: int := -0x8000_0000_0000_0000
  const INT64_MAX: int := 0x7fff_ffff_ffff_ffff

  predicate IsDigit(c: char) {
    '0' <= c <= '9'
  }

  function DigitValue(c: char): int {
    c as int - '0' as int
  }

  function Digit(d: int): char
    requires 0 <= d < 10
  {
    ('0' as int + d) as char
  }

  /** The decimal digits of a number. */
  function Decimal(n: nat): (r: string)
    ensures |r| >= 1 && forall k | 0 <= k < |r| :: IsDigit(r[k])
  {
    if n < 10 then [Digit(n)] else Decimal(n / 10) + [Digit(n % 10)]
  }

  function Printed(i: int): string {
    if i < 0 then "-" + Decimal(-i) else Decimal(i)
  }

  function Pow10(k: nat): (r: nat)
    ensures r > 0
  {
    if k == 0 then 1 else 10 * Pow10(k - 1)
  }

  /** What parse_int leaves behind: the place of the delimiter or the end, -1 for a character that is no digit,
      and the number so far. */
  datatype Scan = Scan(pos: int, val: int)

  function ParseInt(s: string, pos: nat, end: nat, delimiter: char, val: int): (r: Scan)
    requires pos <= end <= |s|
    ensures r.pos == -1 || (pos <= r.pos <= end && (r.pos < end ==> s[r.pos] == delimiter))
    ensures val >= 0 ==> r.val >= val
    decreases end - pos
  {
    if pos < end && s[pos] != delimiter then
      if !IsDigit(s[pos]) then Scan(-1, val) else ParseInt(s, pos + 1, end, delimiter, val * 10 + DigitValue(s[pos]))
    else Scan(pos, val)
  }

  function FindChar(s: string, pos: nat, delimiter: char): (r: nat)
    requires pos <= |s|
    ensures pos <= r <= |s| && (r < |s| ==> s[r] == delimiter) && forall k | pos <= k < r :: s[k] != delimiter
    decreases |s| - pos
  {
    if pos < |s| && s[pos] != delimiter then FindChar(s, pos + 1, delimiter) else pos
  }

  /** The text w stands at pos. */
  ghost predicate At(s: string, pos: nat, w: string) {
    pos + |w| <= |s| && s[pos..pos + |w|] == w
  }

  lemma AtSplits(s: string, pos: nat, a: string, b: string)
    ensures At(s, pos, a + b) <==> At(s, pos, a) && At(s, pos + |a|, b)
  {
    if At(s, pos, a + b) {
      assert a == (a + b)[..|a|] && b == (a + b)[|a|..];
    }
    if At(s, pos, a) && At(s, pos + |a|, b) {
      assert s[pos..pos + |a| + |b|] == s[pos..pos + |a|] + s[pos + |a|..pos + |a| + |b|];
    }
  }

  /** Reading the digits of n from any place. */
  lemma {:induction false} ParseDecimal(s: string, pos: nat, end: nat, delimiter: char, val: int, n: nat)
    requires At(s, pos, Decimal(n)) && pos + |Decimal(n)| <= end <= |s| && !IsDigit(delimiter)
    ensures ParseInt(s, pos, end, delimiter, val)
            == ParseInt(s, pos + |Decimal(n)|, end, delimiter, val * Pow10(|Decimal(n)|) + n)
  {
    hide *;
    DecimalSplits(n);
    FirstDigit(s, pos, n);
    if n < 10 {
      ParseDigit(s, pos, end, delimiter, val, n);
    } else {
      var m := Decimal(n / 10);
      ParseDecimal(s, pos, end, delimiter, val, n / 10);
      ParseDigit(s, pos + |m|, end, delimiter, val * Pow10(|m|) + n / 10, n % 10);
      DigitSum(val, Pow10(|m|), n);
    }
  }

  lemma DecimalSplits(n: nat)
    ensures n < 10 ==> |Decimal(n)| == 1 && Pow10(1) == 10
    ensures n >= 10 ==> |Decimal(n)| == |Decimal(n / 10)| + 1 && Pow10(|Decimal(n)|) == 10 * Pow10(|Decimal(n / 10)|)
  {
    assert Pow10(1) == 10 * Pow10(0) == 10;
  }

  lemma AtChar(s: string, pos: nat, c: char)
    requires At(s, pos, [c])
    ensures pos < |s| && s[pos] == c
  {
    assert s[pos..pos + 1][0] == c;
  }

  lemma FirstDigit(s: string, pos: nat, n: nat)
    requires At(s, pos, Decimal(n))
    ensures n < 10 ==> s[pos] == Digit(n)
    ensures n >= 10 ==> At(s, pos, Decimal(n / 10)) && s[pos + |Decimal(n / 10)|] == Digit(n % 10)
  {
    if n < 10 {
      AtChar(s, pos, Digit(n));
    } else {
      var m := Decimal(n / 10);
      AtSplits(s, pos, m, [Digit(n % 10)]);
      AtChar(s, pos + |m|, Digit(n % 10));
    }
  }

  lemma ParseDigit(s: string, pos: nat, end: nat, delimiter: char, val: int, d: nat)
    requires pos < end <= |s| && d < 10 && s[pos] == Digit(d) && !IsDigit(delimiter)
    ensures ParseInt(s, pos, end, delimiter, val) == ParseInt(s, pos + 1, end, delimiter, val * 10 + d)
  {
  }

  lemma DigitSum(val: int, p: int, n: nat)
    ensures (val * p + n / 10) * 10 + n % 10 == val * (10 * p) + n
  {
  }

  /** The digits of a length and its colon. */
  lemma ParseLength(s: string, pos: nat, n: nat)
    requires At(s, pos, Decimal(n) + ":")
    ensures pos < |s| && IsDigit(s[pos]) && s[pos] == Decimal(n)[0]
    ensures ParseInt(s, pos + 1, |s|, ':', DigitValue(s[pos])) == Scan(pos + |Decimal(n)|, n)
    ensures s[pos + |Decimal(n)|] == ':'
  {
    AtSplits(s, pos, Decimal(n), ":");
    ParseDecimal(s, pos, |s|, ':', 0, n);
    assert s[pos] == s[pos..pos + |Decimal(n)|][0];
    assert s[pos + |Decimal(n)|] == s[pos + |Decimal(n)|..pos + |Decimal(n)| + 1][0];
  }

  /** An entry as it is built up and printed. A list is a container whose keys are all empty. */
  datatype Value = Integer(i: int) | Text(text: string) | Container(dict: bool, kids: seq<Pair>)

  datatype Pair = Pair(key: string, val: Value)

  function Encoded(v: Value): string
    decreases v
  {
    match v
    case Integer(i) => "i" + Printed(i) + "e"
    case Text(t) => Decimal(|t|) + ":" + t
    case Container(dict, kids) => (if dict then "d" else "l") + EncodedKids(dict, kids) + "e"
  }

  function EncodedKey(dict: bool, key: string): string {
    if dict then Decimal(|key|) + ":" + key else ""
  }

  function EncodedKids(dict: bool, kids: seq<Pair>): string
    decreases kids
  {
    if kids == [] then "" else EncodedKey(dict, kids[0].key) + Encoded(kids[0].val) + EncodedKids(dict, kids[1..])
  }

  /** Keys compare byte by byte. */
  predicate Less(a: string, b: string) {
    b != [] && (a == [] || a[0] < b[0] || (a[0] == b[0] && Less(a[1..], b[1..])))
  }

  /** Every value an entry can hold: 64-bit integers, dictionaries ordered by key. */
  ghost predicate Representable(v: Value) {
    match v
    case Integer(i) => INT64_MIN < i <= INT64_MAX
    case Text(text) => |text| <= INT64_MAX
    case Container(dict, kids) =>
      && (forall k | 0 <= k < |kids| ::
            Representable(kids[k].val) && |kids[k].key| <= INT64_MAX && (!dict ==> kids[k].key == ""))
      && (dict ==> forall j, k | 0 <= j < k < |kids| :: Less(kids[j].key, kids[k].key))
  }

  /** A decoded entry: it keeps no data, only where things stand in the input. Unended: a container that was still open
      when the input ended. */
  datatype Lazy = Empty | IntAt(start: nat, size: nat) | TextAt(start: nat, size: nat)
                | Node(dict: bool, begin: int, kids: seq<Kid>, end: nat)
                | Unended(dict: bool, begin: int, kids: seq<Kid>)

  datatype Kid = Kid(name: nat, val: Lazy)

  /** The number of digits of a length. */
  function NumDigits(n: nat): (r: nat)
    ensures r == |Decimal(n)|
  {
    if n < 10 then 1 else NumDigits(n / 10) + 1
  }

  /** Where an entry takes itself to begin in the input. */
  function Begin(x: Lazy): int {
    match x
    case Empty => 0
    case IntAt(start, _) => start - 1
    case TextAt(start, size) => start - 1 - NumDigits(size)
    case Node(_, begin, _, _) => begin
    case Unended(_, begin, _) => begin
  }

  /** And how many bytes it takes itself to span, which is never set for a container that did not end. */
  function Span(x: Lazy): int {
    match x
    case Empty => 0
    case IntAt(_, size) => size + 2
    case TextAt(start, size) => start - Begin(x) + size
    case Node(_, begin, _, end) => end - begin
    case Unended(_, _, _) => 0
  }

  /** int_value of an integer entry. */
  function IntValue(s: string, start: nat, size: nat): int
    requires start + size <= |s|
  {
    if start < |s| && s[start] == '-' then
      if size == 0 then 0 else -ParseInt(s, start + 1, start + size, 'e', 0).val
    else ParseInt(s, start, start + size, 'e', 0).val
  }

  /** Storing under a key of an ordered map. */
  function Insert(kids: seq<Pair>, key: string, val: Value): seq<Pair> {
    if kids == [] then [Pair(key, val)]
    else if kids[0].key == key then [Pair(key, val)] + kids[1..]
    else if Less(key, kids[0].key) then [Pair(key, val)] + kids
    else [kids[0]] + Insert(kids[1..], key, val)
  }

  lemma {:induction false} InsertLast(kids: seq<Pair>, key: string, val: Value)
    requires forall k | 0 <= k < |kids| :: Less(kids[k].key, key)
    ensures Insert(kids, key, val) == kids + [Pair(key, val)]
  {
    if kids != [] {
      LessAsymmetric(kids[0].key, key);
      InsertLast(kids[1..], key, val);
    }
  }

  lemma {:induction false} LessAsymmetric(a: string, b: string)
    requires Less(a, b)
    ensures a != b && !Less(b, a)
  {
    if a != [] && a[0] == b[0] {
      LessAsymmetric(a[1..], b[1..]);
      assert a == [a[0]] + a[1..] && b == [b[0]] + b[1..];
    }
  }
}
