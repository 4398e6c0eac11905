/** The recursive grammar of the bencode decoder, and that it inverts canonical encoding. */
module BdecodeGrammar {
  import opened Common
  import opened Bencode

  datatype Code = DepthExceeded | UnexpectedEof | ExpectedString | ExpectedColon | LimitExceeded | ExpectedValue

  /** Parsed: a whole value, where it ends and how many items may still come. Failed: the error, its position, and what is
      left of the entry; the position is -1
      when a bad digit has lost the place. Cut: the input ended inside a container, which the decoder
      accepts; the containers it ended in have their children so far. */
  datatype Outcome = Parsed(val: Lazy, pos: nat, items: int) | Failed(code: Code, at: int, remains: Lazy)
                   | Cut(left: Lazy)

  /** A value whose first character t stands before `start`; its entry is number `depth` on the stack. */
  function After(s: string, t: char, start: nat, depth: nat, limit: int, items: int): (o: Outcome)
    requires start <= |s|
    ensures o.Parsed? ==> start <= o.pos <= |s|
    decreases |s| - start, 1
  {
    if items - 1 <= 0 then Failed(LimitExceeded, start, Empty)
    else if t == 'd' || t == 'l' then Kids(s, start, depth, limit, items - 1, t == 'd', start - 1, [])
    else if t == 'i' then
      var e := FindChar(s, start, 'e');
      if e == |s| then Failed(UnexpectedEof, e, IntAt(start, e - start)) else Parsed(IntAt(start, e - start), e + 1, items - 1)
    else if !IsDigit(t) then Failed(ExpectedValue, start, Empty)
    else
      var n := ParseInt(s, start, |s|, ':', DigitValue(t));
      if n.pos == -1 || n.pos + n.val + 1 > |s| || s[n.pos] != ':' then Failed(ExpectedColon, n.pos, Empty)
      else Parsed(TextAt(n.pos + 1, n.val), n.pos + 1 + n.val, items - 1)
  }

  /** The rest of a container that has `depth` entries on the stack and the children `done` so far. */
  function Kids(s: string, pos: nat, depth: nat, limit: int, items: int, dict: bool, begin: int, done: seq<Kid>): (o: Outcome)
    requires pos <= |s|
    ensures o.Parsed? ==> pos <= o.pos <= |s|
    decreases |s| - pos, 0
  {
    if pos == |s| then Cut(Unended(dict, begin, done))
    else if depth > limit then Failed(DepthExceeded, pos, Unended(dict, begin, WithoutLast(done)))
    else if pos + 1 >= |s| && s[pos] != 'e' then Failed(UnexpectedEof, pos + 1, Unended(dict, begin, WithoutLast(done)))
    else if s[pos] == 'e' then Parsed(Node(dict, begin, done, pos + 1), pos + 1, items)
    else
      match Key(s, pos, dict)
      case BadKey(code, at) => Failed(code, at, Unended(dict, begin, WithoutLast(done)))
      case GoodKey(name, value) =>
        match After(s, s[value], value + 1, depth + 1, limit, items)
        case Parsed(v, p, n) => Kids(s, p, depth, limit, n, dict, begin, done + [Kid(name, v)])
        case Cut(v) => Cut(Unended(dict, begin, done + [Kid(name, v)]))
        case Failed(code, at, _) => Failed(code, at, Unended(dict, begin, done))
  }

  /** A container in which something fails drops its last child: the one that failed, or when the container itself cannot go
      on, one that was read before. */
  function WithoutLast(done: seq<Kid>): seq<Kid> {
    if done == [] then [] else done[..|done| - 1]
  }

  /** Where a child's key and value start. */
  datatype KeyAt = GoodKey(name: nat, value: nat) | BadKey(code: Code, at: int)

  function Key(s: string, pos: nat, dict: bool): (k: KeyAt)
    requires pos + 1 < |s|
    ensures k.GoodKey? ==> pos <= k.value < |s|
    ensures k.GoodKey? && dict ==> pos < k.name <= k.value && k.value + 1 < |s|
  {
    if !dict then GoodKey(0, pos)
    else if !IsDigit(s[pos]) then BadKey(ExpectedString, pos + 1)
    else
      var n := ParseInt(s, pos + 1, |s|, ':', DigitValue(s[pos]));
      if n.pos == -1 || n.pos + n.val + 3 > |s| || s[n.pos] != ':' then BadKey(ExpectedColon, n.pos)
      else GoodKey(n.pos + 1, n.pos + 1 + n.val)
  }

  /** The whole input. */
  function Whole(s: string, limit: int, items: int): Outcome {
    if s == "" then Parsed(Empty, 0, items)
    else if 1 > limit then Failed(DepthExceeded, 0, Empty)
    else if |s| == 1 && s[0] != 'e' then Failed(UnexpectedEof, 1, Empty)
    else After(s, s[0], 1, 1, limit, items)
  }

  function Slice(s: string, from: int, end: int): string {
    if 0 <= from <= end <= |s| then s[from..end] else ""
  }

  /** The entry a decoded entry is assigned to: an ordinary entry for what stands in the input. */
  function ReadBack(s: string, x: Lazy): Option<Value>
    decreases x, 1
  {
    match x
    case Empty => None
    case IntAt(start, size) => if start + size <= |s| then Some(Integer(IntValue(s, start, size))) else None
    case TextAt(start, size) => Some(Text(Slice(s, start, start + size)))
    case Node(dict, _, kids, _) => Made(dict, ReadKids(s, dict, kids))
    case Unended(dict, _, kids) => Made(dict, ReadKids(s, dict, kids))
  }

  function ReadKid(s: string, kid: Kid): Option<Value>
    decreases kid
  {
    ReadBack(s, kid.val)
  }

  datatype PairsOption = Pairs(pairs: seq<Pair>) | NoPairs

  function Made(dict: bool, p: PairsOption): Option<Value> {
    if p.Pairs? then Some(Container(dict, p.pairs)) else None
  }

  function ReadKids(s: string, dict: bool, kids: seq<Kid>): PairsOption
    decreases kids, 0
  {
    if kids == [] then Pairs([])
    else
      var n := |kids| - 1;
      match (ReadKids(s, dict, kids[..n]), ReadKid(s, kids[n]))
      case (Pairs(before), Some(v)) =>
        if dict then Pairs(Insert(before, Slice(s, kids[n].name, Begin(kids[n].val)), v)) else Pairs(before + [Pair("", v)])
      case _ => NoPairs
  }

  /** Every container of the value fits the depth limit when the value is number `depth` on the stack. */
  ghost predicate Fits(v: Value, depth: nat, limit: int) {
    v.Container? ==> depth <= limit && forall k | 0 <= k < |v.kids| :: Fits(v.kids[k].val, depth + 1, limit)
  }

  /** The number of values in a value, itself included; keys do not count. */
  function Count(v: Value): (r: nat)
    ensures r >= 1
    decreases v
  {
    match v
    case Container(_, kids) => 1 + CountKids(kids)
    case _ => 1
  }

  function CountKids(kids: seq<Pair>): nat
    decreases kids
  {
    if kids == [] then 0 else Count(kids[0].val) + CountKids(kids[1..])
  }

  /** What the decoder should make of the text of a value at pos. */
  ghost predicate Reads(s: string, pos: nat, v: Value, o: Outcome, items: int) {
    && o.Parsed? && o.pos == pos + |Encoded(v)| && o.items == items - Count(v)
    && ReadBack(s, o.val) == Some(v) && Begin(o.val) == pos && Span(o.val) == |Encoded(v)|
  }

  ghost predicate Refused(o: Outcome) {
    o.Failed? && (o.code == DepthExceeded || o.code == LimitExceeded)
  }

  lemma FirstOf(s: string, pos: nat, w: string)
    requires At(s, pos, w) && w != ""
    ensures pos < |s| && s[pos] == w[0]
  {
    assert s[pos..pos + |w|][0] == w[0];
  }

  lemma PrintedSize(v: Value)
    requires Representable(v)
    ensures |Encoded(v)| >= 2
  {
  }

  /** A printed integer is read back, from wherever it stands. */
  lemma IntegerRead(s: string, pos: nat, i: int)
    requires At(s, pos, "i" + Printed(i) + "e")
    ensures FindChar(s, pos + 1, 'e') == pos + 1 + |Printed(i)|
    ensures pos + |Printed(i)| + 2 <= |s| && IntValue(s, pos + 1, |Printed(i)|) == i
  {
    var w := Printed(i);
    AtSplits(s, pos, "i" + w, "e");
    AtSplits(s, pos, "i", w);
    FirstOf(s, pos + 1 + |w|, "e");
    PrintedDigits(s, pos + 1, i);
    FindIs(s, pos + 1, pos + 1 + |w|, 'e');
    hide At, Printed;
    IntegerValue(s, pos + 1, i);
  }

  lemma PrintedDigits(s: string, pos: nat, i: int)
    requires At(s, pos, Printed(i))
    ensures forall k | pos <= k < pos + |Printed(i)| :: s[k] == '-' || IsDigit(s[k])
  {
    var w := Printed(i);
    assert forall k | 0 <= k < |w| :: s[pos + k] == s[pos..pos + |w|][k] == w[k];
    assert forall k | pos <= k < pos + |w| :: s[k] == w[k - pos];
  }

  lemma IntegerValue(s: string, pos: nat, i: int)
    requires At(s, pos, Printed(i))
    ensures pos + |Printed(i)| <= |s| && IntValue(s, pos, |Printed(i)|) == i
  {
    var w := Printed(i);
    FirstOf(s, pos, w);
    if i < 0 {
      AtSplits(s, pos, "-", Decimal(-i));
      ParseDecimal(s, pos + 1, pos + |w|, 'e', 0, -i);
    } else {
      ParseDecimal(s, pos, pos + |w|, 'e', 0, i);
    }
  }

  lemma {:induction false} FindIs(s: string, pos: nat, at: nat, c: char)
    requires pos <= at < |s| && s[at] == c && forall k | pos <= k < at :: s[k] != c
    ensures FindChar(s, pos, c) == at
    decreases at - pos
  {
    if pos < at { FindIs(s, pos + 1, at, c); }
  }

  /** A text is read back. */
  lemma TextRead(s: string, pos: nat, t: string)
    requires At(s, pos, Decimal(|t|) + ":" + t)
    ensures pos < |s| && IsDigit(s[pos])
    ensures ParseInt(s, pos + 1, |s|, ':', DigitValue(s[pos])) == Scan(pos + |Decimal(|t|)|, |t|)
    ensures pos + |Decimal(|t|)| + 1 + |t| <= |s| && s[pos + |Decimal(|t|)|] == ':'
    ensures Slice(s, pos + |Decimal(|t|)| + 1, pos + |Decimal(|t|)| + 1 + |t|) == t
  {
    AtSplits(s, pos, Decimal(|t|) + ":", t);
    ParseLength(s, pos, |t|);
  }

  /** A dictionary key is found by the start of its value. */
  lemma KeyRead(s: string, pos: nat, dict: bool, r: Pair, tail: string)
    requires At(s, pos, EncodedKey(dict, r.key) + (Encoded(r.val) + tail)) && |tail| >= 1 && Representable(r.val)
    ensures pos + 1 < |s| && s[pos] != 'e'
    ensures var k := Key(s, pos, dict); var value := pos + |EncodedKey(dict, r.key)|;
      && k.GoodKey? && k.value == value && At(s, value, Encoded(r.val)) && At(s, value + |Encoded(r.val)|, tail)
      && (dict ==> Slice(s, k.name, value) == r.key)
  {
    var value := pos + |EncodedKey(dict, r.key)|;
    AtSplits(s, pos, EncodedKey(dict, r.key), Encoded(r.val) + tail);
    AtSplits(s, value, Encoded(r.val), tail);
    PrintedSize(r.val);
    FirstOf(s, value, Encoded(r.val));
    FirstEncoded(r.val);
    hide Encoded, At, Representable;
    if dict { TextRead(s, pos, r.key); }
  }

  lemma FirstEncoded(v: Value)
    requires Representable(v)
    ensures Encoded(v) != "" && Encoded(v)[0] != 'e'
  {
  }

  /** The child just read joins the ones read before it; keys come in order, so an ordered map appends it. */
  lemma ReadMore(s: string, dict: bool, seen: seq<Pair>, rest: seq<Pair>, done: seq<Kid>, kid: Kid)
    requires rest != [] && Representable(Container(dict, seen + rest)) && ReadKids(s, dict, done) == Pairs(seen)
    requires ReadBack(s, kid.val) == Some(rest[0].val)
    requires dict ==> Slice(s, kid.name, Begin(kid.val)) == rest[0].key
    ensures ReadKids(s, dict, done + [kid]) == Pairs(seen + [rest[0]])
  {
    assert (done + [kid])[..|done|] == done;
    assert (seen + rest)[|seen|] == rest[0];
    if dict {
      forall k | 0 <= k < |seen|
        ensures Less(seen[k].key, rest[0].key)
      {
        assert (seen + rest)[k] == seen[k];
      }
      InsertLast(seen, rest[0].key, rest[0].val);
    }
  }

  /** What the decoder should make of the rest of a container. */
  ghost predicate ReadsKids(s: string, pos: nat, dict: bool, seen: seq<Pair>, rest: seq<Pair>, begin: int, o: Outcome,
                            items: int) {
    && o.Parsed? && o.val.Node? && o.val.dict == dict && o.val.begin == begin && o.val.end == o.pos
    && o.pos == pos + |EncodedKids(dict, rest)| + 1 && o.items == items - CountKids(rest)
    && ReadKids(s, dict, o.val.kids) == Pairs(seen + rest)
  }

  ghost predicate KidsFit(rest: seq<Pair>, depth: nat, limit: int) {
    depth <= limit && forall k | 0 <= k < |rest| :: Fits(rest[k].val, depth + 1, limit)
  }

  lemma IntegerLeaf(s: string, pos: nat, i: int, depth: nat, limit: int, items: int)
    requires At(s, pos, Encoded(Integer(i)))
    ensures pos < |s|
    ensures var o := After(s, s[pos], pos + 1, depth, limit, items);
      if 1 < items then Reads(s, pos, Integer(i), o, items) else Refused(o)
  {
    FirstOf(s, pos, Encoded(Integer(i)));
    IntegerRead(s, pos, i);
    assert |Encoded(Integer(i))| == |Printed(i)| + 2;
    hide IntValue, FindChar, Printed, ParseInt, At, Slice, Encoded;
  }

  lemma TextParsed(s: string, pos: nat, t: string, depth: nat, limit: int, items: int)
    requires At(s, pos, Decimal(|t|) + ":" + t)
    ensures pos < |s|
    ensures After(s, s[pos], pos + 1, depth, limit, items)
            == if items <= 1 then Failed(LimitExceeded, pos + 1, Empty)
               else Parsed(TextAt(pos + |Decimal(|t|)| + 1, |t|), pos + |Decimal(|t|)| + 1 + |t|, items - 1)
    ensures Slice(s, pos + |Decimal(|t|)| + 1, pos + |Decimal(|t|)| + 1 + |t|) == t
  {
    TextRead(s, pos, t);
    hide FindChar, ParseInt, At, Slice, Decimal, Kids;
  }

  lemma EncodedText(t: string)
    ensures Encoded(Text(t)) == Decimal(|t|) + ":" + t && |Encoded(Text(t))| == |Decimal(|t|)| + 1 + |t|
  {
    hide Decimal;
  }

  lemma TextReads(s: string, pos: nat, t: string, digits: nat, o: Outcome, items: int)
    requires o == Parsed(TextAt(pos + digits + 1, |t|), pos + digits + 1 + |t|, items - 1)
    requires Slice(s, pos + digits + 1, pos + digits + 1 + |t|) == t && digits == |Decimal(|t|)|
    requires |Encoded(Text(t))| == digits + 1 + |t|
    ensures Reads(s, pos, Text(t), o, items)
  {
    hide Decimal, Encoded, Slice;
  }

  lemma TextLeaf(s: string, pos: nat, t: string, depth: nat, limit: int, items: int)
    requires At(s, pos, Encoded(Text(t)))
    ensures pos < |s|
    ensures var o := After(s, s[pos], pos + 1, depth, limit, items);
      if 1 < items then Reads(s, pos, Text(t), o, items) else Refused(o)
  {
    hide *;
    EncodedText(t);
    TextParsed(s, pos, t, depth, limit, items);
    if 1 < items {
      TextReads(s, pos, t, |Decimal(|t|)|, After(s, s[pos], pos + 1, depth, limit, items), items);
    } else {
      ContainerRefused(items, pos + 1);
    }
  }

  lemma LeafEncoded(s: string, pos: nat, v: Value, depth: nat, limit: int, items: int)
    requires Representable(v) && At(s, pos, Encoded(v)) && !v.Container?
    ensures pos < |s|
    ensures var o := After(s, s[pos], pos + 1, depth, limit, items);
      if 1 < items then Reads(s, pos, v, o, items) else Refused(o)
  {
    hide *;
    match v {
      case Integer(i) => IntegerLeaf(s, pos, i, depth, limit, items);
      case Text(t) => TextLeaf(s, pos, t, depth, limit, items);
    }
  }

  lemma ContainerHead(s: string, pos: nat, dict: bool, kids: seq<Pair>)
    requires At(s, pos, Encoded(Container(dict, kids)))
    ensures pos < |s| && s[pos] == (if dict then 'd' else 'l')
    ensures At(s, pos + 1, EncodedKids(dict, kids) + "e")
  {
    var head := if dict then "d" else "l";
    assert Encoded(Container(dict, kids)) == head + (EncodedKids(dict, kids) + "e");
    AtSplits(s, pos, head, EncodedKids(dict, kids) + "e");
    FirstOf(s, pos, head);
  }

  lemma ContainerStart(s: string, dict: bool, start: nat, depth: nat, limit: int, items: int)
    requires start <= |s|
    ensures After(s, if dict then 'd' else 'l', start, depth, limit, items)
            == if items - 1 <= 0 then Failed(LimitExceeded, start, Empty)
               else Kids(s, start, depth, limit, items - 1, dict, start - 1, [])
    ensures ReadKids(s, dict, []) == Pairs([])
  {
  }

  lemma LeafFits(v: Value, depth: nat, limit: int)
    ensures !v.Container? ==> Fits(v, depth, limit) && Count(v) == 1
  {
  }

  lemma ContainerRefused(items: int, start: nat)
    requires items <= 1
    ensures Refused(Failed(LimitExceeded, start, Empty))
  {
  }

  lemma ContainerDone(s: string, pos: nat, dict: bool, kids: seq<Pair>, o: Outcome, items: int)
    requires ReadsKids(s, pos + 1, dict, [], kids, pos, o, items - 1)
    ensures Reads(s, pos, Container(dict, kids), o, items)
  {
    assert [] + kids == kids;
  }

  lemma ContainerFits(dict: bool, kids: seq<Pair>, depth: nat, limit: int)
    ensures Fits(Container(dict, kids), depth, limit) <==> KidsFit(kids, depth, limit)
    ensures Count(Container(dict, kids)) == 1 + CountKids(kids)
  {
  }

  /** Decoding the canonical text of a value gives the value back, exactly when it keeps to the limits; otherwise
      the decoder refuses it. */
  lemma {:induction false} AfterEncoded(s: string, pos: nat, v: Value, depth: nat, limit: int, items: int)
    requires Representable(v) && At(s, pos, Encoded(v))
    ensures pos < |s|
    ensures var o := After(s, s[pos], pos + 1, depth, limit, items);
      if Fits(v, depth, limit) && Count(v) < items then Reads(s, pos, v, o, items) else Refused(o)
    decreases v, 1
  {
    hide *;
    LeafFits(v, depth, limit);
    if !v.Container? {
      LeafEncoded(s, pos, v, depth, limit, items);
    } else {
      var dict, kids := v.dict, v.kids;
      ContainerHead(s, pos, dict, kids);
      ContainerStart(s, dict, pos + 1, depth, limit, items);
      ContainerFits(dict, kids, depth, limit);
      assert [] + kids == kids;
      if items > 1 {
        KidsEncoded(s, pos + 1, dict, [], kids, depth, limit, items - 1, pos, []);
        var o := After(s, s[pos], pos + 1, depth, limit, items);
        if Fits(v, depth, limit) && Count(v) < items {
          ContainerDone(s, pos, dict, kids, o, items);
        }
      } else {
        ContainerRefused(items, pos + 1);
      }
    }
  }

  /** One more child of a container. */
  lemma KidsStep(s: string, pos: nat, dict: bool, name: nat, value: nat, depth: nat, limit: int, items: int, begin: int,
                 done: seq<Kid>)
    requires pos + 1 < |s| && s[pos] != 'e' && depth <= limit && Key(s, pos, dict) == GoodKey(name, value)
    ensures Kids(s, pos, depth, limit, items, dict, begin, done)
            == match After(s, s[value], value + 1, depth + 1, limit, items)
               case Parsed(v, p, n) => Kids(s, p, depth, limit, n, dict, begin, done + [Kid(name, v)])
               case Cut(v) => Cut(Unended(dict, begin, done + [Kid(name, v)]))
               case Failed(code, at, _) => Failed(code, at, Unended(dict, begin, done))
  {
  }

  lemma KidsEnd(s: string, pos: nat, dict: bool, seen: seq<Pair>, depth: nat, limit: int, items: int, begin: int, done: seq<Kid>)
    requires At(s, pos, EncodedKids(dict, []) + "e") && ReadKids(s, dict, done) == Pairs(seen)
    ensures pos < |s|
    ensures var o := Kids(s, pos, depth, limit, items, dict, begin, done);
      if depth <= limit then ReadsKids(s, pos, dict, seen, [], begin, o, items) else Refused(o)
  {
    FirstOf(s, pos, "e");
    assert seen + [] == seen;
  }

  lemma KidsTooDeep(s: string, pos: nat, dict: bool, depth: nat, limit: int, items: int, begin: int, done: seq<Kid>)
    requires pos < |s| && depth > limit
    ensures Refused(Kids(s, pos, depth, limit, items, dict, begin, done))
  {
  }

  lemma RestFits(rest: seq<Pair>, depth: nat, limit: int)
    requires rest != []
    ensures KidsFit(rest, depth, limit) <==> depth <= limit && Fits(rest[0].val, depth + 1, limit) && KidsFit(rest[1..], depth, limit)
    ensures CountKids(rest) == Count(rest[0].val) + CountKids(rest[1..])
  {
    assert forall k | 0 <= k < |rest[1..]| :: rest[1..][k] == rest[k + 1];
    hide Fits;
  }

  lemma RestText(dict: bool, rest: seq<Pair>)
    requires rest != []
    ensures EncodedKids(dict, rest) == EncodedKey(dict, rest[0].key) + Encoded(rest[0].val) + EncodedKids(dict, rest[1..])
    ensures EncodedKids(dict, rest) + "e"
            == EncodedKey(dict, rest[0].key) + (Encoded(rest[0].val) + (EncodedKids(dict, rest[1..]) + "e"))
  {
    var a, b, c := EncodedKey(dict, rest[0].key), Encoded(rest[0].val), EncodedKids(dict, rest[1..]);
    assert EncodedKids(dict, rest) == a + b + c;
    hide EncodedKey, Encoded, EncodedKids;
    Associate(a, b, c, "e");
  }

  lemma SeenSplits(seen: seq<Pair>, rest: seq<Pair>)
    requires rest != []
    ensures seen + [rest[0]] + rest[1..] == seen + rest
  {
  }

  lemma RestLength(dict: bool, rest: seq<Pair>)
    requires rest != []
    ensures |EncodedKids(dict, rest)| == |EncodedKey(dict, rest[0].key)| + |Encoded(rest[0].val)| + |EncodedKids(dict, rest[1..])|
  {
    hide EncodedKey, Encoded;
  }

  lemma Associate(a: string, b: string, c: string, d: string)
    ensures a + b + c + d == a + (b + (c + d))
  {
  }

  /** The first child and the rest read: the container is read. */
  lemma KidsJoin(s: string, pos: nat, value: nat, dict: bool, seen: seq<Pair>, rest: seq<Pair>, begin: int, first: Outcome,
                 o: Outcome, items: int)
    requires rest != [] && value == pos + |EncodedKey(dict, rest[0].key)|
    requires Reads(s, value, rest[0].val, first, items)
    requires ReadsKids(s, first.pos, dict, seen + [rest[0]], rest[1..], begin, o, first.items)
    ensures ReadsKids(s, pos, dict, seen, rest, begin, o, items)
  {
    SeenSplits(seen, rest);
    hide EncodedKids, EncodedKey, Encoded, CountKids, Count, Fits, KidsFit, ReadKids, ReadBack, Begin, Span;
    RestLength(dict, rest);
    RestFits(rest, 0, 0);
  }

  lemma ReadsFacts(s: string, pos: nat, v: Value, o: Outcome, items: int)
    requires Reads(s, pos, v, o, items)
    ensures o.Parsed? && o.pos == pos + |Encoded(v)| && o.items == items - Count(v)
    ensures ReadBack(s, o.val) == Some(v) && Begin(o.val) == pos
  {
  }

  lemma FirstOk(dict: bool, seen: seq<Pair>, rest: seq<Pair>)
    requires rest != [] && Representable(Container(dict, seen + rest))
    ensures Representable(rest[0].val) && (!dict ==> rest[0].key == "")
    ensures (seen + [rest[0]]) + rest[1..] == seen + rest
  {
    assert (seen + rest)[|seen|] == rest[0];
  }

  /** Where the first of the remaining children stands. */
  lemma FirstStands(s: string, pos: nat, dict: bool, seen: seq<Pair>, rest: seq<Pair>)
    requires rest != [] && Representable(Container(dict, seen + rest)) && At(s, pos, EncodedKids(dict, rest) + "e")
    ensures pos + 1 < |s| && s[pos] != 'e' && Representable(rest[0].val) && (seen + [rest[0]]) + rest[1..] == seen + rest
    ensures var k := Key(s, pos, dict); var value := pos + |EncodedKey(dict, rest[0].key)|;
      && k.GoodKey? && k.value == value && (dict ==> Slice(s, k.name, value) == rest[0].key)
      && At(s, value, Encoded(rest[0].val))
      && At(s, value + |Encoded(rest[0].val)|, EncodedKids(dict, rest[1..]) + "e")
  {
    hide *;
    FirstOk(dict, seen, rest);
    RestText(dict, rest);
    KeyRead(s, pos, dict, rest[0], EncodedKids(dict, rest[1..]) + "e");
  }

  /** Reading the first of the remaining children leaves the text of the others. */
  ghost predicate FirstJoined(s: string, pos: nat, dict: bool, seen: seq<Pair>, rest: seq<Pair>, depth: nat, limit: int,
                              items: int, begin: int, done: seq<Kid>, o: Outcome, kid: Kid)
    requires rest != []
  {
    && pos <= |s| && o.Parsed? && o.pos <= |s| && o.items == items - Count(rest[0].val)
    && At(s, o.pos, EncodedKids(dict, rest[1..]) + "e")
    && ReadKids(s, dict, done + [kid]) == Pairs(seen + [rest[0]])
    && Kids(s, pos, depth, limit, items, dict, begin, done)
       == Kids(s, o.pos, depth, limit, o.items, dict, begin, done + [kid])
  }

  lemma FirstReads(s: string, pos: nat, dict: bool, seen: seq<Pair>, rest: seq<Pair>, depth: nat, limit: int, items: int,
                   begin: int, done: seq<Kid>, value: nat, o: Outcome, name: nat)
    requires rest != [] && Representable(Container(dict, seen + rest)) && At(s, pos, EncodedKids(dict, rest) + "e")
    requires ReadKids(s, dict, done) == Pairs(seen) && depth <= limit
    requires value == pos + |EncodedKey(dict, rest[0].key)| < |s|
    requires pos + 1 < |s| && Key(s, pos, dict) == GoodKey(name, value)
    requires o == After(s, s[value], value + 1, depth + 1, limit, items)
    ensures Reads(s, value, rest[0].val, o, items) ==>
              o.Parsed? && FirstJoined(s, pos, dict, seen, rest, depth, limit, items, begin, done, o, Kid(name, o.val))
    ensures Refused(o) ==> Refused(Kids(s, pos, depth, limit, items, dict, begin, done))
  {
    hide After, Kids, Key, Representable, Encoded, EncodedKids, EncodedKey, ReadKids, ReadBack, Slice, Begin, Span, At, Count;
    FirstStands(s, pos, dict, seen, rest);
    KidsStep(s, pos, dict, name, value, depth, limit, items, begin, done);
    if Reads(s, value, rest[0].val, o, items) {
      ReadsFacts(s, value, rest[0].val, o, items);
      ReadMore(s, dict, seen, rest, done, Kid(name, o.val));
    }
  }

  lemma {:induction false} KidsEncoded(s: string, pos: nat, dict: bool, seen: seq<Pair>, rest: seq<Pair>, depth: nat,
                                       limit: int, items: int, begin: nat, done: seq<Kid>)
    requires Representable(Container(dict, seen + rest)) && At(s, pos, EncodedKids(dict, rest) + "e") && items >= 1
    requires ReadKids(s, dict, done) == Pairs(seen)
    ensures pos < |s|
    ensures var o := Kids(s, pos, depth, limit, items, dict, begin, done);
      if KidsFit(rest, depth, limit) && CountKids(rest) < items
      then ReadsKids(s, pos, dict, seen, rest, begin, o, items)
      else Refused(o)
    decreases rest, 0
  {
    hide *;
    if rest == [] {
      KidsEnd(s, pos, dict, seen, depth, limit, items, begin, done);
      NoKids(depth, limit);
    } else {
      var r, rest' := rest[0], rest[1..];
      RestFits(rest, depth, limit);
      FirstStands(s, pos, dict, seen, rest);
      var value := pos + |EncodedKey(dict, r.key)|;
      if depth > limit {
        KidsTooDeep(s, pos, dict, depth, limit, items, begin, done);
      } else {
        AfterEncoded(s, value, r.val, depth + 1, limit, items);
        var o := After(s, s[value], value + 1, depth + 1, limit, items);
        var name := Key(s, pos, dict).name;
        FirstReads(s, pos, dict, seen, rest, depth, limit, items, begin, done, value, o, name);
        if Fits(r.val, depth + 1, limit) && Count(r.val) < items {
          FirstJoins(s, pos, dict, seen, rest, depth, limit, items, begin, done, o, Kid(name, o.val));
          KidsEncoded(s, o.pos, dict, seen + [r], rest', depth, limit, o.items, begin, done + [Kid(name, o.val)]);
          if KidsFit(rest', depth, limit) && CountKids(rest') < o.items {
            KidsJoin(s, pos, value, dict, seen, rest, begin, o,
                     Kids(s, pos, depth, limit, items, dict, begin, done), items);
          }
        }
      }
    }
  }

  lemma FirstJoins(s: string, pos: nat, dict: bool, seen: seq<Pair>, rest: seq<Pair>, depth: nat, limit: int,
                   items: int, begin: int, done: seq<Kid>, o: Outcome, kid: Kid)
    requires rest != [] && o.Parsed? && FirstJoined(s, pos, dict, seen, rest, depth, limit, items, begin, done, o, kid)
    ensures pos <= |s| && o.pos <= |s| && o.items == items - Count(rest[0].val)
    ensures At(s, o.pos, EncodedKids(dict, rest[1..]) + "e")
    ensures ReadKids(s, dict, done + [kid]) == Pairs(seen + [rest[0]])
    ensures Kids(s, pos, depth, limit, items, dict, begin, done)
            == Kids(s, o.pos, depth, limit, o.items, dict, begin, done + [kid])
  {
  }

  lemma NoKids(depth: nat, limit: int)
    ensures KidsFit([], depth, limit) <==> depth <= limit
    ensures CountKids([]) == 0
  {
  }

  /** The decoder inverts the encoder, whatever follows the text: every value within the limits reads back as itself
      and its own text is the section of the input it reports. Beyond the limits the input is refused. */
  lemma DecodeInvertsEncode(v: Value, rest: string, limit: int, items: int)
    requires Representable(v)
    ensures var s := Encoded(v) + rest; var o := Whole(s, limit, items);
      if limit >= 1 && Fits(v, 1, limit) && Count(v) < items
      then Reads(s, 0, v, o, items) && Slice(s, Begin(o.val), Begin(o.val) + Span(o.val)) == Encoded(v)
      else Refused(o)
  {
    var s := Encoded(v) + rest;
    PrintedSize(v);
    hide Encoded, Reads, Fits, After;
    assert s[0..|Encoded(v)|] == Encoded(v);
    AfterEncoded(s, 0, v, 1, limit, items);
    if limit >= 1 && Fits(v, 1, limit) && Count(v) < items {
      SectionIs(s, v, Whole(s, limit, items), items);
    }
  }

  lemma SectionIs(s: string, v: Value, o: Outcome, items: int)
    requires Reads(s, 0, v, o, items) && At(s, 0, Encoded(v))
    ensures Slice(s, Begin(o.val), Begin(o.val) + Span(o.val)) == Encoded(v)
  {
  }
}
