/** What the bencode decoder makes of an input that was cut off. */
module BdecodeCuts {
  import opened Common
  import opened Bencode
  import opened BdecodeGrammar

  /** The first n characters of a container's text end right behind a child, of the container or of one inside it. */
  predicate BehindChild(v: Value, n: int)
    decreases v
  {
    v.Container? && n >= 1 && BehindKid(v.dict, v.kids, n - 1)
  }

  /** The same for the text of children one after the other. */
  predicate BehindKid(dict: bool, kids: seq<Pair>, n: int)
    decreases kids
  {
    kids != []
    && var key := |EncodedKey(dict, kids[0].key)|;
       var end := key + |Encoded(kids[0].val)|;
       if n < end then BehindChild(kids[0].val, n - key) else n == end || BehindKid(dict, kids[1..], n - end)
  }

  /** What is left of a value whose text ends after n characters, right behind a child: its children so far, the last of
      them cut in turn. */
  function CutValue(v: Value, n: int): Value
    decreases v
  {
    if v.Container? then Container(v.dict, CutPairs(v.dict, v.kids, n - 1)) else v
  }

  function CutPairs(dict: bool, kids: seq<Pair>, n: int): seq<Pair>
    decreases kids
  {
    if kids == [] then []
    else
      var key := |EncodedKey(dict, kids[0].key)|;
      var end := key + |Encoded(kids[0].val)|;
      if n < end then [Pair(kids[0].key, CutValue(kids[0].val, n - key))]
      else if n == end then [kids[0]]
      else [kids[0]] + CutPairs(dict, kids[1..], n - end)
  }

  /** s ends inside the text w that begins at pos. */
  ghost predicate EndsIn(s: string, pos: nat, w: string) {
    pos <= |s| < pos + |w| && s[pos..] == w[..|s| - pos]
  }

  lemma EndsSplits(s: string, pos: nat, a: string, b: string)
    requires EndsIn(s, pos, a + b)
    ensures if |s| < pos + |a| then EndsIn(s, pos, a) else At(s, pos, a) && EndsIn(s, pos + |a|, b)
  {
    var n := |s| - pos;
    if n < |a| {
      assert (a + b)[..n] == a[..n];
    } else {
      assert s[pos..pos + |a|] == s[pos..][..|a|] == (a + b)[..n][..|a|] == a;
      assert s[pos + |a|..] == s[pos..][|a|..] == (a + b)[..n][|a|..] == b[..n - |a|];
    }
  }

  lemma FirstIn(s: string, pos: nat, w: string)
    requires EndsIn(s, pos, w)
    ensures forall k | 0 <= k < |s| - pos :: s[pos + k] == w[k]
  {
    forall k | 0 <= k < |s| - pos
      ensures s[pos + k] == w[k]
    {
      assert s[pos + k] == s[pos..][k] == w[..|s| - pos][k];
    }
  }

  /** Digits up to the end of the input: no delimiter is found. */
  lemma {:induction false} DigitsOnly(s: string, pos: nat, delimiter: char, val: int)
    requires pos <= |s| && !IsDigit(delimiter) && forall k | pos <= k < |s| :: IsDigit(s[k])
    ensures ParseInt(s, pos, |s|, delimiter, val).pos == |s|
    decreases |s| - pos
  {
    if pos < |s| {
      DigitsOnly(s, pos + 1, delimiter, val * 10 + DigitValue(s[pos]));
    }
  }

  /** What stands at pos or ends in w there is made of the characters of w. */
  lemma CharsOf(s: string, pos: nat, w: string)
    requires EndsIn(s, pos, w) || At(s, pos, w)
    ensures forall k | pos <= k < |s| && k < pos + |w| :: s[k] == w[k - pos]
  {
    if EndsIn(s, pos, w) {
      FirstIn(s, pos, w);
      forall k | pos <= k < |s|
        ensures s[k] == w[k - pos]
      {
        assert s[pos + (k - pos)] == w[k - pos];
      }
    } else {
      assert forall k | pos <= k < pos + |w| :: s[k] == s[pos..pos + |w|][k - pos];
    }
  }

  lemma AllDigits(s: string, pos: nat, w: string)
    requires pos < |s| <= pos + |w| && (forall k | 0 <= k < |w| :: IsDigit(w[k]))
    requires forall k | pos <= k < |s| && k < pos + |w| :: s[k] == w[k - pos]
    ensures forall k | pos <= k < |s| :: IsDigit(s[k])
  {
  }

  /** A text of which something is missing: either its colon is, or it would reach beyond the end. */
  lemma DigitsCut(s: string, pos: nat, digits: string)
    requires (EndsIn(s, pos, digits) || At(s, pos, digits)) && pos < |s| && |digits| > 0
    requires forall k | 0 <= k < |digits| :: IsDigit(digits[k])
    ensures IsDigit(s[pos])
    ensures |s| <= pos + |digits| ==> ParseInt(s, pos + 1, |s|, ':', DigitValue(s[pos])).pos == |s|
    ensures |s| <= pos + |digits| ==> ParseInt(s, pos + 1, |s|, ':', DigitValue(s[pos])).val >= 0
  {
    hide ParseInt, At, EndsIn;
    CharsOf(s, pos, digits);
    if |s| <= pos + |digits| {
      AllDigits(s, pos, digits);
      DigitsOnly(s, pos + 1, ':', DigitValue(s[pos]));
    }
  }

  lemma EndsInside(s: string, pos: nat, w: string)
    requires EndsIn(s, pos, w)
    ensures pos <= |s| < pos + |w|
  {
  }

  lemma LengthCut(s: string, pos: nat, t: string)
    requires EndsIn(s, pos, Decimal(|t|) + ":" + t) && pos < |s|
    ensures IsDigit(s[pos])
    ensures var n := ParseInt(s, pos + 1, |s|, ':', DigitValue(s[pos])); n.pos == -1 || n.pos + n.val + 1 > |s|
  {
    hide *;
    var digits := Decimal(|t|);
    assert digits + ":" + t == digits + (":" + t);
    EndsSplits(s, pos, digits, ":" + t);
    DigitsCut(s, pos, digits);
    if |s| > pos + |digits| {
      EndsSplits(s, pos, digits + ":", t);
      EndsInside(s, pos, digits + ":" + t);
      ParseLength(s, pos, |t|);
    }
  }

  lemma TextCut(s: string, pos: nat, t: string, depth: nat, limit: int, items: int)
    requires EndsIn(s, pos, Encoded(Text(t))) && pos < |s|
    ensures After(s, s[pos], pos + 1, depth, limit, items).Failed?
  {
    LengthCut(s, pos, t);
    hide ParseInt, FindChar, Kids, EndsIn, Decimal;
  }

  lemma IntegerCut(s: string, pos: nat, i: int, depth: nat, limit: int, items: int)
    requires EndsIn(s, pos, Encoded(Integer(i))) && pos < |s|
    ensures After(s, s[pos], pos + 1, depth, limit, items).Failed?
  {
    var w := Printed(i);
    FirstIn(s, pos, "i" + w + "e");
    hide EndsIn;
    assert s[pos] == 'i';
    forall k | pos < k < |s|
      ensures s[k] != 'e'
    {
      assert s[k] == ("i" + w + "e")[k - pos] == w[k - pos - 1];
    }
    NoneFound(s, pos + 1, 'e');
    hide FindChar, Kids, ParseInt, Printed;
  }

  lemma {:induction false} NoneFound(s: string, pos: nat, c: char)
    requires pos <= |s| && forall k | pos <= k < |s| :: s[k] != c
    ensures FindChar(s, pos, c) == |s|
    decreases |s| - pos
  {
    if pos < |s| { NoneFound(s, pos + 1, c); }
  }

  /** A key behind which fewer than two characters are left. */
  lemma KeyCut(s: string, pos: nat, key: string)
    requires pos + 1 < |s|
    requires EndsIn(s, pos, EncodedKey(true, key))
             || (At(s, pos, EncodedKey(true, key)) && |s| < pos + |EncodedKey(true, key)| + 2)
    ensures Key(s, pos, true).BadKey?
  {
    if EndsIn(s, pos, EncodedKey(true, key)) {
      LengthCut(s, pos, key);
    } else {
      TextRead(s, pos, key);
    }
    hide ParseInt, EndsIn, At, Decimal;
  }

  /** A key with at least two characters behind it. */
  lemma KeyStands(s: string, pos: nat, dict: bool, key: string)
    requires At(s, pos, EncodedKey(dict, key)) && pos + |EncodedKey(dict, key)| + 2 <= |s|
    ensures Key(s, pos, dict).GoodKey? && Key(s, pos, dict).value == pos + |EncodedKey(dict, key)|
    ensures dict ==> Slice(s, Key(s, pos, dict).name, Key(s, pos, dict).value) == key
  {
    if dict { TextRead(s, pos, key); }
    hide ParseInt, At, Decimal;
  }

  /** A value of which something is missing: reading it ends the input right behind a child, or fails. */
  lemma {:induction false} CutAfter(s: string, pos: nat, v: Value, depth: nat, limit: int, items: int)
    requires Representable(v) && Fits(v, depth, limit) && Count(v) < items
    requires EndsIn(s, pos, Encoded(v)) && pos + 2 <= |s|
    ensures var o := After(s, s[pos], pos + 1, depth, limit, items);
      if BehindChild(v, |s| - pos) then CutReads(s, pos, CutValue(v, |s| - pos), o) else o.Failed?
    decreases v, 1
  {
    hide *;
    match v
    case Integer(i) =>
      IntegerCut(s, pos, i, depth, limit, items);
      LeafHasNone(v, |s| - pos);
    case Text(t) =>
      TextCut(s, pos, t, depth, limit, items);
      LeafHasNone(v, |s| - pos);
    case Container(dict, kids) =>
      CutContainer(s, pos, dict, kids, depth, limit, items);
      NoneSeen(s, dict, kids);
      CutKids(s, pos + 1, dict, [], kids, depth, limit, items - 1, pos, []);
      CutOpen(s, pos, dict, kids);
      ContainerCut(s, pos, dict, kids, After(s, s[pos], pos + 1, depth, limit, items));
  }

  /** The entry left at pos is assigned as this value. */
  ghost predicate CutReads(s: string, pos: nat, v: Value, o: Outcome) {
    o.Cut? && ReadBack(s, o.left) == Some(v) && Begin(o.left) == pos
  }

  /** The container left has the children seen before, and what is left of the rest. */
  ghost predicate CutReadsKids(s: string, dict: bool, all: seq<Pair>, begin: int, o: Outcome) {
    && o.Cut? && o.left.Unended? && o.left.dict == dict && o.left.begin == begin && ReadKids(s, dict, o.left.kids) == Pairs(all)
  }

  lemma NoneSeen(s: string, dict: bool, kids: seq<Pair>)
    ensures [] + kids == kids && ReadKids(s, dict, []) == Pairs([])
  {
  }

  lemma ContainerCut(s: string, pos: nat, dict: bool, kids: seq<Pair>, o: Outcome)
    ensures CutReadsKids(s, dict, [] + CutPairs(dict, kids, |s| - (pos + 1)), pos, o) ==>
              CutReads(s, pos, CutValue(Container(dict, kids), |s| - pos), o)
  {
    hide CutPairs;
    assert [] + CutPairs(dict, kids, |s| - (pos + 1)) == CutPairs(dict, kids, |s| - (pos + 1));
  }

  /** What reading a cut container starts with. */
  lemma CutContainer(s: string, pos: nat, dict: bool, kids: seq<Pair>, depth: nat, limit: int, items: int)
    requires Representable(Container(dict, kids)) && Fits(Container(dict, kids), depth, limit) && Count(Container(dict, kids)) < items
    requires EndsIn(s, pos, Encoded(Container(dict, kids))) && pos < |s|
    ensures After(s, s[pos], pos + 1, depth, limit, items) == Kids(s, pos + 1, depth, limit, items - 1, dict, pos, [])
    ensures EndsIn(s, pos + 1, EncodedKids(dict, kids) + "e") && KidsFit(kids, depth, limit) && CountKids(kids) < items - 1
  {
    hide *;
    ContainerText(dict, kids);
    var a: string := if dict then "d" else "l";
    EndsSplits(s, pos, a, EncodedKids(dict, kids) + "e");
    CharsOf(s, pos, a);
    OpenFits(dict, kids, depth, limit);
    OpenReads(s, pos, dict, depth, limit, items);
  }

  lemma ContainerText(dict: bool, kids: seq<Pair>)
    ensures Encoded(Container(dict, kids)) == (if dict then "d" else "l") + (EncodedKids(dict, kids) + "e")
  {
    hide EncodedKids;
  }

  lemma OpenFits(dict: bool, kids: seq<Pair>, depth: nat, limit: int)
    ensures Fits(Container(dict, kids), depth, limit) ==> KidsFit(kids, depth, limit)
    ensures Count(Container(dict, kids)) == 1 + CountKids(kids)
  {
    hide CountKids;
  }

  lemma OpenReads(s: string, pos: nat, dict: bool, depth: nat, limit: int, items: int)
    requires pos < |s| && s[pos] == (if dict then 'd' else 'l') && items > 1
    ensures After(s, s[pos], pos + 1, depth, limit, items) == Kids(s, pos + 1, depth, limit, items - 1, dict, pos, [])
  {
    hide Kids, ParseInt, FindChar;
  }

  /** The children of a container that an entry can hold. */
  ghost predicate KidsOk(dict: bool, kids: seq<Pair>) {
    forall k | 0 <= k < |kids| :: Representable(kids[k].val) && (!dict ==> kids[k].key == "")
  }

  lemma LeafHasNone(v: Value, n: int)
    requires !v.Container?
    ensures !BehindChild(v, n)
  {
  }

  lemma CutOpen(s: string, pos: nat, dict: bool, kids: seq<Pair>)
    requires pos < |s|
    ensures BehindChild(Container(dict, kids), |s| - pos) <==> BehindKid(dict, kids, |s| - (pos + 1))
  {
    hide BehindKid;
  }

  lemma {:induction false} CutKids(s: string, pos: nat, dict: bool, seen: seq<Pair>, rest: seq<Pair>, depth: nat, limit: int,
                                   items: int, begin: int, done: seq<Kid>)
    requires Representable(Container(dict, seen + rest)) && KidsFit(rest, depth, limit) && CountKids(rest) < items
    requires EndsIn(s, pos, EncodedKids(dict, rest) + "e") && pos < |s| && ReadKids(s, dict, done) == Pairs(seen)
    ensures var o := Kids(s, pos, depth, limit, items, dict, begin, done);
      if BehindKid(dict, rest, |s| - pos) then CutReadsKids(s, dict, seen + CutPairs(dict, rest, |s| - pos), begin, o)
      else o.Failed?
    decreases rest, 0
  {
    hide *;
    NotEmpty(s, pos, dict, rest);
    var r, rest' := rest[0], rest[1..];
    RestFits(rest, depth, limit);
    RestOk(dict, seen, rest);
    RestText(dict, rest);
    var key, text := EncodedKey(dict, r.key), Encoded(r.val);
    var value, end := pos + |key|, pos + |key| + |text|;
    EndsSplits(s, pos, key, text + (EncodedKids(dict, rest') + "e"));
    BehindSplits(dict, rest, |s| - pos);
    PairsSplit(dict, seen, rest, |s| - pos);
    FirstIsNotE(s, pos, dict, rest);
    if |s| < value + 2 {
      PairCut(s, pos, dict, r, depth, limit, items, begin, done);
    } else {
      KeyStands(s, pos, dict, r.key);
      EndsSplits(s, value, text, EncodedKids(dict, rest') + "e");
      var name := Key(s, pos, dict).name;
      KidsStep(s, pos, dict, name, value, depth, limit, items, begin, done);
      var o := After(s, s[value], value + 1, depth + 1, limit, items);
      if |s| < end {
        CutAfter(s, value, r.val, depth + 1, limit, items);
        if BehindKid(dict, rest, |s| - pos) {
          CutMore(s, value, dict, seen, rest, done, name, CutValue(r.val, |s| - value), begin, o);
        }
      } else {
        AfterEncoded(s, value, r.val, depth + 1, limit, items);
        ReadsFacts(s, value, r.val, o, items);
        ReadMore(s, dict, seen, rest, done, Kid(name, o.val));
        if |s| == end {
          CutHere(s, depth, limit, o.items, dict, begin, done + [Kid(name, o.val)]);
          LeftIs(s, dict, seen + [r], begin, done + [Kid(name, o.val)]);
        } else {
          CutKids(s, end, dict, seen + [r], rest', depth, limit, o.items, begin, done + [Kid(name, o.val)]);
        }
      }
    }
  }

  lemma LeftIs(s: string, dict: bool, seen: seq<Pair>, begin: int, done: seq<Kid>)
    requires ReadKids(s, dict, done) == Pairs(seen)
    ensures CutReadsKids(s, dict, seen, begin, Cut(Unended(dict, begin, done)))
  {
  }

  /** The last child is cut itself. */
  lemma CutMore(s: string, value: nat, dict: bool, seen: seq<Pair>, rest: seq<Pair>, done: seq<Kid>, name: nat, v: Value, begin: int,
                o: Outcome)
    requires rest != [] && Representable(Container(dict, seen + rest)) && ReadKids(s, dict, done) == Pairs(seen)
    requires CutReads(s, value, v, o) && (dict ==> Slice(s, name, value) == rest[0].key)
    ensures o.Cut?
    ensures CutReadsKids(s, dict, seen + [Pair(rest[0].key, v)], begin, Cut(Unended(dict, begin, done + [Kid(name, o.left)])))
  {
    var kid := Kid(name, o.left);
    assert (done + [kid])[..|done|] == done;
    assert (seen + rest)[|seen|] == rest[0];
    if dict {
      forall k | 0 <= k < |seen|
        ensures Less(seen[k].key, rest[0].key)
      {
        assert (seen + rest)[k] == seen[k];
      }
      InsertLast(seen, rest[0].key, v);
    }
  }

  /** What is left of the rest after n characters, by where they end. */
  lemma PairsSplit(dict: bool, seen: seq<Pair>, rest: seq<Pair>, n: int)
    requires rest != []
    ensures var key := |EncodedKey(dict, rest[0].key)|; var end := key + |Encoded(rest[0].val)|;
      && (n < end ==> CutPairs(dict, rest, n) == [Pair(rest[0].key, CutValue(rest[0].val, n - key))])
      && (n == end ==> CutPairs(dict, rest, n) == [rest[0]])
      && (n > end ==> seen + CutPairs(dict, rest, n) == (seen + [rest[0]]) + CutPairs(dict, rest[1..], n - end))
  {
    hide CutValue, Encoded, EncodedKey;
  }

  lemma NotEmpty(s: string, pos: nat, dict: bool, rest: seq<Pair>)
    requires EndsIn(s, pos, EncodedKids(dict, rest) + "e") && pos < |s|
    ensures rest != []
  {
  }

  lemma RestOk(dict: bool, seen: seq<Pair>, rest: seq<Pair>)
    requires Representable(Container(dict, seen + rest)) && rest != []
    ensures Representable(rest[0].val) && (!dict ==> rest[0].key == "") && KidsOk(dict, rest)
    ensures (seen + [rest[0]]) + rest[1..] == seen + rest
  {
    forall k | 0 <= k < |rest|
      ensures Representable(rest[k].val) && (!dict ==> rest[k].key == "")
    {
      assert (seen + rest)[|seen| + k] == rest[k];
    }
    hide Representable;
  }

  /** In the first child, at its end, or behind it. A child has no child of its own in its first two characters. */
  lemma BehindSplits(dict: bool, rest: seq<Pair>, n: int)
    requires KidsOk(dict, rest) && rest != []
    ensures var key := |EncodedKey(dict, rest[0].key)|; var end := key + |Encoded(rest[0].val)|;
      && end >= key + 2
      && (n < key + 2 && n < end ==> !BehindKid(dict, rest, n))
      && (n < end ==> (BehindKid(dict, rest, n) <==> BehindChild(rest[0].val, n - key)))
      && (n == end ==> BehindKid(dict, rest, n))
      && (n > end ==> (BehindKid(dict, rest, n) <==> BehindKid(dict, rest[1..], n - end)))
  {
    assert Representable(rest[0].val);
    PrintedSize(rest[0].val);
    if n < |EncodedKey(dict, rest[0].key)| + 2 {
      TooShort(rest[0].val, n - |EncodedKey(dict, rest[0].key)|);
    }
    hide BehindChild, Encoded, EncodedKey, Representable;
  }

  lemma TooShort(v: Value, n: int)
    requires Representable(v) && n <= 1
    ensures !BehindChild(v, n)
  {
    if v.Container? && n == 1 && v.kids != [] {
      assert Representable(v.kids[0].val);
      PrintedSize(v.kids[0].val);
      assert !BehindChild(v.kids[0].val, 0 - |EncodedKey(v.dict, v.kids[0].key)|);
      assert !BehindKid(v.dict, v.kids, 0);
    }
  }

  lemma FirstIsNotE(s: string, pos: nat, dict: bool, rest: seq<Pair>)
    requires rest != [] && KidsOk(dict, rest) && EndsIn(s, pos, EncodedKids(dict, rest) + "e") && pos < |s|
    ensures s[pos] != 'e'
  {
    assert Representable(rest[0].val) && (!dict ==> rest[0].key == "");
    RestText(dict, rest);
    var w := EncodedKids(dict, rest) + "e";
    FirstIn(s, pos, w);
    assert s[pos + 0] == w[0];
    FirstEncoded(rest[0].val);
    hide Encoded, EndsIn, EncodedKids, Representable;
    if dict {
      assert w[0] == Decimal(|rest[0].key|)[0];
    } else {
      assert w[0] == Encoded(rest[0].val)[0];
    }
  }

  /** A child with less than two characters of its value there. */
  lemma PairCut(s: string, pos: nat, dict: bool, r: Pair, depth: nat, limit: int, items: int, begin: int, done: seq<Kid>)
    requires pos < |s| && s[pos] != 'e' && depth <= limit && |s| < pos + |EncodedKey(dict, r.key)| + 2
    requires EndsIn(s, pos, EncodedKey(dict, r.key)) || At(s, pos, EncodedKey(dict, r.key))
    ensures Kids(s, pos, depth, limit, items, dict, begin, done).Failed?
  {
    if pos + 1 < |s| {
      assert dict;
      KeyCut(s, pos, r.key);
    }
    hide Key, EndsIn, At, EncodedKey;
  }

  lemma CutHere(s: string, depth: nat, limit: int, items: int, dict: bool, begin: int, done: seq<Kid>)
    ensures Kids(s, |s|, depth, limit, items, dict, begin, done) == Cut(Unended(dict, begin, done))
  {
  }

  /** What the decoder makes of the first n characters of a value's text, for a value within the limits: nothing is an
      empty result, an end right behind a child is accepted with the children so far, and every other cut is an error. */
  lemma CutText(v: Value, n: nat, limit: int, items: int)
    requires Representable(v) && limit >= 1 && Fits(v, 1, limit) && Count(v) < items && n < |Encoded(v)|
    ensures var o := Whole(Encoded(v)[..n], limit, items);
      if n == 0 then o == Parsed(Empty, 0, items)
      else if BehindChild(v, n) then CutReads(Encoded(v)[..n], 0, CutValue(v, n), o)
      else o.Failed?
  {
    var s := Encoded(v)[..n];
    FirstEncoded(v);
    if n >= 2 {
      assert s[0..] == s;
      assert EndsIn(s, 0, Encoded(v));
      hide *;
      CutAfter(s, 0, v, 1, limit, items);
      WholeIs(s, limit, items);
    } else {
      TooShort(v, n);
      hide Encoded, Fits, BehindChild, Representable;
    }
  }

  lemma WholeIs(s: string, limit: int, items: int)
    requires |s| >= 2 && limit >= 1
    ensures Whole(s, limit, items) == After(s, s[0], 1, 1, limit, items)
  {
    hide After;
  }

  /** A list of one integer without the letter that ends the list is accepted, and left open. */
  lemma CutExample(limit: int, items: int)
    requires limit >= 1 && items >= 3
    ensures var v := Container(false, [Pair("", Integer(1))]);
      Encoded(v) == "li1ee" && BehindChild(v, 4) && CutReads("li1e", 0, v, Whole("li1e", limit, items))
  {
    var one := Integer(1);
    var v := Container(false, [Pair("", one)]);
    assert Printed(1) == "1" by { assert Decimal(1) == "1"; }
    assert Encoded(one) == "i1e";
    assert EncodedKids(false, [Pair("", one)]) == "i1e";
    assert Count(one) == 1 && CountKids([Pair("", one)]) == 1;
    assert Representable(one);
    assert Encoded(v)[..4] == "li1e";
    CutText(v, 4, limit, items);
  }

  /** A list in a list, cut off right behind the letter that opens the inner one, is refused. */
  lemma OpeningExample(limit: int, items: int)
    requires limit >= 2 && items >= 3
    ensures var v := Container(false, [Pair("", Container(false, []))]);
      Encoded(v) == "llee" && !BehindChild(v, 2) && Whole("ll", limit, items).Failed?
  {
    var inner := Container(false, []);
    var v := Container(false, [Pair("", inner)]);
    assert Encoded(inner) == "le";
    assert EncodedKids(false, [Pair("", inner)]) == "le";
    assert Count(inner) == 1 && CountKids([Pair("", inner)]) == 1;
    assert Encoded(v)[..2] == "ll";
    CutText(v, 2, limit, items);
  }

  /** The same list with the first letter of another integer behind it is refused, and what is left of it is empty. */
  lemma DropExample(limit: int, items: int)
    requires limit >= 1 && items >= 3
    ensures Whole("li1ei", limit, items) == Failed(UnexpectedEof, 5, Unended(false, 0, []))
    ensures Kids("li1ei", 4, 1, limit, items - 2, false, 0, [Kid(0, IntAt(2, 1))]) == Failed(UnexpectedEof, 5, Unended(false, 0, []))
  {
    var s := "li1ei";
    DropRest(limit, items - 2);
    DropFirst(limit, items - 1);
    hide Kids, After;
    KidsStep(s, 1, false, 0, 1, 1, limit, items - 1, 0, []);
    assert [] + [Kid(0, IntAt(2, 1))] == [Kid(0, IntAt(2, 1))];
  }

  lemma DropFirst(limit: int, items: int)
    requires items >= 2
    ensures var s := "li1ei"; Key(s, 1, false) == GoodKey(0, 1) && After(s, s[1], 2, 2, limit, items) == Parsed(IntAt(2, 1), 4, items - 1)
  {
    var s := "li1ei";
    assert FindChar(s, 2, 'e') == 3 by { assert FindChar(s, 3, 'e') == 3; }
  }

  lemma DropRest(limit: int, items: int)
    requires limit >= 1 && items >= 1
    ensures Kids("li1ei", 4, 1, limit, items, false, 0, [Kid(0, IntAt(2, 1))]) == Failed(UnexpectedEof, 5, Unended(false, 0, []))
  {
  }
}
