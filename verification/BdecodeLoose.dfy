/** What the bencode decoder accepts, said without the decoder: the texts that spell a value, canonical or not. And what
    its errors say about the text. */
module BdecodeLoose {
  import opened Bencode
  import opened BdecodeGrammar

  /** The number that some digits spell, leading zeros or not. */
  function Number(digits: string): (n: int)
    decreases |digits|
  {
    if digits == "" then 0 else 10 * Number(digits[..|digits| - 1]) + DigitValue(digits[|digits| - 1])
  }

  /** Digits and a colon: a length. */
  ghost predicate Length(s: string, pos: nat, colon: nat, n: int) {
    pos < colon < |s| && s[colon] == ':' && (forall k | pos <= k < colon :: IsDigit(s[k])) && n == Number(s[pos..colon])
  }

  /** The text pos..end-1 spells the entry x. */
  ghost predicate Spells(s: string, x: Lazy, pos: nat, end: nat)
    decreases x, 1
  {
    && pos < end <= |s|
    && match x
       case IntAt(start, size) =>
         start == pos + 1 && end == start + size + 1 && s[pos] == 'i' && s[end - 1] == 'e' && forall k | start <= k < end - 1 :: s[k] != 'e'
       case TextAt(start, size) =>
         start > 0 && Length(s, pos, start - 1, size) && end == start + size
       case Node(dict, begin, kids, last) =>
         begin == pos && last == end && s[pos] == (if dict then 'd' else 'l') && SpellsKids(s, dict, kids, pos + 1, end)
       case _ => false
  }

  /** The children of a container, one after the other, and the letter that ends it. */
  ghost predicate SpellsKids(s: string, dict: bool, kids: seq<Kid>, pos: nat, end: nat)
    decreases kids, 0
  {
    if kids == [] then pos < |s| && s[pos] == 'e' && end == pos + 1
    else exists value: nat, mid: nat :: SpellsKid(s, dict, kids[0], pos, value, mid) && SpellsKids(s, dict, kids[1..], mid, end)
  }

  ghost predicate SpellsKid(s: string, dict: bool, kid: Kid, pos: nat, value: nat, mid: nat)
    decreases kid
  {
    Names(s, dict, pos, kid.name, value) && Spells(s, kid.val, value, mid)
  }

  /** The key of a child that has one. */
  ghost predicate Names(s: string, dict: bool, pos: nat, name: nat, value: nat) {
    if dict then 0 < name <= value && Length(s, pos, name - 1, value - name) else name == 0 && value == pos
  }

  ghost predicate LazyFits(x: Lazy, depth: nat, limit: int)
    decreases x, 1
  {
    x.Node? ==> depth <= limit && KidsLazyFit(x.kids, depth, limit)
  }

  ghost predicate KidsLazyFit(kids: seq<Kid>, depth: nat, limit: int)
    decreases kids, 0
  {
    kids != [] ==> KidLazyFits(kids[0], depth + 1, limit) && KidsLazyFit(kids[1..], depth, limit)
  }

  ghost predicate KidLazyFits(kid: Kid, depth: nat, limit: int)
    decreases kid
  {
    LazyFits(kid.val, depth, limit)
  }

  function LazyCount(x: Lazy): (n: nat)
    ensures n >= 1
    decreases x, 1
  {
    if x.Node? then 1 + KidsLazyCount(x.kids) else 1
  }

  function KidsLazyCount(kids: seq<Kid>): nat
    decreases kids, 0
  {
    if kids == [] then 0 else KidLazyCount(kids[0]) + KidsLazyCount(kids[1..])
  }

  function KidLazyCount(kid: Kid): (n: nat)
    decreases kid
  {
    LazyCount(kid.val)
  }

  /** Scanning a length from anywhere in its digits. */
  lemma {:induction false} LengthScans(s: string, pos: nat, p: nat, colon: nat)
    requires pos <= p <= colon < |s| && s[colon] == ':' && forall k | p <= k < colon :: IsDigit(s[k])
    ensures ParseInt(s, p, |s|, ':', Number(s[pos..p])) == Scan(colon, Number(s[pos..colon]))
    decreases colon - p
  {
    if p < colon {
      assert s[pos..p + 1][..p - pos] == s[pos..p];
      LengthScans(s, pos, p + 1, colon);
    }
  }

  lemma {:induction false} ScannedDigits(s: string, p: nat, val: int)
    requires p <= |s|
    ensures var c := ParseInt(s, p, |s|, ':', val).pos; 0 <= c < |s| ==> forall k | p <= k < c :: IsDigit(s[k])
    decreases |s| - p
  {
    if p < |s| && s[p] != ':' && IsDigit(s[p]) { ScannedDigits(s, p + 1, val * 10 + DigitValue(s[p])); }
  }

  /** Scanning finds a length exactly where there is one. */
  lemma LengthFound(s: string, pos: nat)
    requires pos < |s| && IsDigit(s[pos])
    ensures var n := ParseInt(s, pos + 1, |s|, ':', DigitValue(s[pos]));
      && (0 <= n.pos < |s| ==> Length(s, pos, n.pos, n.val) && n.val >= 0)
      && forall colon: nat, v: int :: Length(s, pos, colon, v) ==> n == Scan(colon, v)
  {
    var n := ParseInt(s, pos + 1, |s|, ':', DigitValue(s[pos]));
    assert s[pos..pos + 1] == [s[pos]] && [s[pos]][..0] == "" && Number(s[pos..pos + 1]) == DigitValue(s[pos]);
    ScannedDigits(s, pos + 1, DigitValue(s[pos]));
    if 0 <= n.pos < |s| { LengthScans(s, pos, pos + 1, n.pos); }
    forall colon: nat, v: int | Length(s, pos, colon, v)
      ensures n == Scan(colon, v)
    {
      LengthScans(s, pos, pos + 1, colon);
    }
  }

  /** The key the decoder finds is the one that is spelled. */
  lemma KeyFound(s: string, pos: nat, dict: bool)
    requires pos + 1 < |s|
    ensures var k := Key(s, pos, dict);
      && (k.GoodKey? ==> Names(s, dict, pos, k.name, k.value))
      && forall name: nat, value: nat :: Names(s, dict, pos, name, value) && value + 2 <= |s| ==> k == GoodKey(name, value)
  {
    if dict {
      if IsDigit(s[pos]) { LengthFound(s, pos); }
      hide ParseInt;
      forall name: nat, value: nat | Names(s, dict, pos, name, value) && value + 2 <= |s|
        ensures Key(s, pos, dict) == GoodKey(name, value)
      {
        assert Length(s, pos, name - 1, value - name);
      }
    }
  }

  /** A value takes two characters at least, and does not begin with the letter that ends a container. */
  lemma SpelledFirst(s: string, x: Lazy, pos: nat, end: nat)
    requires Spells(s, x, pos, end)
    ensures pos + 2 <= end <= |s| && s[pos] != 'e'
    ensures x.TextAt? ==> IsDigit(s[pos])
  {
    if x.Node? { KidsLonger(s, x.dict, x.kids, pos + 1, end); }
  }

  lemma {:induction false} KidsLonger(s: string, dict: bool, kids: seq<Kid>, pos: nat, end: nat)
    requires SpellsKids(s, dict, kids, pos, end)
    ensures pos < end
    decreases kids, 0
  {
    if kids != [] {
      var value: nat, mid: nat :| SpellsKid(s, dict, kids[0], pos, value, mid) && SpellsKids(s, dict, kids[1..], mid, end);
      assert Names(s, dict, pos, kids[0].name, value) && Spells(s, kids[0].val, value, mid);
      KidsLonger(s, dict, kids[1..], mid, end);
    }
  }

  /** What spells a value within the limits is read as that value. */
  lemma {:induction false} SpelledIsRead(s: string, x: Lazy, pos: nat, end: nat, depth: nat, limit: int, items: int)
    requires Spells(s, x, pos, end) && LazyFits(x, depth, limit) && LazyCount(x) < items
    ensures pos < |s| && After(s, s[pos], pos + 1, depth, limit, items) == Parsed(x, end, items - LazyCount(x))
    decreases x, 1
  {
    hide *;
    SpelledFirst(s, x, pos, end);
    if x.Node? {
      NodeSpelled(s, x, pos, end, depth, limit, items);
      SpelledAreRead(s, x.dict, x.kids, pos + 1, end, depth, limit, items - 1, pos, []);
      assert [] + x.kids == x.kids;
    } else {
      LeafIsRead(s, x, pos, end, depth, limit, items);
    }
  }

  lemma LeafIsRead(s: string, x: Lazy, pos: nat, end: nat, depth: nat, limit: int, items: int)
    requires Spells(s, x, pos, end) && !x.Node? && LazyCount(x) < items
    ensures pos < |s| && After(s, s[pos], pos + 1, depth, limit, items) == Parsed(x, end, items - LazyCount(x))
  {
    if x.IntAt? {
      FindIs(s, x.start, end - 1, 'e');
    } else {
      LengthFound(s, pos);
    }
    hide ParseInt, Kids, FindChar;
  }

  lemma NodeSpelled(s: string, x: Lazy, pos: nat, end: nat, depth: nat, limit: int, items: int)
    requires Spells(s, x, pos, end) && x.Node? && LazyFits(x, depth, limit) && LazyCount(x) < items
    ensures SpellsKids(s, x.dict, x.kids, pos + 1, end) && depth <= limit && KidsLazyFit(x.kids, depth, limit)
    ensures LazyCount(x) == 1 + KidsLazyCount(x.kids) && x == Node(x.dict, pos, x.kids, end) && pos < |s|
    ensures After(s, s[pos], pos + 1, depth, limit, items) == Kids(s, pos + 1, depth, limit, items - 1, x.dict, pos, [])
  {
    hide Kids, ParseInt, FindChar, SpellsKids, KidsLazyFit, KidsLazyCount;
  }

  lemma {:induction false} SpelledAreRead(s: string, dict: bool, rest: seq<Kid>, pos: nat, end: nat, depth: nat, limit: int, items: int,
                                          begin: int, done: seq<Kid>)
    requires SpellsKids(s, dict, rest, pos, end) && depth <= limit && KidsLazyFit(rest, depth, limit) && KidsLazyCount(rest) < items
    ensures pos <= |s|
    ensures Kids(s, pos, depth, limit, items, dict, begin, done) == Parsed(Node(dict, begin, done + rest, end), end, items - KidsLazyCount(rest))
    decreases rest, 0
  {
    hide *;
    if rest == [] {
      EndIsRead(s, dict, pos, end, depth, limit, items, begin, done);
      assert done + rest == done && rest == [];
    } else {
      var value, mid := FirstSpelled(s, dict, rest, pos, end);
      KidFits(rest, depth, limit);
      SpelledKidIsRead(s, rest[0], value, mid, depth + 1, limit, items);
      KidsStep(s, pos, dict, rest[0].name, value, depth, limit, items, begin, done);
      var kid := Kid(rest[0].name, rest[0].val);
      SpelledAreRead(s, dict, rest[1..], mid, end, depth, limit, items - LazyCount(rest[0].val), begin, done + [kid]);
      assert kid == rest[0] && done + [kid] + rest[1..] == done + rest;
    }
  }

  lemma EndIsRead(s: string, dict: bool, pos: nat, end: nat, depth: nat, limit: int, items: int, begin: int, done: seq<Kid>)
    requires SpellsKids(s, dict, [], pos, end) && depth <= limit
    ensures pos < |s| && Kids(s, pos, depth, limit, items, dict, begin, done) == Parsed(Node(dict, begin, done, end), end, items)
    ensures KidsLazyCount([]) == 0
  {
    hide After, Key;
  }

  lemma FirstSpelled(s: string, dict: bool, rest: seq<Kid>, pos: nat, end: nat) returns (value: nat, mid: nat)
    requires SpellsKids(s, dict, rest, pos, end) && rest != []
    ensures pos + 1 < |s| && value < |s| && mid <= |s| && s[pos] != 'e' && Key(s, pos, dict) == GoodKey(rest[0].name, value)
    ensures Spells(s, rest[0].val, value, mid) && SpellsKids(s, dict, rest[1..], mid, end)
  {
    value, mid :| SpellsKid(s, dict, rest[0], pos, value, mid) && SpellsKids(s, dict, rest[1..], mid, end);
    hide *;
    KidIs(s, dict, rest[0], pos, value, mid);
  }

  lemma {:induction false} SpelledKidIsRead(s: string, kid: Kid, pos: nat, end: nat, depth: nat, limit: int, items: int)
    requires Spells(s, kid.val, pos, end) && LazyFits(kid.val, depth, limit) && LazyCount(kid.val) < items
    ensures pos < |s| && After(s, s[pos], pos + 1, depth, limit, items) == Parsed(kid.val, end, items - LazyCount(kid.val))
    decreases kid
  {
    SpelledIsRead(s, kid.val, pos, end, depth, limit, items);
  }

  lemma KidFits(rest: seq<Kid>, depth: nat, limit: int)
    requires rest != []
    ensures KidsLazyFit(rest, depth, limit) <==> LazyFits(rest[0].val, depth + 1, limit) && KidsLazyFit(rest[1..], depth, limit)
    ensures KidsLazyCount(rest) == LazyCount(rest[0].val) + KidsLazyCount(rest[1..])
  {
  }

  lemma KidIs(s: string, dict: bool, kid: Kid, pos: nat, value: nat, mid: nat)
    requires SpellsKid(s, dict, kid, pos, value, mid)
    ensures pos + 1 < |s| && value < |s| && mid <= |s| && s[pos] != 'e' && Key(s, pos, dict) == GoodKey(kid.name, value)
    ensures Spells(s, kid.val, value, mid)
  {
    SpelledFirst(s, kid.val, value, mid);
    assert Names(s, dict, pos, kid.name, value);
    hide Spells;
    KeyFound(s, pos, dict);
    hide Key;
  }

  /** And what is read as a value spells it, within the limits. */
  lemma {:induction false} ReadIsSpelled(s: string, pos: nat, depth: nat, limit: int, items: int)
    requires pos < |s|
    ensures var o := After(s, s[pos], pos + 1, depth, limit, items);
      o.Parsed? ==> Spells(s, o.val, pos, o.pos) && LazyFits(o.val, depth, limit) && LazyCount(o.val) < items && o.items == items - LazyCount(o.val)
    decreases |s| - pos, 0
  {
    var o := After(s, s[pos], pos + 1, depth, limit, items);
    if o.Parsed? {
      if s[pos] == 'd' || s[pos] == 'l' {
        var rest := AreSpelled(s, pos + 1, depth, limit, items - 1, s[pos] == 'd', pos, []);
        assert [] + rest == rest;
        hide Kids, ParseInt, FindChar;
      } else if IsDigit(s[pos]) {
        LengthFound(s, pos);
        hide Kids, ParseInt, FindChar;
      }
    }
  }

  lemma {:induction false} AreSpelled(s: string, pos: nat, depth: nat, limit: int, items: int, dict: bool, begin: int, done: seq<Kid>)
    returns (rest: seq<Kid>)
    requires pos <= |s| && Kids(s, pos, depth, limit, items, dict, begin, done).Parsed? && items > 0
    ensures var o := Kids(s, pos, depth, limit, items, dict, begin, done);
      && o.val == Node(dict, begin, done + rest, o.pos) && SpellsKids(s, dict, rest, pos, o.pos)
      && depth <= limit && KidsLazyFit(rest, depth, limit) && KidsLazyCount(rest) < items && o.items == items - KidsLazyCount(rest)
    decreases |s| - pos, 1
  {
    hide *;
    KidsGo(s, pos, depth, limit, items, dict, begin, done);
    NoneSpelled(s, dict, pos, depth, limit, done);
    rest := [];
    if s[pos] != 'e' {
      var k := Key(s, pos, dict);
      KeyFound(s, pos, dict);
      ReadIsSpelled(s, k.value, depth + 1, limit, items);
      var o := After(s, s[k.value], k.value + 1, depth + 1, limit, items);
      KidsStep(s, pos, dict, k.name, k.value, depth, limit, items, begin, done);
      var kid := Kid(k.name, o.val);
      var more := AreSpelled(s, o.pos, depth, limit, o.items, dict, begin, done + [kid]);
      rest := [kid] + more;
      assert rest[1..] == more && rest[0] == kid && done + [kid] + more == done + rest;
      KidFits(rest, depth, limit);
      OneSpelled(s, dict, kid, more, pos, k.value, o.pos, Kids(s, pos, depth, limit, items, dict, begin, done).pos);
    }
  }

  lemma NoneSpelled(s: string, dict: bool, pos: nat, depth: nat, limit: int, done: seq<Kid>)
    ensures pos < |s| && s[pos] == 'e' ==> SpellsKids(s, dict, [], pos, pos + 1)
    ensures KidsLazyFit([], depth, limit) && KidsLazyCount([]) == 0 && done + [] == done
  {
  }

  lemma OneSpelled(s: string, dict: bool, kid: Kid, more: seq<Kid>, pos: nat, value: nat, mid: nat, end: nat)
    requires Names(s, dict, pos, kid.name, value) && Spells(s, kid.val, value, mid) && SpellsKids(s, dict, more, mid, end)
    ensures SpellsKids(s, dict, [kid] + more, pos, end)
  {
    var rest := [kid] + more;
    assert rest[1..] == more && rest[0] == kid;
    assert SpellsKid(s, dict, rest[0], pos, value, mid);
    hide Names, Spells;
  }

  lemma KidsGo(s: string, pos: nat, depth: nat, limit: int, items: int, dict: bool, begin: int, done: seq<Kid>)
    requires pos <= |s| && Kids(s, pos, depth, limit, items, dict, begin, done).Parsed?
    ensures pos < |s| && depth <= limit
    ensures s[pos] == 'e' ==> Kids(s, pos, depth, limit, items, dict, begin, done) == Parsed(Node(dict, begin, done, pos + 1), pos + 1, items)
    ensures s[pos] != 'e' ==> pos + 1 < |s| && Key(s, pos, dict).GoodKey?
    ensures s[pos] != 'e' ==> var k := Key(s, pos, dict); After(s, s[k.value], k.value + 1, depth + 1, limit, items).Parsed?
  {
  }

  /** The decoder accepts exactly the texts that begin with something that spells a value within the limits, and reads that
      value: whatever may stand between the letters of an integer, leading zeros in a length, keys in any order and
      more than once. */
  lemma AcceptsExactly(s: string, limit: int, items: int, x: Lazy, end: nat)
    ensures s != "" ==>
              (Whole(s, limit, items) == Parsed(x, end, items - LazyCount(x))
               <==> limit >= 1 && Spells(s, x, 0, end) && LazyFits(x, 1, limit) && LazyCount(x) < items)
    ensures s != "" && Whole(s, limit, items).Parsed? ==>
              var o := Whole(s, limit, items); o.items == items - LazyCount(o.val)
  {
    if s != "" {
      ReadIsSpelled(s, 0, 1, limit, items);
      if Spells(s, x, 0, end) {
        SpelledFirst(s, x, 0, end);
        if LazyFits(x, 1, limit) && LazyCount(x) < items { SpelledIsRead(s, x, 0, end, 1, limit, items); }
      }
      hide After, Spells, LazyFits, LazyCount;
    }
  }

  /** What an error says about the text, at the place it names. */
  ghost predicate ErrorAt(s: string, code: Code, at: int) {
    match code
    case ExpectedValue => 0 < at <= |s| && s[at - 1] != 'd' && s[at - 1] != 'l' && s[at - 1] != 'i' && !IsDigit(s[at - 1])
    case ExpectedString => 0 < at <= |s| && !IsDigit(s[at - 1])
    case ExpectedColon => at == -1 || at == |s| || (0 <= at < |s| && s[at] == ':')
    case UnexpectedEof => at == |s|
    case LimitExceeded => 0 < at <= |s|
    case DepthExceeded => 0 <= at < |s|
  }

  lemma {:induction false} ErrorsAfter(s: string, start: nat, depth: nat, limit: int, items: int)
    requires 0 < start <= |s|
    ensures var o := After(s, s[start - 1], start, depth, limit, items); o.Failed? ==> ErrorAt(s, o.code, o.at)
    decreases |s| - start, 1
  {
    var t := s[start - 1];
    if items > 1 && (t == 'd' || t == 'l') {
      ErrorsKids(s, start, depth, limit, items - 1, t == 'd', start - 1, []);
    }
    hide ParseInt, FindChar, Kids;
  }

  lemma {:induction false} ErrorsKids(s: string, pos: nat, depth: nat, limit: int, items: int, dict: bool, begin: int, done: seq<Kid>)
    requires pos <= |s|
    ensures var o := Kids(s, pos, depth, limit, items, dict, begin, done); o.Failed? ==> ErrorAt(s, o.code, o.at)
    decreases |s| - pos, 0
  {
    if pos + 1 < |s| && depth <= limit && s[pos] != 'e' && Key(s, pos, dict).GoodKey? {
      var k := Key(s, pos, dict);
      ErrorsAfter(s, k.value + 1, depth + 1, limit, items);
      var o := After(s, s[k.value], k.value + 1, depth + 1, limit, items);
      if o.Parsed? { ErrorsKids(s, o.pos, depth, limit, o.items, dict, begin, done + [Kid(k.name, o.val)]); }
    }
    hide ParseInt, FindChar, After;
  }

  /** Each error names its place: no value, or no key, begins there; a length has no colon, or reaches beyond the end; the
      text ends too soon; or a limit is exceeded. */
  lemma ErrorsMean(s: string, limit: int, items: int)
    ensures var o := Whole(s, limit, items); o.Failed? ==> ErrorAt(s, o.code, o.at)
  {
    if s != "" { ErrorsAfter(s, 1, 1, limit, items); }
    hide After;
  }
}
