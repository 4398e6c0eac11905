/** The bencode decoder: one loop over the input with an explicit stack of the containers being filled. */
module LazyBdecode {
  import opened Common
  import opened Bencode
  import opened BdecodeGrammar
  import opened BdecodeCuts
  import opened LazyCells

  /** The outermost of the open containers with its children so far. */
  function Outermost(frames: seq<Frame>): Lazy
    requires |frames| > 0
  {
    Unended(frames[0].dict, frames[0].begin, frames[0].kids)
  }

  /** What is left of the outermost container when the innermost one cannot go on. */
  function Dropping(frames: seq<Frame>): Lazy
    requires |frames| > 0
  {
    Unended(frames[0].dict, frames[0].begin, if |frames| == 1 then WithoutLast(frames[0].kids) else frames[0].kids)
  }

  /** Handing a value to the innermost of the open containers, and what that leads to in the end. */
  ghost function Deliver(s: string, frames: seq<Frame>, limit: int, o: Outcome): Outcome
    requires o.Parsed? ==> o.pos <= |s|
    decreases |frames|
  {
    if |frames| == 0 then o
    else if o.Failed? then Failed(o.code, o.at, Outermost(frames))
    else if o.Cut? then Cut(Around(frames, o.left))
    else
      var n := |frames| - 1;
      var f := frames[n];
      Deliver(s, frames[..n], limit,
              Kids(s, o.pos, n + 1, limit, o.items, f.dict, f.begin, f.kids + [Kid(f.pending, o.val)]))
  }

  /** What the decoder will come to from the top of its loop with these containers open. */
  ghost function Remaining(s: string, pos: nat, frames: seq<Frame>, limit: int, items: int): Outcome
    requires |frames| > 0 && pos <= |s|
  {
    var n := |frames| - 1;
    var f := frames[n];
    Deliver(s, frames[..n], limit, Kids(s, pos, n + 1, limit, items, f.dict, f.begin, f.kids))
  }

  lemma DeliverTaken(s: string, frames: seq<Frame>, limit: int, x: Lazy, pos: nat, items: int)
    requires pos <= |s|
    ensures Deliver(s, frames, limit, Parsed(x, pos, items))
            == if |frames| == 0 then Parsed(x, pos, items) else Remaining(s, pos, Taken(frames, x), limit, items)
  {
    if |frames| > 0 {
      var n := |frames| - 1;
      assert Taken(frames, x)[..n] == frames[..n];
    }
  }

  lemma DeliverStops(s: string, frames: seq<Frame>, limit: int, o: Outcome)
    requires !o.Parsed?
    ensures Deliver(s, frames, limit, o)
            == if o.Cut? then Cut(Around(frames, o.left))
               else if frames == [] then o
               else Failed(o.code, o.at, Outermost(frames))
  {
  }

  /** At the end of a container. */
  lemma RemainingEnd(s: string, pos: nat, frames: seq<Frame>, limit: int, items: int)
    requires |frames| > 0 && pos < |s| && s[pos] == 'e' && |frames| <= limit
    ensures var f := frames[|frames| - 1];
      Remaining(s, pos, frames, limit, items)
      == Deliver(s, frames[..|frames| - 1], limit, Parsed(Node(f.dict, f.begin, f.kids, pos + 1), pos + 1, items))
  {
  }

  /** At a child of a container. */
  lemma RemainingChild(s: string, pos: nat, frames: seq<Frame>, limit: int, items: int, name: nat, value: nat)
    requires |frames| > 0 && pos + 1 < |s| && s[pos] != 'e' && |frames| <= limit
    requires Key(s, pos, frames[|frames| - 1].dict) == GoodKey(name, value)
    ensures Remaining(s, pos, frames, limit, items)
            == Deliver(s, Named(frames, name), limit, After(s, s[value], value + 1, |frames| + 1, limit, items))
  {
    var n := |frames| - 1;
    var f := frames[n];
    assert Named(frames, name)[..n] == frames[..n];
    var o := After(s, s[value], value + 1, n + 2, limit, items);
    KidsStep(s, pos, f.dict, name, value, n + 1, limit, items, f.begin, f.kids);
    if !o.Parsed? {
      DeliverStops(s, Named(frames, name), limit, o);
      DeliverStops(s, frames[..n], limit, o);
    }
  }

  function Named(frames: seq<Frame>, name: nat): seq<Frame>
    requires |frames| > 0
  {
    frames[|frames| - 1 := frames[|frames| - 1].(pending := name)]
  }

  /** What is left when the input ends with these containers open. */
  function LeftOpen(frames: seq<Frame>): Lazy
    requires |frames| > 0
  {
    var n := |frames| - 1;
    Around(frames[..n], Unended(frames[n].dict, frames[n].begin, frames[n].kids))
  }

  lemma RemainingFails(s: string, pos: nat, frames: seq<Frame>, limit: int, items: int)
    requires |frames| > 0 && pos <= |s|
    ensures pos == |s| ==> Remaining(s, pos, frames, limit, items) == Cut(LeftOpen(frames))
    ensures pos < |s| && |frames| > limit ==> Remaining(s, pos, frames, limit, items) == Failed(DepthExceeded, pos, Dropping(frames))
    ensures pos + 1 == |s| && |frames| <= limit && s[pos] != 'e' ==>
              Remaining(s, pos, frames, limit, items) == Failed(UnexpectedEof, pos + 1, Dropping(frames))
    ensures pos + 1 < |s| && |frames| <= limit && s[pos] != 'e' && Key(s, pos, frames[|frames| - 1].dict).BadKey? ==>
              var k := Key(s, pos, frames[|frames| - 1].dict);
              Remaining(s, pos, frames, limit, items) == Failed(k.code, k.at, Dropping(frames))
  {
    var n := |frames| - 1;
    var f := frames[n];
    var o := Kids(s, pos, n + 1, limit, items, f.dict, f.begin, f.kids);
    if !o.Parsed? { DeliverStops(s, frames[..n], limit, o); }
  }

  /** A container that was just begun. */
  lemma DeliverContainer(s: string, frames: seq<Frame>, limit: int, t: char, start: nat, items: int)
    requires (t == 'd' || t == 'l') && 0 < start <= |s|
    ensures Deliver(s, frames, limit, After(s, t, start, |frames| + 1, limit, items))
            == if items - 1 <= 0 then Failed(LimitExceeded, start, if frames == [] then Empty else Outermost(frames))
               else Remaining(s, start, frames + [Frame(t == 'd', start - 1, [], 0)], limit, items - 1)
  {
    var f := Frame(t == 'd', start - 1, [], 0);
    assert (frames + [f])[..|frames|] == frames;
  }

  datatype Status = Running | Stopped(code: Code, at: int)

  datatype MaybeCode = NoError | Error(code: Code)

  class LazyDecoder {
    var root: Cell
    var heap: Heap
    var next: nat
    var stack: seq<Ref>
    ghost var finished: set<nat>
    ghost var frames: seq<Frame>

    ghost predicate OnPath()
      reads this
    {
      Path(root, heap, finished, next, stack, frames)
    }

    /** The top of the stack is a fresh entry. */
    ghost predicate AtChild()
      reads this
    {
      OnPath() && |frames| == |stack| - 1 && Live(heap, Top(stack)) && Fresh(Load(root, heap, Top(stack)))
    }

    /** The top of the stack is an open container. */
    ghost predicate AtContainer()
      reads this
    {
      && OnPath() && |frames| == |stack| && Live(heap, Top(stack))
      && var c := Load(root, heap, Top(stack));
      && Open(heap, finished, c, frames[|frames| - 1], false) && (c.capacity > 0 ==> Apart(c.start, stack))
    }

    constructor ()
      ensures stack == [] && heap == map[]
    {
      root, heap, next, stack := EMPTY_CELL, map[], 0, [];
      finished, frames := {}, [];
    }

    /** Overwrites the entry at the top of the stack. */
    method Store(c: Cell)
      requires OnPath()
      modifies `root, `heap
      ensures OnPath() && Live(heap, Top(stack)) && Load(root, heap, Top(stack)) == c
      ensures heap.Keys == old(heap).Keys && (forall a | a in heap && Apart(a, stack) :: heap[a] == old(heap)[a])
      ensures forall a | a in finished :: a in heap && heap[a] == old(heap)[a]
    {
      hide Path, Linked;
      StoreTop(root, heap, finished, next, stack, frames, c);
      PathTopLive(root, heap, finished, next, stack, frames);
      root, heap := StoreRoot(root, Top(stack), c), StoreHeap(heap, Top(stack), c);
    }

    /** Makes sure a container has a free element; `c` is its entry. */
    method MakeRoom(c: Cell, ghost f: Frame) returns (c': Cell)
      requires OnPath() && Open(heap, finished, c, f, false) && (c.capacity > 0 ==> Apart(c.start, stack))
      modifies `heap, `next
      ensures OnPath() && Open(heap, finished, c', f, false) && Apart(c'.start, stack)
      ensures c'.size < c'.capacity && c'.size == c.size && c'.start in heap && |heap[c'.start]| == c'.capacity
      ensures c' == c.(start := c'.start, capacity := c'.capacity)
    {
      hide Path, Linked, Open;
      OpenRoom(heap, finished, c, f);
      c' := c;
      if c.size == c.capacity {
        var slots := if c.capacity == 0 then [] else heap[c.start];
        ghost var heap0 := heap;
        var capacity := if c.capacity == 0 then 5 else c.capacity * 150 / 100;
        heap := (if c.capacity == 0 then heap else heap - {c.start})[next := Padded(slots, capacity)];
        GrowOpen(root, heap0, finished, next, stack, frames, c, f, heap, slots);
        c' := c.(start := next, capacity := capacity);
        next := next + 1;
        OpenRoom(heap, finished, c', f);
      }
    }

    /** A new child of the container at the top of the stack goes on the stack. */
    method Append(name: nat)
      requires AtContainer()
      modifies `root, `heap, `next, `stack, `frames
      ensures AtChild() && |stack| == |old(stack)| + 1 && frames == Named(old(frames), name)
    {
      hide Path, Linked, Open;
      PathTopLive(root, heap, finished, next, stack, frames);
      ghost var f := frames[|frames| - 1];
      var c := MakeRoom(Load(root, heap, Top(stack)), f);
      ghost var heap1 := heap;
      heap := heap[c.start := heap[c.start][c.size := Slot(name, heap[c.start][c.size].val)]];
      TakeOpen(root, heap1, finished, next, stack, frames, c, f, name, heap);
      c := c.(size := c.size + 1);
      ghost var heap2 := heap;
      Store(c);
      OpenElsewhere(heap2, heap, finished, c, f.(pending := name));
      frames := Named(frames, name);
      PathFrames(root, heap, finished, next, stack, old(frames), frames);
      PushChild(root, heap, finished, next, stack, frames);
      stack := stack + [Elem(c.start, c.size - 1)];
      PathTopLive(root, heap, finished, next, stack, frames);
    }

    /** The finished entry at the top of the stack leaves it. */
    method Pop(ghost x: Lazy)
      requires OnPath() && |frames| == |stack| - 1 && Live(heap, Top(stack)) && Holds(heap, finished, Load(root, heap, Top(stack)), x)
      modifies `stack, `frames
      ensures stack == old(stack)[..|old(stack)| - 1]
      ensures stack == [] ==> frames == [] == old(frames) && Holds(heap, finished, root, x)
      ensures stack != [] ==> AtContainer() && |old(frames)| > 0 && frames == Taken(old(frames), x)
    {
      hide Linked, Open, Holds, Apart;
      if |stack| > 1 {
        PopChild(root, heap, finished, next, stack, frames, x);
        frames := Taken(frames, x);
      }
      stack := stack[..|stack| - 1];
    }

    /** The entry at the top of the stack is an integer or a string: it is written and leaves the stack. */
    method ConstructLeaf(c: Cell, ghost x: Lazy)
      requires AtChild() && !x.Node? && (forall h: Heap, d: set<nat> :: Holds(h, d, c, x))
      modifies `root, `heap, `stack, `frames
      ensures stack == old(stack)[..|old(stack)| - 1]
      ensures stack == [] ==> frames == [] == old(frames) && Holds(heap, finished, root, x)
      ensures stack != [] ==> AtContainer() && |old(frames)| > 0 && frames == Taken(old(frames), x)
    {
      hide Path, Linked, Open, Holds, Apart;
      Store(c);
      Pop(x);
    }

    /** The entry at the top of the stack begins as an empty container. */
    method ConstructContainer(dict: bool, begin: nat)
      requires AtChild()
      modifies `root, `heap, `frames
      ensures AtContainer() && frames == old(frames) + [Frame(dict, begin, [], 0)]
    {
      hide Path, Linked, Holds, Apart;
      PathTopLive(root, heap, finished, next, stack, frames);
      var c := Load(root, heap, Top(stack)).(kind := if dict then DictT else ListT, begin := begin);
      Store(c);
      frames := frames + [Frame(dict, begin, [], 0)];
      PathFrames(root, heap, finished, next, stack, old(frames), frames);
    }

    /** The container at the top of the stack ends before `end` and leaves the stack. */
    method Close(end: nat)
      requires AtContainer()
      modifies `root, `heap, `stack, `frames, `finished
      ensures stack == old(stack)[..|old(stack)| - 1]
      ensures var f := old(frames)[|old(frames)| - 1]; var x := Node(f.dict, f.begin, f.kids, end);
        && (stack == [] ==> frames == [] && |old(frames)| == 1 && Holds(heap, finished, root, x))
        && (stack != [] ==> AtContainer() && |old(frames)| > 1 && frames == Taken(old(frames)[..|old(frames)| - 1], x))
    {
      hide Path, Linked, Open, Apart, Holds;
      PathTopLive(root, heap, finished, next, stack, frames);
      var c := Load(root, heap, Top(stack));
      ghost var f := frames[|frames| - 1];
      ghost var x := Node(f.dict, f.begin, f.kids, end);
      ghost var finished' := CloseOpen(root, heap, finished, next, stack, frames, c, f, end);
      ghost var frames' := frames[..|frames| - 1];
      PathFrames(root, heap, finished', next, stack, frames, frames');
      finished, frames := finished', frames';
      ghost var heap0 := heap;
      c := c.(len := end - c.begin);
      Store(c);
      HoldsStill(heap0, heap, finished, finished, c, x);
      Pop(x);
    }

    ghost predicate Failing(x: Lazy)
      reads this
    {
      FailingState(root, heap, finished, next, stack, frames, x)
    }

    lemma FailingChild()
      requires AtChild()
      ensures Failing(if frames == [] then Empty else Outermost(frames))
    {
      hide Linked;
    }

    lemma FailingLeaf(x: Lazy)
      requires OnPath() && |frames| == |stack| - 1 && Live(heap, Top(stack)) && !x.Node? && !x.Unended?
      requires Holds(heap, finished, Load(root, heap, Top(stack)), x)
      ensures Failing(if frames == [] then x else Outermost(frames))
    {
      hide Linked;
    }

    /** What a failure leaves: every open container drops its last child, and the stack is empty. */
    method Abandon(ghost x: Lazy)
      requires Failing(x)
      modifies `root, `heap, `stack, `finished
      ensures stack == [] && finished == heap.Keys && Holds(heap, finished, root, x)
    {
      hide FailingState, Path, Holds, Open, RootKept, ApartAll, Dropping, Outermost;
      ghost var root0, heap0, finished0, k := root, heap, finished, RootCount(frames);
      FailingIs(x);
      FailingApart(root, heap, finished, next, stack, frames, x);
      KeptStart(heap, finished, root.start, k);
      RootFirst(finished, stack, root.start, k);
      while |stack| > 0
        invariant stack == old(stack)[..|stack|] && |stack| <= |old(stack)| && heap.Keys == heap0.Keys
        invariant forall j | 0 <= j < |stack| :: Live(heap, stack[j])
        invariant RootKept(heap0, heap, finished0, root0.start, k)
        invariant root == if stack != [] then root0 else Popped(root0)
        decreases |stack|
      {
        var r := Top(stack);
        assert r == stack[|stack| - 1] == old(stack)[|stack| - 1];
        var c := Load(root, heap, r);
        if c.kind == DictT || c.kind == ListT {
          if c.size > 0 {
            c := c.(size := c.size - 1);
          }
          StoreApart(heap0, heap, finished0, root0.start, k, old(stack), |stack| - 1, c);
          root, heap := StoreRoot(root, r, c), StoreHeap(heap, r, c);
        }
        assert stack[..|stack| - 1] == old(stack)[..|stack| - 1];
        stack := stack[..|stack| - 1];
      }
      FailingEnd(root0, heap0, finished0, next, old(stack), frames, x, heap);
      finished := heap.Keys;
    }

    lemma FailingIs(x: Lazy)
      ensures Failing(x) <==> FailingState(root, heap, finished, next, stack, frames, x)
    {
    }

    /** parse_int. */
    static method ScanInt(s: string, start: nat, end: nat, delimiter: char, init: int) returns (r: Scan)
      requires start <= end <= |s|
      ensures r == ParseInt(s, start, end, delimiter, init)
    {
      var pos, val := start, init;
      while pos < end && s[pos] != delimiter
        invariant start <= pos <= end && ParseInt(s, start, end, delimiter, init) == ParseInt(s, pos, end, delimiter, val)
      {
        if !IsDigit(s[pos]) { return Scan(-1, val); }
        val := val * 10;
        val := val + DigitValue(s[pos]);
        pos := pos + 1;
      }
      r := Scan(pos, val);
    }

    static method ScanChar(s: string, start: nat, delimiter: char) returns (pos: nat)
      requires start <= |s|
      ensures pos == FindChar(s, start, delimiter)
    {
      pos := start;
      while pos < |s| && s[pos] != delimiter
        invariant start <= pos <= |s| && FindChar(s, start, delimiter) == FindChar(s, pos, delimiter)
      {
        pos := pos + 1;
      }
    }

    /** num_digits. */
    static method CountDigits(n: nat) returns (r: nat)
      ensures r == NumDigits(n)
    {
      r := 1;
      var val := n;
      while val >= 10
        invariant NumDigits(n) == NumDigits(val) + r - 1
      {
        r := r + 1;
        val := val / 10;
      }
    }

    /** A key, whose first character t was just read. */
    static method ScanKey(s: string, t: char, start: nat) returns (k: KeyAt)
      requires 0 < start < |s| && t == s[start - 1]
      ensures k == Key(s, start - 1, true)
    {
      if !IsDigit(t) { return BadKey(ExpectedString, start); }
      var n := ScanInt(s, start, |s|, ':', DigitValue(t));
      if n.pos == -1 || n.pos + n.val + 3 > |s| || s[n.pos] != ':' {
        return BadKey(ExpectedColon, n.pos);
      }
      var pos := n.pos + 1;
      // no test for the end of the input is needed here or after the key: the room checked above rules both out
      assert pos < |s| && pos + n.val < |s|;
      k := GoodKey(pos, pos + n.val);
    }

    /** Where decoding stands: done with the root, or at the top of the loop with containers open. */
    ghost predicate Ready(s: string, pos: nat, limit: int, items: int, goal: Outcome)
      reads this
    {
      && pos <= |s|
      && if stack == [] then goal.Parsed? && goal.pos == pos && goal.items == items && Holds(heap, finished, root, goal.val)
         else AtContainer() && goal == Remaining(s, pos, frames, limit, items)
    }

    /** A value whose first character t was just read, for the fresh entry at the top of the stack. */
    method ReadValue(s: string, t: char, start: nat, ghost limit: int, items: int, ghost goal: Outcome)
      returns (status: Status, pos: nat, items': int)
      requires AtChild() && 0 < start <= |s|
      requires goal == Deliver(s, frames, limit, After(s, t, start, |stack|, limit, items))
      modifies `root, `heap, `stack, `frames
      ensures status.Running? ==> start <= pos && Ready(s, pos, limit, items', goal)
      ensures status.Stopped? ==> goal.Failed? && goal.code == status.code && goal.at == status.at && Failing(goal.remains)
    {
      hide AtContainer, Remaining, Deliver, Kids, Path, Failing, Outermost, Around, Taken, Open, ParseInt, FindChar;
      FailingChild();
      status, pos, items' := Running, start, items - 1;
      ghost var o := After(s, t, start, |stack|, limit, items);
      ghost var frames0 := frames;
      if o.Failed? { DeliverStops(s, frames, limit, o); }
      if items' <= 0 {
        status := Stopped(LimitExceeded, start);
        return;
      }
      if t == 'd' || t == 'l' {
        DeliverContainer(s, frames, limit, t, start, items);
        ConstructContainer(t == 'd', start - 1);
        StackNow();
      } else if t == 'i' {
        pos := ScanChar(s, start, 'e');
        if pos == |s| {
          Store(Cell(IntT, start, pos - start, 0, start - 1, pos - start + 2));
          FailingLeaf(IntAt(start, pos - start));
          status := Stopped(UnexpectedEof, pos);
        } else {
          DeliverTaken(s, frames, limit, IntAt(start, pos - start), pos + 1, items');
          ConstructLeaf(Cell(IntT, start, pos - start, 0, start - 1, pos - start + 2), IntAt(start, pos - start));
          pos := pos + 1;
        }
      } else if !IsDigit(t) {
        status := Stopped(ExpectedValue, start);
      } else {
        var n := ScanInt(s, start, |s|, ':', DigitValue(t));
        if n.pos == -1 || n.pos + n.val + 1 > |s| || s[n.pos] != ':' {
          status := Stopped(ExpectedColon, n.pos);
        } else {
          pos := n.pos + 1;
          var digits := CountDigits(n.val);
          DeliverTaken(s, frames, limit, TextAt(pos, n.val), pos + n.val, items');
          ConstructLeaf(Cell(StringT, pos, n.val, 0, pos - 1 - digits, pos - (pos - 1 - digits) + n.val), TextAt(pos, n.val));
          pos := pos + n.val;
        }
      }
    }

    /** The top of the loop: the root entry waits for its value, or containers are open. */
    ghost predicate Looping(s: string, pos: nat, limit: int, items: int, goal: Outcome)
      reads this
    {
      && pos < |s| && stack != []
      && ((AtChild() && stack == [Root] && frames == [] && pos == 0 && goal == Whole(s, limit, items))
          || (AtContainer() && goal == Remaining(s, pos, frames, limit, items)))
    }

    /** One round of the loop: the end of the container at the top of the stack, or one more value. */
    method Step(s: string, start: nat, limit: int, items: int, ghost goal: Outcome)
      returns (status: Status, pos: nat, items': int)
      requires Looping(s, start, limit, items, goal)
      modifies `root, `heap, `next, `stack, `frames, `finished
      ensures status.Running? ==> start < pos && Ready(s, pos, limit, items', goal)
      ensures status.Stopped? ==> goal.Failed? && goal.code == status.code && goal.at == status.at && Failing(goal.remains)
    {
      hide Remaining, Deliver, Kids, After, Path, Open, Key;
      PathTopLive(root, heap, finished, next, stack, frames);
      if frames != [] { RemainingFails(s, start, frames, limit, items); }
      status, pos, items' := Running, start, items;
      if |stack| > limit {
        status := Stopped(DepthExceeded, start);
        return;
      }
      var t := s[start];
      pos := start + 1;
      if pos >= |s| && t != 'e' {
        status := Stopped(UnexpectedEof, pos);
        return;
      }
      var kind := Load(root, heap, Top(stack)).kind;
      if kind == DictT || kind == ListT {
        ContainerTop();
        if t == 'e' {
          RemainingEnd(s, start, frames, limit, items);
          ghost var f := frames[|frames| - 1];
          DeliverTaken(s, frames[..|frames| - 1], limit, Node(f.dict, f.begin, f.kids, pos), pos, items);
          Close(pos);
          return;
        }
        var k := GoodKey(0, start);
        if kind == DictT {
          k := ScanKey(s, t, pos);
          if k.BadKey? {
            status := Stopped(k.code, k.at);
            return;
          }
          t := s[k.value];
          pos := k.value + 1;
        } else {
          ListKey(s, start);
        }
        RemainingChild(s, start, frames, limit, items, k.name, k.value);
        Append(k.name);
      } else {
        RootTop();
        DeliverRoot(s, limit, After(s, t, pos, 1, limit, items));
      }
      status, pos, items' := ReadValue(s, t, pos, limit, items, goal);
    }

    lemma ContainerTop()
      requires stack != [] && Live(heap, Top(stack)) && (AtContainer() || AtChild())
      requires Load(root, heap, Top(stack)).kind == DictT || Load(root, heap, Top(stack)).kind == ListT
      ensures AtContainer() && frames != []
      ensures frames[|frames| - 1].dict <==> Load(root, heap, Top(stack)).kind == DictT
    {
    }

    lemma RootTop()
      requires stack != [] && Live(heap, Top(stack)) && (AtContainer() || AtChild())
      requires Load(root, heap, Top(stack)).kind != DictT && Load(root, heap, Top(stack)).kind != ListT
      ensures AtChild()
    {
    }

    /** Decodes the input into the root entry: 0 for a value or for an input cut off inside a container, -1 with
        an error otherwise. Exactly what the recursive grammar says. */
    method Decode(s: string, depthLimit: int, itemLimit: int)
      returns (ret: int, error: MaybeCode, errorPos: int, pos: nat)
      modifies this
      ensures match Whole(s, depthLimit, itemLimit)
        case Parsed(x, p, _) => ret == 0 && error == NoError && stack == [] && pos == p && Holds(heap, finished, root, x)
        case Cut(x) =>
          ret == 0 && error == NoError && stack != [] && pos == |s| && Holds(heap, finished, root, x)
        case Failed(code, at, x) =>
          ret == -1 && error == Error(code) && errorPos == at && stack == [] && Holds(heap, finished, root, x)
    {
      hide Remaining, Deliver, Kids, After, Path, Open, Key, Whole;
      root := root.(kind := NoneT, start := 0, size := 0, capacity := 0);
      heap, next, stack, finished, frames := map[], 0, [], {}, [];
      ret, error, errorPos, pos := 0, NoError, 0, 0;
      EmptyInput(depthLimit, itemLimit);
      if |s| == 0 { return; }
      stack := [Root];
      PathStart(root);
      ghost var goal := Whole(s, depthLimit, itemLimit);
      var status := Running;
      var items := itemLimit;
      while status.Running? && pos < |s| && |stack| > 0
        invariant status.Running? ==> Looping(s, pos, depthLimit, items, goal) || Ready(s, pos, depthLimit, items, goal)
        invariant status.Stopped? ==> goal.Failed? && goal.code == status.code && goal.at == status.at && Failing(goal.remains)
        decreases if status.Running? then |s| - pos + 1 else 0
      {
        status, pos, items := Step(s, pos, depthLimit, items, goal);
      }
      if status.Stopped? {
        Abandon(goal.remains);
        ret, error, errorPos := -1, Error(status.code), status.at;
      } else if |stack| > 0 {
        StackNow();
        RemainingFails(s, pos, frames, depthLimit, items);
        LeftHolds();
        finished := heap.Keys;
      }
    }

    /** An ordinary entry for a decoded one. */
    method ToEntry(s: string, c: Cell, ghost x: Lazy) returns (v: Option<Value>)
      requires Holds(heap, finished, c, x) && ReadBack(s, x).Some?
      ensures v == ReadBack(s, x)
      decreases x, 1
    {
      match c.kind {
        case NoneT => v := None;
        case StringT => v := Some(Text(Slice(s, c.start, c.start + c.size)));
        case IntT => v := Some(Integer(IntValue(s, c.start, c.size)));
        case _ =>
          if c.size == 0 {
            v := Some(Container(c.kind == DictT, []));
          } else {
            var pairs := ToPairs(s, heap[c.start], c.size, c.kind == DictT, x.kids);
            v := Some(Container(c.kind == DictT, pairs));
          }
      }
    }

    /** The first n children of a container, in order. */
    method ToPairs(s: string, slots: seq<Slot>, n: nat, dict: bool, ghost kids: seq<Kid>) returns (pairs: seq<Pair>)
      requires n == |kids| && SlotsHold(heap, finished, slots, kids) && ReadKids(s, dict, kids).Pairs?
      ensures Pairs(pairs) == ReadKids(s, dict, kids)
      decreases kids, 0
    {
      hide ReadKids, ReadBack, Insert, Holds, Slice, Begin;
      NoPair(s, dict);
      pairs := [];
      var i := 0;
      while i < n
        invariant i <= n && Pairs(pairs) == ReadKids(s, dict, kids[..i])
      {
        NextPair(s, dict, kids, i);
        assert SlotHolds(heap, finished, slots[i], kids[i]);
        var v := ToKid(s, slots[i], kids[i]);
        HeldBegin(heap, finished, slots[i].val, kids[i].val, s);
        if dict {
          pairs := Insert(pairs, Slice(s, slots[i].name, slots[i].val.begin), v.value);
        } else {
          pairs := pairs + [Pair("", v.value)];
        }
        i := i + 1;
      }
      assert kids[..n] == kids;
    }

    method ToKid(s: string, slot: Slot, ghost kid: Kid) returns (v: Option<Value>)
      requires SlotHolds(heap, finished, slot, kid) && ReadKid(s, kid).Some?
      ensures v == ReadKid(s, kid)
      decreases kid
    {
      v := ToEntry(s, slot.val, kid.val);
    }

    /** Encoding, decoding and assigning to an ordinary entry is the identity on everything an entry can hold, as long
        as the limits allow it, and the decoder stops right after the value. */
    method RoundTrip(v: Value, rest: string, depthLimit: int, itemLimit: int) returns (v': Option<Value>, pos: nat)
      requires Representable(v)
      modifies this
      ensures if depthLimit >= 1 && Fits(v, 1, depthLimit) && Count(v) < itemLimit
              then v' == Some(v) && pos == |Encoded(v)| else v' == None
    {
      hide Encoded, Representable, Fits, Count, Holds, After;
      DecodeInvertsEncode(v, rest, depthLimit, itemLimit);
      var text := Bencode("", v);
      assert text == Encoded(v);
      ghost var o := Whole(text + rest, depthLimit, itemLimit);
      var ret, error, errorPos;
      ret, error, errorPos, pos := Decode(text + rest, depthLimit, itemLimit);
      if ret == 0 {
        v' := ToEntry(text + rest, root, o.val);
      } else {
        v' := None;
      }
    }

    /** The same for a text of which only the first n characters came: what stands before the cut is read if it ends
        right behind a child, and nothing otherwise. */
    method CutTrip(v: Value, n: nat, depthLimit: int, itemLimit: int) returns (v': Option<Value>)
      requires Representable(v) && depthLimit >= 1 && Fits(v, 1, depthLimit) && Count(v) < itemLimit && n < |Encoded(v)|
      modifies this
      ensures v' == if n > 0 && BehindChild(v, n) then Some(CutValue(v, n)) else None
    {
      hide Encoded, Representable, Fits, Count, Holds, After, BehindChild, CutValue;
      CutText(v, n, depthLimit, itemLimit);
      var text := Bencode("", v);
      assert text == Encoded(v);
      ghost var o := Whole(text[..n], depthLimit, itemLimit);
      var ret, error, errorPos, pos;
      ret, error, errorPos, pos := Decode(text[..n], depthLimit, itemLimit);
      if ret == 0 && n > 0 {
        v' := ToEntry(text[..n], root, o.left);
      } else {
        v' := None;
      }
    }

    /** write_integer. */
    static method WriteInteger(out: string, i: int) returns (out': string)
      requires INT64_MIN < i <= INT64_MAX
      ensures out' == out + Printed(i)
    {
      var buf := new char[21];
      var at := IntegerToStr(buf, i);
      out' := out + buf[at..20];
    }

    /** bencode_recursive. */
    static method Bencode(out: string, v: Value) returns (out': string)
      requires Representable(v)
      ensures out' == out + Encoded(v)
      decreases v, 1
    {
      hide Printed, Decimal, EncodedKids;
      match v {
        case Integer(i) =>
          out' := WriteInteger(out + "i", i);
          out' := out' + "e";
        case Text(t) =>
          out' := WriteInteger(out, |t|);
          LengthPrinted(|t|);
          out' := out' + ":" + t;
        case Container(dict, kids) =>
          out' := out + if dict then "d" else "l";
          out' := BencodeKids(out', dict, kids);
          out' := out' + "e";
      }
    }

    static method BencodeKids(out: string, dict: bool, kids: seq<Pair>) returns (out': string)
      requires forall k | 0 <= k < |kids| :: Representable(kids[k].val) && |kids[k].key| <= INT64_MAX
      ensures out' == out + EncodedKids(dict, kids)
      decreases kids
    {
      hide Printed, Decimal, Representable, Encoded;
      out' := out;
      if kids != [] {
        if dict {
          out' := WriteInteger(out, |kids[0].key|);
          LengthPrinted(|kids[0].key|);
          out' := out' + ":" + kids[0].key;
          assert out' == out + EncodedKey(dict, kids[0].key);
        }
        out' := Bencode(out', kids[0].val);
        assert forall k | 0 <= k < |kids[1..]| :: kids[1..][k] == kids[k + 1];
        out' := BencodeKids(out', dict, kids[1..]);
        KidsText(out, dict, kids);
      }
    }

    lemma LeftHolds()
      requires AtContainer()
      ensures frames != [] && Holds(heap, heap.Keys, root, LeftOpen(frames))
    {
      var n := |stack| - 1;
      OpenLeft(heap, finished, Load(root, heap, stack[n]), frames[n]);
      HoldsAround(root, heap, finished, next, stack, frames, n, Unended(frames[n].dict, frames[n].begin, frames[n].kids));
    }

    lemma StackNow()
      requires AtContainer()
      ensures stack != [] && |frames| == |stack|
    {
    }
  }

  /** Where decoding fails: at an entry that is not finished, which its container will drop, or at a container. */
  ghost predicate FailingState(root: Cell, heap: Heap, finished: set<nat>, next: nat, stack: seq<Ref>, frames: seq<Frame>, x: Lazy) {
    && Path(root, heap, finished, next, stack, frames)
    && if |frames| == |stack| then
         && Live(heap, Top(stack)) && Open(heap, finished, Load(root, heap, Top(stack)), frames[|frames| - 1], false)
         && x == Dropping(frames)
       else
         && |frames| == |stack| - 1
         && if frames == [] then !x.Node? && !x.Unended? && Holds(heap, finished, root, x) else x == Outermost(frames)
  }

  function RootCount(frames: seq<Frame>): nat {
    if frames == [] then 0 else |frames[0].kids|
  }

  /** A container without its last child. */
  function Popped(c: Cell): Cell {
    if (c.kind == DictT || c.kind == ListT) && c.size > 0 then c.(size := c.size - 1) else c
  }

  /** The finished entries stay, and the first k elements of one array. */
  ghost predicate RootKept(heap: Heap, heap': Heap, finished: set<nat>, home: nat, k: nat) {
    && (forall a | a in finished && a in heap :: a in heap' && heap'[a] == heap[a])
    && (home in heap ==>
          home in heap' && |heap'[home]| == |heap[home]| && forall i | 0 <= i < k && i < |heap[home]| :: heap'[home][i] == heap[home][i])
  }

  lemma KeptStart(heap: Heap, finished: set<nat>, home: nat, k: nat)
    ensures RootKept(heap, heap, finished, home, k)
  {
  }

  /** Entries on the stack are none of those. */
  ghost predicate ApartAll(finished: set<nat>, stack: seq<Ref>, home: nat, k: nat) {
    && |stack| > 0 && stack[0] == Root
    && forall j | 0 < j < |stack| :: stack[j].Elem? && stack[j].home !in finished && (stack[j].home == home ==> stack[j].index >= k)
  }

  lemma FailingApart(root: Cell, heap: Heap, finished: set<nat>, next: nat, stack: seq<Ref>, frames: seq<Frame>, x: Lazy)
    requires FailingState(root, heap, finished, next, stack, frames, x)
    ensures ApartAll(finished, stack, root.start, RootCount(frames)) && forall j | 0 <= j < |stack| :: Live(heap, stack[j])
  {
    if |stack| > 1 {
      assert Linked(root, heap, finished, stack, frames, 0);
      OpenFacts(heap, finished, root, frames[0]);
    }
    hide Linked, Open, Holds;
  }

  lemma StoreApart(heap: Heap, heap1: Heap, finished: set<nat>, home: nat, k: nat, stack: seq<Ref>, n: nat, c: Cell)
    requires ApartAll(finished, stack, home, k) && n < |stack| && Live(heap1, stack[n]) && RootKept(heap, heap1, finished, home, k)
    ensures RootKept(heap, StoreHeap(heap1, stack[n], c), finished, home, k) && StoreHeap(heap1, stack[n], c).Keys == heap1.Keys
    ensures forall r: Ref | Live(heap1, r) :: Live(StoreHeap(heap1, stack[n], c), r)
  {
  }

  /** The root is the first entry on the stack, and the only one that is no element. */
  lemma RootFirst(finished: set<nat>, stack: seq<Ref>, home: nat, k: nat)
    requires ApartAll(finished, stack, home, k)
    ensures |stack| > 0 && stack[0] == Root && forall j | 0 < j < |stack| :: stack[j].Elem?
  {
  }

  /** What is left holds the outermost container without the child that was dropped. */
  lemma FailingEnd(root: Cell, heap: Heap, finished: set<nat>, next: nat, stack: seq<Ref>, frames: seq<Frame>, x: Lazy, heap': Heap)
    requires FailingState(root, heap, finished, next, stack, frames, x) && heap'.Keys == heap.Keys
    requires RootKept(heap, heap', finished, root.start, RootCount(frames))
    ensures Holds(heap', heap'.Keys, Popped(root), x)
  {
    if frames == [] {
      hide Path;
    } else {
      assert |stack| > 1 ==> Linked(root, heap, finished, stack, frames, 0);
      var f, busy := frames[0], |stack| > 1;
      assert Open(heap, finished, root, f, busy) && finished <= heap.Keys;
      hide Path;
      OpenPopped(root, heap, finished, f, busy, heap');
    }
  }

  lemma OpenPopped(c: Cell, heap: Heap, finished: set<nat>, f: Frame, busy: bool, heap': Heap)
    requires Open(heap, finished, c, f, busy) && finished <= heap.Keys == heap'.Keys
    requires RootKept(heap, heap', finished, c.start, |f.kids|)
    ensures Holds(heap', heap'.Keys, Popped(c), Unended(f.dict, f.begin, if busy then f.kids else WithoutLast(f.kids)))
  {
    var kids := if busy then f.kids else WithoutLast(f.kids);
    if |kids| > 0 {
      SlotsStill(heap, heap', finished, heap'.Keys, heap[c.start], f.kids);
      hide SlotHolds;
      assert forall i | 0 <= i < |kids| :: SlotHolds(heap', heap'.Keys, heap'[c.start][i], kids[i]);
    }
  }

  lemma OpenRoom(heap: Heap, finished: set<nat>, c: Cell, f: Frame)
    requires Open(heap, finished, c, f, false)
    ensures c.size == |f.kids| <= c.capacity && (c.capacity == 0 || c.capacity >= 5)
    ensures c.capacity > 0 ==> c.start in heap && |heap[c.start]| == c.capacity && c.start !in finished
  {
  }

  lemma OpenElsewhere(heap: Heap, heap': Heap, finished: set<nat>, c: Cell, f: Frame)
    requires Open(heap, finished, c, f, true) && c.start in heap' && heap'[c.start] == heap[c.start]
    requires forall a | a in finished :: a in heap' && (a in heap ==> heap'[a] == heap[a])
    ensures Open(heap', finished, c, f, true)
    ensures heap'[c.start][c.size - 1] == heap[c.start][c.size - 1]
  {
    OpenStill(heap, heap', finished, finished, c, f);
  }

  lemma EmptyInput(limit: int, items: int)
    ensures Whole("", limit, items) == Parsed(Empty, 0, items)
  {
  }

  lemma KidsText(out: string, dict: bool, kids: seq<Pair>)
    requires kids != []
    ensures out + EncodedKids(dict, kids) ==
            (if dict then out + EncodedKey(dict, kids[0].key) else out) + Encoded(kids[0].val) + EncodedKids(dict, kids[1..])
  {
    var a, b, c := EncodedKey(dict, kids[0].key), Encoded(kids[0].val), EncodedKids(dict, kids[1..]);
    assert EncodedKids(dict, kids) == a + b + c;
    Joined(out, a, b, c);
    if !dict { assert out + a == out; }
  }

  lemma Joined(out: string, a: string, b: string, c: string)
    ensures out + (a + b + c) == out + a + b + c
  {
  }

  lemma ListKey(s: string, pos: nat)
    requires pos + 1 < |s|
    ensures Key(s, pos, false) == GoodKey(0, pos)
  {
  }

  lemma DeliverRoot(s: string, limit: int, o: Outcome)
    requires o.Parsed? ==> o.pos <= |s|
    ensures Deliver(s, [], limit, o) == o
  {
  }

  /** Children that can all be read back can be read back one after the other. */
  lemma {:induction false} PairsBefore(s: string, dict: bool, kids: seq<Kid>, n: nat)
    requires n <= |kids| && ReadKids(s, dict, kids).Pairs?
    ensures ReadKids(s, dict, kids[..n]).Pairs?
    ensures n > 0 ==> ReadKid(s, kids[n - 1]).Some?
    decreases |kids|
  {
    if n < |kids| {
      assert kids[..|kids| - 1][..n] == kids[..n];
      PairsBefore(s, dict, kids[..|kids| - 1], n);
    } else {
      assert kids[..n] == kids;
    }
  }

  /** The children read so far, and one more. */
  lemma NextPair(s: string, dict: bool, kids: seq<Kid>, i: nat)
    requires i < |kids| && ReadKids(s, dict, kids).Pairs?
    ensures ReadKids(s, dict, kids[..i]).Pairs? && ReadKid(s, kids[i]).Some?
    ensures var before := ReadKids(s, dict, kids[..i]).pairs; var v := ReadKid(s, kids[i]).value;
      ReadKids(s, dict, kids[..i + 1])
      == Pairs(if dict then Insert(before, Slice(s, kids[i].name, Begin(kids[i].val)), v) else before + [Pair("", v)])
  {
    hide Insert, Slice, Begin, ReadKid;
    PairsBefore(s, dict, kids, i + 1);
    PairsBefore(s, dict, kids, i);
    assert kids[..i + 1][..i] == kids[..i];
  }

  lemma NoPair(s: string, dict: bool)
    ensures ReadKids(s, dict, []) == Pairs([])
  {
  }

  lemma HeldBegin(heap: Heap, finished: set<nat>, c: Cell, x: Lazy, s: string)
    requires Holds(heap, finished, c, x) && ReadBack(s, x).Some?
    ensures c.begin == Begin(x)
  {
  }

  /** One more character before the text w that ends the buffer. */
  method Prepend(buf: array<char>, size: nat, c: char, ghost w: string) returns (size': nat, ghost w': string)
    requires buf.Length == 21 && 0 < size <= 20 && |w| == 20 - size && buf[size..20] == w
    modifies buf
    ensures size' == size - 1 && w' == [c] + w && buf[size'..20] == w' && buf[20] == old(buf[20])
    ensures w' != "" && buf[19] == w'[|w'| - 1]
  {
    size' := size - 1;
    buf[size'] := c;
    w' := [c] + w;
    assert buf[size'..20] == w';
  }

  /** Negation of a 64-bit integer in two's complement. */
  function Negated(a: int): int {
    if a == INT64_MIN then INT64_MIN else -a
  }

  lemma NegatedIs(i: int)
    requires INT64_MIN <= i <= INT64_MAX
    ensures var n := if i < 0 then Negated(i) else i;
      && n <= INT64_MAX && (n < 0 <==> i == INT64_MIN) && (i == INT64_MIN ==> n == INT64_MIN)
      && (i < 0 && i != INT64_MIN ==> n == -i > 0)
  {
  }

  lemma LengthPrinted(n: nat)
    ensures Printed(n) == Decimal(n)
  {
  }

  lemma PrintedIs(i: int)
    ensures Printed(i) == if i < 0 then "-" + Decimal(-i) else Decimal(i)
  {
  }

  /** Remainder and quotient as C has them, for negative numbers too. */
  function Remainder(a: int): int {
    if a < 0 then -((-a) % 10) else a % 10
  }

  function Quotient(a: int): int {
    if a < 0 then -((-a) / 10) else a / 10
  }

  /** The number of digits of a number below a power of ten. */
  lemma {:induction false} FewDigits(n: nat, k: nat)
    requires n < Pow10(k) && k > 0
    ensures |Decimal(n)| <= k
  {
    if n >= 10 {
      assert k > 1 by { assert Pow10(1) == 10 * Pow10(0); }
      FewDigits(n / 10, k - 1);
    }
  }

  /** The loop of integer_to_str: the digits of n, up to the end of the buffer. */
  method PrintDigits(buf: array<char>, n: int, sign: nat) returns (size: nat, ghost w: string)
    requires buf.Length == 21 && sign <= 1 && (n == INT64_MIN || 0 <= n) && n <= INT64_MAX
    modifies buf
    ensures sign <= size < 20 && buf[20] == old(buf[20]) && buf[size..20] == w && |w| == 20 - size
    ensures n >= 0 ==> w == Decimal(n)
    ensures n < 0 ==> w[|w| - 1] == '('
  {
    hide *;
    var val := n;
    size, w := 20, "";
    if val == 0 {
      size, w := Prepend(buf, size, '0', w);
    }
    assert w == if n == 0 then "0" else "";
    DigitsStart(n);
    while size > sign && val != 0
      invariant sign <= size <= 20 && buf[20] == old(buf[20]) && |w| == 20 - size && buf[size..20] == w
      invariant Digits(n, val, w)
      decreases if val < 0 then -val else val
    {
      DigitsStep(n, val, w);
      QuotientShrinks(val);
      size, w := Prepend(buf, size, ('0' as int + Remainder(val)) as char, w);
      val := Quotient(val);
    }
    DigitsDone(n, val, w);
  }

  /** integer_to_str: fills the buffer from its end and returns where the text starts. The smallest 64-bit integer
      has no opposite, so its digits come out as other characters; every other one is printed as it is read. */
  method IntegerToStr(buf: array<char>, i: int) returns (at: nat)
    requires buf.Length == 21 && INT64_MIN <= i <= INT64_MAX
    modifies buf
    ensures at < 21 && buf[20] == '\0'
    ensures i > INT64_MIN ==> buf[at..20] == Printed(i)
    ensures i == INT64_MIN ==> buf[19] == '('
  {
    hide *;
    NegatedIs(i);
    PrintedIs(i);
    buf[20] := '\0';
    ghost var w;
    at, w := PrintDigits(buf, if i < 0 then Negated(i) else i, if i < 0 then 1 else 0);
    assert buf[19] == w[|w| - 1];
    if i < 0 {
      assert (['-'] + w)[|w|] == w[|w| - 1];
      at, w := Prepend(buf, at, '-', w);
    }
  }

  /** The digits w written so far for n, with val left to print. */
  ghost predicate Digits(n: int, val: int, w: string) {
    if n == 0 then val == 0 && w == Decimal(0)
    else if n > 0 then val >= 0 && Left(val) + w == Decimal(n)
    else val <= 0 && (w != "" ==> w[|w| - 1] == '(') && (w == "" ==> val == INT64_MIN)
  }

  lemma DigitsStart(n: int)
    requires INT64_MIN == n || 0 <= n <= INT64_MAX
    ensures Digits(n, n, if n == 0 then "0" else "")
  {
  }

  lemma DigitsStep(n: int, val: int, w: string)
    requires Digits(n, val, w) && val != 0
    ensures 0 <= '0' as int + Remainder(val) < 100
    ensures Digits(n, Quotient(val), [('0' as int + Remainder(val)) as char] + w)
  {
    if n > 0 {
      var d := [('0' as int + Remainder(val)) as char];
      assert Left(val) == Left(Quotient(val)) + d;
      assert Left(val) + w == Left(Quotient(val)) + (d + w);
    }
  }

  lemma QuotientShrinks(a: int)
    requires a != 0
    ensures if a < 0 then a < Quotient(a) <= 0 else 0 <= Quotient(a) < a
  {
  }

  lemma DigitsDone(n: int, val: int, w: string)
    requires Digits(n, val, w) && n <= INT64_MAX && (|w| >= 19 || val == 0)
    ensures |w| > 0 && (n >= 0 ==> w == Decimal(n))
    ensures n < 0 ==> w[|w| - 1] == '('
  {
    Room(n);
  }

  /** The digits still to be written. */
  function Left(val: int): (r: string)
    ensures val > 0 ==> |r| >= 1
  {
    if val <= 0 then "" else Decimal(val)
  }

  /** Nineteen digits are enough. */
  lemma Room(n: int)
    requires n <= INT64_MAX
    ensures n >= 0 ==> |Decimal(n)| <= 19
  {
    if n >= 0 {
      BigPower();
      FewDigits(n, 19);
    }
  }

  lemma BigPower()
    ensures Pow10(19) == 10_000_000_000_000_000_000
  {
    assert Pow10(4) == 10_000;
    assert Pow10(8) == 100_000_000;
    assert Pow10(12) == 1_000_000_000_000;
    assert Pow10(16) == 10_000_000_000_000_000;
  }
}
