/** The decoder's entries in memory: cells in growable arrays, and the open containers on the decoder's stack. */
module LazyCells {
  import opened Bencode
  import opened BdecodeGrammar

  datatype Kind = NoneT | DictT | ListT | StringT | IntT

  /** One lazy entry. `start` is a place in the input, or for a container the array of its children. */
  datatype Cell = Cell(kind: Kind, start: nat, size: nat, capacity: nat, begin: int, len: int)

  /** An array element: a child and, in a dictionary, where its key starts. */
  datatype Slot = Slot(name: nat, val: Cell)

  const EMPTY_CELL := Cell(NoneT, 0, 0, 0, 0, 0)
  const EMPTY_SLOT := Slot(0, EMPTY_CELL)

  type Heap = map<nat, seq<Slot>>

  /** A pointer to an entry: the caller's root, or an element of an array. */
  datatype Ref = Root | Elem(home: nat, index: nat)

  ghost predicate Live(heap: Heap, r: Ref) {
    r.Elem? ==> r.home in heap && r.index < |heap[r.home]|
  }

  function Load(root: Cell, heap: Heap, r: Ref): Cell
    requires Live(heap, r)
  {
    match r
    case Root => root
    case Elem(a, i) => heap[a][i].val
  }

  function StoreRoot(root: Cell, r: Ref, c: Cell): Cell {
    if r.Root? then c else root
  }

  function StoreHeap(heap: Heap, r: Ref, c: Cell): Heap
    requires Live(heap, r)
  {
    match r
    case Root => heap
    case Elem(a, i) => heap[a := heap[a][i := Slot(heap[a][i].name, c)]]
  }

  /** The cell holds the entry x; the arrays of its containers are among the finished ones. */
  ghost predicate Holds(heap: Heap, finished: set<nat>, c: Cell, x: Lazy)
    decreases x, 1
  {
    match x
    case Empty => c.kind == NoneT
    case IntAt(start, size) => c.kind == IntT && c.start == start && c.size == size && c.begin == Begin(x) && c.len == Span(x)
    case TextAt(start, size) => c.kind == StringT && c.start == start && c.size == size && c.begin == Begin(x) && c.len == Span(x)
    case Node(dict, begin, kids, end) =>
      && c.kind == (if dict then DictT else ListT) && c.begin == begin && c.len == end - begin && c.size == |kids|
      && (|kids| > 0 ==> c.start in heap && c.start in finished && SlotsHold(heap, finished, heap[c.start], kids))
    case Unended(dict, begin, kids) =>
      && c.kind == (if dict then DictT else ListT) && c.begin == begin && c.size == |kids|
      && (|kids| > 0 ==> c.start in heap && c.start in finished && SlotsHold(heap, finished, heap[c.start], kids))
  }

  ghost predicate SlotsHold(heap: Heap, finished: set<nat>, slots: seq<Slot>, kids: seq<Kid>)
    decreases kids, 0
  {
    |kids| <= |slots| && forall i | 0 <= i < |kids| :: SlotHolds(heap, finished, slots[i], kids[i])
  }

  ghost predicate SlotHolds(heap: Heap, finished: set<nat>, slot: Slot, kid: Kid)
    decreases kid
  {
    slot.name == kid.name && Holds(heap, finished, slot.val, kid.val)
  }

  /** A container that is still being filled: its finished children, and where the key of the next one starts. */
  datatype Frame = Frame(dict: bool, begin: int, kids: seq<Kid>, pending: nat)

  ghost predicate Open(heap: Heap, finished: set<nat>, c: Cell, f: Frame, busy: bool) {
    && c.kind == (if f.dict then DictT else ListT) && c.begin == f.begin
    && c.size == |f.kids| + (if busy then 1 else 0) <= c.capacity && (c.capacity == 0 || c.capacity >= 5)
    && (c.capacity > 0 ==>
          && c.start in heap && c.start !in finished && |heap[c.start]| == c.capacity
          && SlotsHold(heap, finished, heap[c.start], f.kids)
          && (busy ==> heap[c.start][|f.kids|].name == f.pending)
          && forall i | c.size <= i < c.capacity :: heap[c.start][i] == EMPTY_SLOT)
  }

  /** The stack leads from the root through the child being filled of every open container; only the top is not
      described by a frame of its own. */
  ghost predicate Path(root: Cell, heap: Heap, finished: set<nat>, next: nat, stack: seq<Ref>, frames: seq<Frame>) {
    && Refs(heap, finished, next, stack) && |frames| >= |stack| - 1
    && (forall j | 0 <= j < |stack| - 1 :: Linked(root, heap, finished, stack, frames, j))
  }

  /** Every pointer on the stack is live, and no two are in the same array. */
  ghost predicate Refs(heap: Heap, finished: set<nat>, next: nat, stack: seq<Ref>) {
    && |stack| > 0 && stack[0] == Root
    && (forall a | a in finished :: a in heap) && (forall a | a in heap :: a < next)
    && (forall j | 0 <= j < |stack| :: Live(heap, stack[j]))
    && (forall j | 0 < j < |stack| :: stack[j].Elem? && stack[j].home !in finished)
    && (forall j, k | 0 < j < k < |stack| :: stack[j].home != stack[k].home)
  }

  ghost predicate Linked(root: Cell, heap: Heap, finished: set<nat>, stack: seq<Ref>, frames: seq<Frame>, j: nat)
    requires j + 1 < |stack| && j < |frames| && Live(heap, stack[j])
  {
    var c := Load(root, heap, stack[j]);
    Open(heap, finished, c, frames[j], true) && stack[j + 1] == Elem(c.start, c.size - 1)
  }

  function Top(stack: seq<Ref>): Ref
    requires |stack| > 0
  {
    stack[|stack| - 1]
  }

  /** The array is not one that a container below the top of the stack is filling. */
  ghost predicate Apart(a: nat, stack: seq<Ref>) {
    forall j | 0 < j < |stack| && stack[j].Elem? :: stack[j].home != a
  }

  /** A finished entry stays what it is while the finished arrays do. */
  lemma {:induction false} HoldsStill(heap: Heap, heap': Heap, finished: set<nat>, finished': set<nat>, c: Cell, x: Lazy)
    requires Holds(heap, finished, c, x) && finished <= finished'
    requires forall a | a in finished && a in heap :: a in heap' && heap'[a] == heap[a]
    ensures Holds(heap', finished', c, x)
    decreases x, 1
  {
    if (x.Node? || x.Unended?) && |x.kids| > 0 {
      SlotsStill(heap, heap', finished, finished', heap[c.start], x.kids);
    }
  }

  lemma {:induction false} SlotsStill(heap: Heap, heap': Heap, finished: set<nat>, finished': set<nat>, slots: seq<Slot>, kids: seq<Kid>)
    requires SlotsHold(heap, finished, slots, kids) && finished <= finished'
    requires forall a | a in finished && a in heap :: a in heap' && heap'[a] == heap[a]
    ensures SlotsHold(heap', finished', slots, kids)
    decreases kids, 0
  {
    forall i | 0 <= i < |kids|
      ensures SlotHolds(heap', finished', slots[i], kids[i])
    {
      SlotStill(heap, heap', finished, finished', slots[i], kids[i]);
    }
  }

  lemma {:induction false} SlotStill(heap: Heap, heap': Heap, finished: set<nat>, finished': set<nat>, slot: Slot, kid: Kid)
    requires SlotHolds(heap, finished, slot, kid) && finished <= finished'
    requires forall a | a in finished && a in heap :: a in heap' && heap'[a] == heap[a]
    ensures SlotHolds(heap', finished', slot, kid)
    decreases kid
  {
    HoldsStill(heap, heap', finished, finished', slot.val, kid.val);
  }

  /** An open container does not notice changes to other arrays, nor to the entry it is filling. */
  lemma OpenStill(heap: Heap, heap': Heap, finished: set<nat>, finished': set<nat>, c: Cell, f: Frame)
    requires Open(heap, finished, c, f, true) && finished <= finished' && c.start !in finished'
    requires forall a | a in finished && a in heap :: a in heap' && heap'[a] == heap[a]
    requires c.start in heap' && |heap'[c.start]| == |heap[c.start]|
    requires heap'[c.start][|f.kids|].name == heap[c.start][|f.kids|].name
    requires forall i | 0 <= i < c.capacity && i != |f.kids| :: heap'[c.start][i] == heap[c.start][i]
    ensures Open(heap', finished', c, f, true)
  {
    SlotsStill(heap, heap', finished, finished', heap[c.start], f.kids);
    hide SlotHolds;
    assert forall i | 0 <= i < |f.kids| :: SlotHolds(heap', finished', heap'[c.start][i], f.kids[i]);
  }

  /** The changes to memory that keep the path to the top of the stack: finished arrays and the arrays being filled
      below the top stay, but for the top entry itself. */
  ghost predicate Kept(heap: Heap, heap': Heap, finished: set<nat>, stack: seq<Ref>) {
    && (forall a | a in finished && a in heap :: a in heap' && heap'[a] == heap[a])
    && forall j | 0 < j < |stack| && stack[j].Elem? && stack[j].home in heap ::
         && stack[j].home in heap' && |heap'[stack[j].home]| == |heap[stack[j].home]|
         && forall i | 0 <= i < |heap[stack[j].home]| ::
              && heap'[stack[j].home][i].name == heap[stack[j].home][i].name
              && (j < |stack| - 1 || i != stack[j].index ==> heap'[stack[j].home][i] == heap[stack[j].home][i])
  }

  lemma PathKept(root: Cell, heap: Heap, finished: set<nat>, next: nat, stack: seq<Ref>, frames: seq<Frame>,
                 root': Cell, heap': Heap, finished': set<nat>, next': nat)
    requires Path(root, heap, finished, next, stack, frames) && Kept(heap, heap', finished, stack)
    requires |stack| > 1 ==> root' == root
    requires finished <= finished' && (forall a | a in finished' && a !in finished :: Apart(a, stack) && a in heap')
    requires forall a | a in heap' :: a < next'
    ensures Path(root', heap', finished', next', stack, frames)
  {
    hide Open;
    forall j | 0 <= j < |stack|
      ensures Live(heap', stack[j])
      ensures j < |stack| - 1 ==> Load(root', heap', stack[j]) == Load(root, heap, stack[j])
    {
      assert Live(heap, stack[j]);
    }
    forall j | 0 <= j < |stack| - 1
      ensures Linked(root', heap', finished', stack, frames, j)
    {
      assert Linked(root, heap, finished, stack, frames, j);
      var c := Load(root, heap, stack[j]);
      OpenFacts(heap, finished, c, frames[j]);
      assert Live(heap, stack[j + 1]);
      assert stack[j + 1].home == c.start;
      OpenStill(heap, heap', finished, finished', c, frames[j]);
    }
  }

  lemma OpenFacts(heap: Heap, finished: set<nat>, c: Cell, f: Frame)
    requires Open(heap, finished, c, f, true)
    ensures c.size == |f.kids| + 1 <= c.capacity && c.start in heap && c.start !in finished && |heap[c.start]| == c.capacity
  {
  }

  /** Writing the entry at the top of the stack. */
  lemma StoreTop(root: Cell, heap: Heap, finished: set<nat>, next: nat, stack: seq<Ref>, frames: seq<Frame>, c: Cell)
    requires Path(root, heap, finished, next, stack, frames)
    ensures Live(heap, Top(stack))
    ensures var root', heap' := StoreRoot(root, Top(stack), c), StoreHeap(heap, Top(stack), c);
      && Path(root', heap', finished, next, stack, frames) && Live(heap', Top(stack)) && Load(root', heap', Top(stack)) == c
      && heap'.Keys == heap.Keys
      && (forall a | a in heap && Apart(a, stack) :: heap'[a] == heap[a])
      && (forall a | a in finished :: a in heap && heap'[a] == heap[a])
  {
    var r := Top(stack);
    assert Live(heap, r);
    var root', heap' := StoreRoot(root, r, c), StoreHeap(heap, r, c);
    StoreKept(root, heap, finished, next, stack, frames, c);
    PathKept(root, heap, finished, next, stack, frames, root', heap', finished, next);
    forall a | a in heap && Apart(a, stack)
      ensures heap'[a] == heap[a]
    {
      assert r.Elem? ==> stack[|stack| - 1].home != a;
    }
  }

  lemma StoreKept(root: Cell, heap: Heap, finished: set<nat>, next: nat, stack: seq<Ref>, frames: seq<Frame>, c: Cell)
    requires Path(root, heap, finished, next, stack, frames) && Live(heap, Top(stack))
    ensures Kept(heap, StoreHeap(heap, Top(stack), c), finished, stack)
    ensures |stack| > 1 ==> StoreRoot(root, Top(stack), c) == root
  {
    hide Linked;
  }

  /** A container without room gets a larger array; the old one goes. */
  function Capacity(capacity: nat): nat {
    if capacity == 0 then 5 else capacity * 150 / 100
  }

  function Padded(slots: seq<Slot>, n: nat): (r: seq<Slot>)
    requires |slots| <= n
    ensures |r| == n && r[..|slots|] == slots && forall i | |slots| <= i < n :: r[i] == EMPTY_SLOT
  {
    slots + seq(n - |slots|, _ => EMPTY_SLOT)
  }

  lemma GrowOpen(root: Cell, heap: Heap, finished: set<nat>, next: nat, stack: seq<Ref>, frames: seq<Frame>, c: Cell, f: Frame,
                 heap': Heap, slots: seq<Slot>)
    requires Path(root, heap, finished, next, stack, frames) && Open(heap, finished, c, f, false) && c.size == c.capacity
    requires c.capacity > 0 ==> Apart(c.start, stack)
    requires slots == if c.capacity == 0 then [] else heap[c.start]
    requires |slots| <= Capacity(c.capacity)
    requires heap' == (if c.capacity == 0 then heap else heap - {c.start})[next := Padded(slots, Capacity(c.capacity))]
    ensures Path(root, heap', finished, next + 1, stack, frames) && Apart(next, stack)
    ensures Open(heap', finished, c.(start := next, capacity := Capacity(c.capacity)), f, false)
    ensures c.capacity < Capacity(c.capacity)
  {
    assert forall j | 0 < j < |stack| :: Live(heap, stack[j]);
    GrowKept(root, heap, finished, next, stack, frames, c, heap', slots);
    PathKept(root, heap, finished, next, stack, frames, root, heap', finished, next + 1);
    if c.capacity > 0 {
      SlotsStill(heap, heap', finished, finished, heap[c.start], f.kids);
    }
    hide SlotHolds, Path;
    assert forall i | 0 <= i < |f.kids| :: heap'[next][i] == slots[i];
    assert forall i | 0 <= i < |f.kids| :: SlotHolds(heap', finished, heap'[next][i], f.kids[i]);
  }

  lemma GrowKept(root: Cell, heap: Heap, finished: set<nat>, next: nat, stack: seq<Ref>, frames: seq<Frame>, c: Cell,
                 heap': Heap, slots: seq<Slot>)
    requires Path(root, heap, finished, next, stack, frames) && |slots| <= Capacity(c.capacity)
    requires c.capacity > 0 ==> Apart(c.start, stack) && c.start !in finished
    requires heap' == (if c.capacity == 0 then heap else heap - {c.start})[next := Padded(slots, Capacity(c.capacity))]
    ensures Kept(heap, heap', finished, stack)
    ensures forall a | a in heap' :: a < next + 1
  {
    hide Linked;
    assert forall j | 0 < j < |stack| :: Live(heap, stack[j]);
  }

  /** Taking the next free element for a child. */
  lemma TakeOpen(root: Cell, heap: Heap, finished: set<nat>, next: nat, stack: seq<Ref>, frames: seq<Frame>, c: Cell, f: Frame,
                 name: nat, heap': Heap)
    requires Path(root, heap, finished, next, stack, frames) && Open(heap, finished, c, f, false) && c.size < c.capacity
    requires Apart(c.start, stack)
    requires heap' == heap[c.start := heap[c.start][c.size := Slot(name, heap[c.start][c.size].val)]]
    ensures Path(root, heap', finished, next, stack, frames)
    ensures Open(heap', finished, c.(size := c.size + 1), f.(pending := name), true)
    ensures heap'[c.start][c.size] == Slot(name, EMPTY_CELL)
  {
    assert forall j | 0 < j < |stack| :: Live(heap, stack[j]);
    TakeKept(root, heap, finished, next, stack, frames, c, name, heap');
    PathKept(root, heap, finished, next, stack, frames, root, heap', finished, next);
    SlotsStill(heap, heap', finished, finished, heap[c.start], f.kids);
    hide SlotHolds, Path;
    assert forall i | 0 <= i < |f.kids| :: SlotHolds(heap', finished, heap'[c.start][i], f.kids[i]);
  }

  lemma TakeKept(root: Cell, heap: Heap, finished: set<nat>, next: nat, stack: seq<Ref>, frames: seq<Frame>, c: Cell,
                 name: nat, heap': Heap)
    requires Path(root, heap, finished, next, stack, frames) && Apart(c.start, stack) && c.start in heap && c.size < |heap[c.start]|
    requires c.start !in finished && heap' == heap[c.start := heap[c.start][c.size := Slot(name, heap[c.start][c.size].val)]]
    ensures Kept(heap, heap', finished, stack)
  {
    hide Linked;
    assert forall j | 0 < j < |stack| :: Live(heap, stack[j]);
  }

  /** The child being filled goes on the stack. */
  lemma PushChild(root: Cell, heap: Heap, finished: set<nat>, next: nat, stack: seq<Ref>, frames: seq<Frame>)
    requires Path(root, heap, finished, next, stack, frames) && |frames| == |stack| && Live(heap, Top(stack))
    requires var c := Load(root, heap, Top(stack)); Open(heap, finished, c, frames[|stack| - 1], true) && Apart(c.start, stack)
    ensures var c := Load(root, heap, Top(stack));
      Path(root, heap, finished, next, stack + [Elem(c.start, c.size - 1)], frames)
  {
    var c := Load(root, heap, Top(stack));
    var stack' := stack + [Elem(c.start, c.size - 1)];
    OpenFacts(heap, finished, c, frames[|stack| - 1]);
    hide Open;
    forall j | 0 <= j < |stack'| - 1
      ensures Live(heap, stack'[j]) && Linked(root, heap, finished, stack', frames, j)
    {
      assert Live(heap, stack[j]);
      if j < |stack| - 1 { assert Linked(root, heap, finished, stack, frames, j); }
    }
  }

  /** The last frame gets its pending child. */
  function Taken(frames: seq<Frame>, x: Lazy): seq<Frame>
    requires |frames| > 0
  {
    var f := frames[|frames| - 1];
    frames[..|frames| - 1] + [f.(kids := f.kids + [Kid(f.pending, x)])]
  }

  /** Without its top the stack is a path still, and frames below the last do not change. */
  lemma PopPath(root: Cell, heap: Heap, finished: set<nat>, next: nat, stack: seq<Ref>, frames: seq<Frame>, frames': seq<Frame>)
    requires Path(root, heap, finished, next, stack, frames) && |frames| == |frames'| == |stack| - 1 > 0
    requires frames'[..|stack| - 2] == frames[..|stack| - 2]
    ensures var stack' := stack[..|stack| - 1]; Path(root, heap, finished, next, stack', frames') && Live(heap, Top(stack'))
  {
    var n := |stack| - 1;
    var stack' := stack[..n];
    PopRefs(heap, finished, next, stack);
    hide Open, Refs, Live;
    forall j | 0 <= j < n - 1
      ensures Linked(root, heap, finished, stack', frames', j)
    {
      assert frames'[j] == frames'[..n - 1][j] == frames[..n - 1][j] == frames[j];
      assert Linked(root, heap, finished, stack, frames, j);
    }
  }

  lemma PopRefs(heap: Heap, finished: set<nat>, next: nat, stack: seq<Ref>)
    requires Refs(heap, finished, next, stack) && |stack| > 1
    ensures Refs(heap, finished, next, stack[..|stack| - 1])
    ensures var below := stack[..|stack| - 1]; forall j | 0 <= j < |below| :: Live(heap, below[j])
  {
  }

  /** The container below the top of the stack. */
  lemma PopOpen(root: Cell, heap: Heap, finished: set<nat>, next: nat, stack: seq<Ref>, frames: seq<Frame>)
    requires Path(root, heap, finished, next, stack, frames) && |stack| > 1
    ensures Live(heap, stack[|stack| - 2]) && Live(heap, Top(stack))
    ensures var c := Load(root, heap, stack[|stack| - 2]);
      && Open(heap, finished, c, frames[|stack| - 2], true) && Top(stack) == Elem(c.start, c.size - 1)
      && Apart(c.start, stack[..|stack| - 1])
  {
    assert Linked(root, heap, finished, stack, frames, |stack| - 2);
    hide Open;
  }

  /** The finished child leaves the stack and joins its container. */
  lemma PopChild(root: Cell, heap: Heap, finished: set<nat>, next: nat, stack: seq<Ref>, frames: seq<Frame>, x: Lazy)
    requires Path(root, heap, finished, next, stack, frames) && |frames| == |stack| - 1 > 0 && Live(heap, Top(stack))
    requires Holds(heap, finished, Load(root, heap, Top(stack)), x)
    ensures var stack', frames' := stack[..|stack| - 1], Taken(frames, x);
      && Path(root, heap, finished, next, stack', frames') && Live(heap, Top(stack')) && |frames'| == |stack'|
      && var c := Load(root, heap, Top(stack'));
      && Open(heap, finished, c, frames'[|stack'| - 1], false) && Apart(c.start, stack')
  {
    hide Path, Open, Apart, Holds;
    PopPath(root, heap, finished, next, stack, frames, Taken(frames, x));
    PopOpen(root, heap, finished, next, stack, frames);
    var n := |stack| - 1;
    OpenTakes(root, heap, finished, Load(root, heap, stack[n - 1]), frames[n - 1], stack[n], x);
  }

  lemma OpenTakes(root: Cell, heap: Heap, finished: set<nat>, c: Cell, f: Frame, r: Ref, x: Lazy)
    requires Open(heap, finished, c, f, true) && r == Elem(c.start, c.size - 1) && Live(heap, r)
    requires Holds(heap, finished, Load(root, heap, r), x)
    ensures Open(heap, finished, c, f.(kids := f.kids + [Kid(f.pending, x)]), false)
  {
    var kids := f.kids + [Kid(f.pending, x)];
    assert SlotHolds(heap, finished, heap[c.start][|f.kids|], Kid(f.pending, x));
    hide SlotHolds;
    assert forall i | 0 <= i < |kids| :: SlotHolds(heap, finished, heap[c.start][i], kids[i]);
  }

  /** A container whose end was read is finished, and its array is not written again. */
  lemma CloseOpen(root: Cell, heap: Heap, finished: set<nat>, next: nat, stack: seq<Ref>, frames: seq<Frame>, c: Cell, f: Frame,
                  end: nat) returns (finished': set<nat>)
    requires Path(root, heap, finished, next, stack, frames) && Open(heap, finished, c, f, false)
    requires c.capacity > 0 ==> Apart(c.start, stack)
    ensures Path(root, heap, finished', next, stack, frames)
    ensures Holds(heap, finished', c.(len := end - c.begin), Node(f.dict, f.begin, f.kids, end))
  {
    finished' := if c.capacity == 0 then finished else finished + {c.start};
    KeptSelf(root, heap, finished, next, stack, frames);
    PathKept(root, heap, finished, next, stack, frames, root, heap, finished', next);
    if c.capacity > 0 {
      SlotsStill(heap, heap, finished, finished', heap[c.start], f.kids);
    }
  }

  lemma KeptSelf(root: Cell, heap: Heap, finished: set<nat>, next: nat, stack: seq<Ref>, frames: seq<Frame>)
    requires Path(root, heap, finished, next, stack, frames)
    ensures Kept(heap, heap, finished, stack)
  {
    hide Linked;
  }

  /** Appends a frame. Only frames below the top of the stack matter to the path. */
  lemma PathFrames(root: Cell, heap: Heap, finished: set<nat>, next: nat, stack: seq<Ref>, frames: seq<Frame>, frames': seq<Frame>)
    requires Path(root, heap, finished, next, stack, frames)
    requires |frames'| >= |stack| - 1 && frames'[..|stack| - 1] == frames[..|stack| - 1]
    ensures Path(root, heap, finished, next, stack, frames')
  {
    hide Open;
    forall j | 0 <= j < |stack| - 1
      ensures Linked(root, heap, finished, stack, frames', j)
    {
      assert Linked(root, heap, finished, stack, frames, j);
      assert frames'[j] == frames'[..|stack| - 1][j];
    }
  }

  /** The containers that were being filled, the last of them around x: none of them has ended. */
  function Around(frames: seq<Frame>, x: Lazy): Lazy {
    if frames == [] then x
    else
      var n := |frames| - 1;
      var f := frames[n];
      Around(frames[..n], Unended(f.dict, f.begin, f.kids + [Kid(f.pending, x)]))
  }

  /** When the decoder stops with containers open, the root holds all of them. */
  lemma {:induction false} HoldsAround(root: Cell, heap: Heap, finished: set<nat>, next: nat, stack: seq<Ref>, frames: seq<Frame>,
                                       m: nat, x: Lazy)
    requires Path(root, heap, finished, next, stack, frames) && m < |stack| && m <= |frames|
    requires Live(heap, stack[m]) && Holds(heap, heap.Keys, Load(root, heap, stack[m]), x)
    ensures Holds(heap, heap.Keys, root, Around(frames[..m], x))
  {
    if m > 0 {
      assert Live(heap, stack[m - 1]) && Linked(root, heap, finished, stack, frames, m - 1);
      var c, f := Load(root, heap, stack[m - 1]), frames[m - 1];
      OpenHolds(heap, finished, c, f, x);
      hide *;
      AroundMore(frames, m, x);
      HoldsAround(root, heap, finished, next, stack, frames, m - 1, Unended(f.dict, f.begin, f.kids + [Kid(f.pending, x)]));
    }
  }

  lemma AroundMore(frames: seq<Frame>, m: nat, x: Lazy)
    requires 0 < m <= |frames|
    ensures var f := frames[m - 1];
      Around(frames[..m], x) == Around(frames[..m - 1], Unended(f.dict, f.begin, f.kids + [Kid(f.pending, x)]))
  {
    assert frames[..m][..m - 1] == frames[..m - 1];
  }

  lemma OpenHolds(heap: Heap, finished: set<nat>, c: Cell, f: Frame, x: Lazy)
    requires Open(heap, finished, c, f, true) && finished <= heap.Keys
    requires Holds(heap, heap.Keys, heap[c.start][c.size - 1].val, x)
    ensures Holds(heap, heap.Keys, c, Unended(f.dict, f.begin, f.kids + [Kid(f.pending, x)]))
  {
    SlotsStill(heap, heap, finished, heap.Keys, heap[c.start], f.kids);
    assert SlotHolds(heap, heap.Keys, heap[c.start][|f.kids|], Kid(f.pending, x));
    hide SlotHolds;
  }

  lemma OpenLeft(heap: Heap, finished: set<nat>, c: Cell, f: Frame)
    requires Open(heap, finished, c, f, false) && finished <= heap.Keys
    ensures Holds(heap, heap.Keys, c, Unended(f.dict, f.begin, f.kids))
  {
    if |f.kids| > 0 {
      SlotsStill(heap, heap, finished, heap.Keys, heap[c.start], f.kids);
    }
  }

  /** An entry as it is cleared: where it began and how long it was stays. */
  predicate Fresh(c: Cell) {
    c.kind == NoneT && c.start == c.size == c.capacity == 0
  }

  lemma PathStart(root: Cell)
    ensures Path(root, map[], {}, 0, [Root], [])
  {
  }

  /** The path through a stack without the top. */
  lemma PathTopLive(root: Cell, heap: Heap, finished: set<nat>, next: nat, stack: seq<Ref>, frames: seq<Frame>)
    requires Path(root, heap, finished, next, stack, frames)
    ensures |stack| > 0 && Live(heap, Top(stack)) && forall j | 0 <= j < |stack| :: Live(heap, stack[j])
  {
  }
}
