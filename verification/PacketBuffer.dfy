/** The circular buffer of uTP packets, against a plain map from packet numbers to packets. Packets are numbered on without
    end; the buffer sees the last sixteen bits of a number. */
module PacketBuffer {
  import opened Common

  const CIRCLE: nat := 0x1_0000
  const HALF: int := 0x8000

  /** Distances up and down on the circle of mask + 1 numbers decide which of two comes first. */
  function CompareLessWrap(lhs: nat, rhs: nat, mask: nat): bool {
    (rhs - lhs) % (mask + 1) < (lhs - rhs) % (mask + 1)
  }

  /** One index comes before another exactly if it is less than half a circle ahead of it on the way up. */
  lemma ComparesHalf(lhs: nat, rhs: nat)
    requires lhs < CIRCLE && rhs < CIRCLE
    ensures CompareLessWrap(lhs, rhs, 0xffff) <==> if lhs < rhs then rhs - lhs < HALF else lhs - rhs > HALF
  {
  }

  /** Numbers less than half a circle apart compare as they are. */
  lemma NearCompares(lhs: int, rhs: int)
    requires -HALF < lhs - rhs < HALF
    ensures CompareLessWrap(lhs % CIRCLE, rhs % CIRCLE, 0xffff) <==> lhs < rhs
  {
    var a, b := lhs / CIRCLE, rhs / CIRCLE;
    assert lhs == a * CIRCLE + lhs % CIRCLE && rhs == b * CIRCLE + rhs % CIRCLE;
  }

  ghost predicate PowerOfTwo(n: nat) {
    n == 1 || (n > 1 && n % 2 == 0 && PowerOfTwo(n / 2))
  }

  /** A power of two divides every greater one. */
  lemma {:induction false} PowerDivides(n: nat, m: nat) returns (k: nat)
    requires PowerOfTwo(n) && PowerOfTwo(m) && n <= m
    ensures m == k * n
  {
    if n == 1 {
      k := m;
    } else {
      k := PowerDivides(n / 2, m / 2);
      assert k * n == k * (n / 2) * 2 by { assert n == n / 2 * 2; }
    }
  }

  lemma CircleIsPower()
    ensures PowerOfTwo(CIRCLE) && PowerOfTwo(0x8000) && PowerOfTwo(16)
  {
    assert PowerOfTwo(2) && PowerOfTwo(4) && PowerOfTwo(8) && PowerOfTwo(16) && PowerOfTwo(32) && PowerOfTwo(64);
    assert PowerOfTwo(128) && PowerOfTwo(256) && PowerOfTwo(512) && PowerOfTwo(1024) && PowerOfTwo(2048) && PowerOfTwo(4096);
    assert PowerOfTwo(8192) && PowerOfTwo(16384) && PowerOfTwo(32768);
  }

  lemma PowerDoubles(n: nat)
    requires PowerOfTwo(n)
    ensures PowerOfTwo(2 * n)
  {
    assert 2 * n / 2 == n;
  }

  /** There is no power of two between one and its double. */
  lemma {:induction false} NoPowerBetween(n: nat, m: nat)
    requires PowerOfTwo(n) && PowerOfTwo(m) && n < m
    ensures 2 * n <= m
  {
    if n > 1 { NoPowerBetween(n / 2, m / 2); }
  }

  /** The place of an index in a storage of `capacity` slots: masking by capacity - 1, for a power of two. */
  function Slot(i: int, capacity: nat): (r: nat)
    requires capacity > 0
    ensures r < capacity
  {
    i % capacity
  }

  function Turn(i: int, capacity: nat): int
    requires capacity > 0
  {
    i / capacity
  }

  lemma Turns(i: int, capacity: nat)
    requires capacity > 0
    ensures i == Turn(i, capacity) * capacity + Slot(i, capacity)
  {
  }

  lemma AtLeastOnce(a: int, b: int, d: nat)
    requires a > b && d > 0
    ensures a * d - b * d >= d
  {
    var k := a - b - 1;
    assert a * d == b * d + k * d + d by { assert a == b + k + 1; }
    assert k * d >= 0;
  }

  /** The slot is what is left of an index after whole turns. */
  lemma SlotIs(x: int, q: int, r: nat, capacity: nat)
    requires x == q * capacity + r && r < capacity
    ensures Slot(x, capacity) == r
  {
    Turns(x, capacity);
    hide Slot, Turn;
    var a := Turn(x, capacity);
    if a > q { AtLeastOnce(a, q, capacity); }
    if q > a { AtLeastOnce(q, a, capacity); }
  }

  lemma SlotsDiffer(i: int, j: int, capacity: nat)
    requires capacity > 0 && Slot(i, capacity) == Slot(j, capacity) && -(capacity as int) < i - j < capacity
    ensures i == j
  {
    Turns(i, capacity);
    Turns(j, capacity);
    hide Slot, Turn;
    var a, b := Turn(i, capacity), Turn(j, capacity);
    if a > b { AtLeastOnce(a, b, capacity); }
    if b > a { AtLeastOnce(b, a, capacity); }
  }

  /** Within one turn of the circle no two indices share a slot. */
  lemma WindowDiffers(low: int, capacity: nat)
    requires capacity > 0
    ensures forall i, j | low <= i < low + capacity && low <= j < low + capacity
              && Slot(i, capacity) == Slot(j, capacity) :: i == j
  {
    forall i, j | low <= i < low + capacity && low <= j < low + capacity && Slot(i, capacity) == Slot(j, capacity)
      ensures i == j
    {
      SlotsDiffer(i, j, capacity);
    }
  }

  /** And every slot has an index. */
  lemma SlotTaken(low: int, capacity: nat, s: nat) returns (i: int)
    requires s < capacity
    ensures low <= i < low + capacity && Slot(i, capacity) == s
  {
    i := low + Slot(s - low, capacity);
    Turns(s - low, capacity);
    hide Slot;
    SlotIs(i, -Turn(s - low, capacity), s, capacity);
  }

  lemma SlotShifts(i: int, k: int, capacity: nat)
    requires capacity > 0
    ensures Slot(i + k * capacity, capacity) == Slot(i, capacity)
  {
    Turns(i, capacity);
    hide Slot;
    var a := Turn(i, capacity);
    assert i + k * capacity == (a + k) * capacity + Slot(i, capacity);
    SlotIs(i + k * capacity, a + k, Slot(i, capacity), capacity);
  }

  lemma Regroup(a: int, b: int, c: int)
    ensures a * (b * c) == a * b * c
  {
  }

  /** The slot of a number is that of its last sixteen bits. */
  lemma SlotOfBits(n: int, capacity: nat)
    requires PowerOfTwo(capacity) && capacity <= CIRCLE
    ensures Slot(n % CIRCLE, capacity) == Slot(n, capacity)
  {
    CircleIsPower();
    var k := PowerDivides(capacity, CIRCLE);
    hide PowerOfTwo, Slot;
    var t := n / CIRCLE;
    Regroup(t, k, capacity);
    SlotShifts(n % CIRCLE, t * k, capacity);
  }

  /** One slot down, starting from any index of the slot. */
  lemma SlotBelow(i: int, capacity: nat)
    requires capacity > 0
    ensures Slot(Slot(i, capacity) - 1, capacity) == Slot(i - 1, capacity)
  {
    Turns(i, capacity);
    hide Slot;
    SlotShifts(Slot(i, capacity) - 1, Turn(i, capacity), capacity);
  }

  /** One slot up or down from numbers that share a slot. */
  lemma SlotBeside(i: int, j: int, d: int, capacity: nat)
    requires capacity > 0 && Slot(i, capacity) == Slot(j, capacity)
    ensures Slot(i + d, capacity) == Slot(j + d, capacity)
  {
    Turns(i, capacity);
    Turns(j, capacity);
    hide Slot;
    var a, b := Turn(i, capacity), Turn(j, capacity);
    assert i + d == j + d + (a - b) * capacity by { assert (a - b) * capacity == a * capacity - b * capacity; }
    SlotShifts(j + d, a - b, capacity);
  }

  lemma SlotBelowTop(low: int, capacity: nat)
    requires capacity > 0
    ensures Slot(low - 1, capacity) == Slot(low + capacity - 1, capacity)
    ensures Slot(low, capacity) == Slot(low + capacity, capacity)
  {
    SlotShifts(low - 1, 1, capacity);
    SlotShifts(low, 1, capacity);
  }

  /** The number in the window of `capacity` numbers from `low` on that has the slot of n. */
  function Alias(n: int, low: int, capacity: nat): (a: int)
    requires capacity > 0
    ensures low <= a < low + capacity
  {
    low + Slot(n - low, capacity)
  }

  lemma AliasIs(n: int, low: int, capacity: nat)
    requires capacity > 0
    ensures Slot(Alias(n, low, capacity), capacity) == Slot(n, capacity)
    ensures low <= n < low + capacity ==> Alias(n, low, capacity) == n
  {
    Turns(n - low, capacity);
    hide Slot;
    var t := Turn(n - low, capacity);
    SlotShifts(Alias(n, low, capacity), t, capacity);
    if low <= n < low + capacity {
      SlotsDiffer(Alias(n, low, capacity), n, capacity);
    }
  }

  /** The packet at a number, if there is one. */
  function Lookup<V>(live: map<int, V>, n: int): Option<V> {
    if n in live then Some(live[n]) else None
  }

  class PacketBuffer<V(!new)> {
    var storage: array<Option<V>>
    var size: nat
    var first: nat
    var last: nat
    /** What is in the buffer, by number. */
    ghost var live: map<int, V>
    /** The numbers that `first` and `last` are the bits of. */
    ghost var low: int
    ghost var high: int

    /** Every number of the window stands for its own slot, and the slots outside the live ones are empty. */
    ghost predicate Window(low: int)
      reads `storage, `live, storage
    {
      storage.Length > 0 ==>
        forall i: int | low <= i < low + storage.Length :: storage[Slot(i, storage.Length)] == Lookup(live, i)
    }

    ghost predicate Sized(capacity: nat) {
      16 <= capacity <= HALF && PowerOfTwo(capacity)
    }

    ghost predicate Valid()
      reads this, storage
    {
      (if storage.Length == 0 then first == 0 else Sized(storage.Length)) && Ends(storage.Length) && Window(low)
    }

    /** `low` and `high` are the least live number and one past the greatest, and `size` counts them. */
    ghost predicate Ends(capacity: nat)
      reads `live, `size, `first, `last, `low, `high
    {
      && first == low % CIRCLE && size == |live| && (size > 0 ==> capacity > 0)
      && (forall i | i in live :: low <= i < high)
      && (size > 0 ==> low in live && high - 1 in live && last == high % CIRCLE && high - low <= HALF && high - low <= capacity)
    }

    /** All that reading needs: the live numbers are in the window, which starts with the first of them. */
    ghost predicate Readable()
      reads this, storage
    {
      && (if storage.Length == 0 then first == 0 else Sized(storage.Length)) && Window(low)
      && first == low % CIRCLE && size == |live| && (size > 0 ==> low in live && storage.Length > 0)
      && forall i | i in live :: low <= i < low + storage.Length
    }

    lemma ValidReadable()
      requires Valid()
      ensures Readable()
    {
    }

    /** All live numbers are less than half a circle from n. */
    ghost predicate Near(n: int)
      reads `live
    {
      forall i | i in live :: -HALF < i - n < HALF
    }

    /** The bits of n have begun a new round since those of `first`. */
    ghost predicate Crosses(n: int)
      reads `first, `low
    {
      n >= low && n % CIRCLE < first
    }

    /** A number behind the window that is not recognized as such. */
    ghost predicate Astray(n: int)
      reads `first, `low, `storage
    {
      storage.Length > 0 && Crosses(n) && n >= low + storage.Length
    }

    /** The number whose slot is looked at for n. */
    ghost function Found(n: int): int
      reads `first, `low, `storage
    {
      if Astray(n) then Alias(n, low, storage.Length) else n
    }

    /** A number for which an insertion does not make enough room. */
    ghost predicate Misplaced(n: int)
      reads `first, `low, `storage, `size
    {
      size > 0 && Astray(n) && (first + storage.Length < CIRCLE || PowerOfTwo(n - low))
    }

    /** The slots there are after a misplaced insertion. */
    ghost function SlotsFor(n: int): int
      reads `first, `low, `storage
    {
      if first + storage.Length < CIRCLE then storage.Length else n - low
    }

    constructor ()
      ensures Valid() && live == map[] && fresh(storage) && storage.Length == 0
    {
      storage := new Option<V>[0];
      size, first, last := 0, 0, 0;
      live, low, high := map[], 0, 0;
    }

    /** The least doubling of a capacity, or of 16 if there is none, that is at least `wanted`. */
    static method Enough(capacity: nat, wanted: nat) returns (newSize: nat)
      requires (capacity == 0 || (16 <= capacity <= HALF && PowerOfTwo(capacity))) && wanted <= HALF
      ensures 16 <= newSize <= HALF && PowerOfTwo(newSize) && newSize >= wanted && newSize >= capacity
      ensures newSize == 16 || newSize == capacity || (16 < wanted && newSize < 2 * wanted)
    {
      hide PowerOfTwo;
      newSize := if capacity == 0 then 16 else capacity;
      CircleIsPower();
      while newSize < wanted
        invariant newSize >= 16 && newSize >= capacity && PowerOfTwo(newSize) && newSize <= HALF
        invariant newSize == 16 || newSize == capacity || (16 < wanted && newSize < 2 * wanted)
        decreases wanted - newSize
      {
        NoPowerBetween(newSize, 0x8000);
        PowerDoubles(newSize);
        newSize := newSize * 2;
      }
    }

    /** Doubles the capacity until it is at least `wanted`; every packet keeps its number. */
    method Reserve(wanted: nat)
      requires storage.Length == 0 || Sized(storage.Length)
      requires first == low % CIRCLE && wanted <= HALF
      requires Window(low) && forall i | i in live :: low <= i < low + storage.Length
      modifies `storage
      ensures fresh(storage) && Sized(storage.Length)
      ensures storage.Length >= wanted && storage.Length >= old(storage.Length)
      ensures storage.Length == 16 || storage.Length == old(storage.Length) || (16 < wanted && storage.Length < 2 * wanted)
      ensures Window(low)
    {
      hide Slot, PowerOfTwo;
      var oldStorage := storage;
      var capacity := oldStorage.Length;
      var newSize := Enough(capacity, wanted);
      var newStorage := new Option<V>[newSize];
      for i := 0 to newSize
        invariant forall k | 0 <= k < i :: newStorage[k] == None
      {
        newStorage[i] := None;
      }
      WindowDiffers(low, newSize);
      for i := first to first + capacity
        invariant forall k: int | low <= k < low + i - first :: newStorage[Slot(k, newSize)] == Lookup(live, k)
        invariant forall k: int | low + i - first <= k < low + newSize :: newStorage[Slot(k, newSize)] == None
      {
        ghost var n := low + i - first;
        BitsShift(n, i, newSize);
        if capacity > 0 { BitsShift(n, i, capacity); }
        newStorage[Slot(i, newSize)] := oldStorage[Slot(i, capacity)];
      }
      storage := newStorage;
    }

    /** Where a scan of real indices stands in numbers. */
    lemma BitsShift(n: int, i: nat, capacity: nat)
      requires Sized(capacity) && first == low % CIRCLE && n - low == i - first
      ensures Slot(i, capacity) == Slot(n, capacity)
    {
      SlotOfBits(n, capacity);
      SlotOfBits(i, capacity);
      SameBits(n, i, low, first);
    }

    /** The packet at a number, if there is one; but for a number that is astray, the packet of another one. */
    method At(idx: nat, ghost n: int) returns (r: Option<V>)
      requires Readable() && Near(n) && idx == n % CIRCLE
      ensures r == Lookup(live, Found(n))
    {
      hide *;
      Looking(idx, n);
      if idx >= first + storage.Length { return None; }
      if CompareLessWrap(idx, first, 0xffff) { return None; }
      r := storage[Slot(idx, storage.Length)];
    }

    /** What the tests on an index find out. */
    lemma Looking(idx: nat, n: int)
      requires Readable() && Near(n) && idx == n % CIRCLE
      ensures first >= 0 && (storage.Length == 0 ==> idx >= first + storage.Length)
      ensures idx >= first + storage.Length || CompareLessWrap(idx, first, 0xffff) ==> Lookup(live, Found(n)) == None
      ensures idx < first + storage.Length && !CompareLessWrap(idx, first, 0xffff) ==>
                && storage[Slot(idx, storage.Length)] == Lookup(live, Found(n))
                && (size > 0 ==> low <= n && (n < low + storage.Length || Astray(n)))
    {
      EmptySlots();
      hide Slot, PowerOfTwo, Window, CompareLessWrap;
      if size > 0 {
        NearCompares(n, low);
        Distance(n, low);
        if idx < first + storage.Length && !CompareLessWrap(idx, first, 0xffff) {
          SlotOfBits(n, storage.Length);
          AliasIs(n, low, storage.Length);
          if !Astray(n) {
            InWindow(low, n);
          } else {
            InWindow(low, Alias(n, low, storage.Length));
          }
        }
      }
    }

    /** An empty buffer has only empty slots. */
    lemma EmptySlots()
      requires Readable()
      ensures size == 0 ==> live == map[] && forall k | 0 <= k < storage.Length :: storage[k] == None
    {
      if size == 0 {
        forall k | 0 <= k < storage.Length
          ensures storage[k] == None
        {
          var i := SlotTaken(low, storage.Length, k);
        }
      }
    }

    lemma InWindow(low: int, j: int)
      requires Window(low) && storage.Length > 0 && low <= j < low + storage.Length
      ensures storage[Slot(j, storage.Length)] == Lookup(live, j)
    {
    }

    /** What Valid says about the ends. */
    lemma EndsOf()
      requires Valid()
      ensures first == low % CIRCLE && size == |live| && (size == 0 <==> live == map[])
      ensures forall i | i in live :: low <= i < high && high - low <= HALF && high - low <= storage.Length
      ensures size > 0 ==> low in live && high - 1 in live && last == high % CIRCLE && storage.Length > 0
      ensures Window(low) && Ends(storage.Length)
      ensures if storage.Length == 0 then first == 0 else Sized(storage.Length)
      ensures size == 0 ==> forall k | 0 <= k < storage.Length :: storage[k] == None
      ensures Readable()
    {
      ValidReadable();
      EmptySlots();
    }

    /** The free slots below the first packet, counted down around the circle to the last one. */
    method FreeBelow() returns (free: nat)
      requires Sized(storage.Length) && first == low % CIRCLE && Window(low) && low in live && high - 1 in live
      requires forall i | i in live :: low <= i < high <= low + storage.Length
      ensures free == storage.Length - (high - low)
    {
      hide Slot, Window, PowerOfTwo;
      var capacity := storage.Length;
      free := 0;
      SlotOfBits(low, capacity);
      SlotBeside(first, low, -1, capacity);
      SlotBelow(low, capacity);
      SlotBelowTop(low, capacity);
      var i: int := Slot(first - 1, capacity);
      while i != Slot(first, capacity)
        invariant free < capacity && i == Slot(low + capacity - 1 - free, capacity)
        invariant forall k | k in live :: k <= low + capacity - 1 - free
        decreases capacity - free
      {
        InWindow(low, low + capacity - 1 - free);
        if storage[i].Some? { return; }
        SlotBelow(low + capacity - 1 - free, capacity);
        if free == capacity - 1 { assert false; }
        i := Slot(i - 1, capacity);
        free := free + 1;
      }
      SlotsDiffer(low + capacity - 1 - free, low, capacity);
    }

    /** The window can start lower as long as no live number falls out of it. */
    lemma WindowDown(to: int)
      requires Window(low) && to <= low <= high && high - to <= storage.Length && forall i | i in live :: low <= i < high
      ensures Window(to)
    {
      hide Slot;
      var capacity := storage.Length;
      forall i: int | to <= i < to + capacity
        ensures storage[Slot(i, capacity)] == Lookup(live, i)
      {
        if i < low {
          SlotShifts(i, 1, capacity);
          InWindow(low, i + capacity);
        } else {
          InWindow(low, i);
        }
      }
    }

    /** A number in the next round is misplaced if the window does not reach that round, or if it takes a power of two to
        reach the number, for which one slot too few is reserved. */
    lemma WrappedRoom(n: int)
      requires Sized(storage.Length) && first == low % CIRCLE && Crosses(n) && -HALF < n - low < HALF && size > 0
      ensures var idx, end, off := n % CIRCLE, (first + storage.Length) % CIRCLE, n - low;
        if first + storage.Length < CIRCLE then idx <= end && off >= storage.Length && Misplaced(n)
        else
          && storage.Length < 0xffff && (idx > end <==> off > storage.Length)
          && storage.Length + (idx - end) == off && (off == storage.Length ==> PowerOfTwo(off))
    {
      Distance(n, low);
    }

    lemma ReservedRoom(off: nat)
      requires Sized(storage.Length) && off <= storage.Length < 2 * off
      ensures off == storage.Length <==> PowerOfTwo(off)
    {
      if PowerOfTwo(off) && off < storage.Length { NoPowerBetween(off, storage.Length); }
    }

    /** What the tests of `Stretch` find out. */
    lemma StretchBits(idx: nat, n: int)
      requires Sized(storage.Length) && Near(n) && idx == n % CIRCLE && low in live && high - 1 in live
      requires first == low % CIRCLE && last == high % CIRCLE && high - low <= storage.Length
      requires forall i | i in live :: low <= i < high
      ensures 16 <= storage.Length <= HALF && low < high && 0 <= first < CIRCLE && 0 <= last < CIRCLE
      ensures low - HALF < n < low + HALF && high - HALF <= n && n < high + HALF
      ensures CompareLessWrap(idx, first, 0xffff) <==> n < low
      ensures CompareLessWrap(last, (idx + 1) % CIRCLE, 0xffff) <==> n >= high
      ensures n < low ==> (first - idx) % CIRCLE == low - n
      ensures n >= low && idx >= first ==> idx - first == n - low
      ensures Crosses(n) <==> n >= low && idx < first
      ensures Misplaced(n) ==> Crosses(n) && n >= low + storage.Length && size > 0
      ensures (idx + 1) % CIRCLE == (n + 1) % CIRCLE
    {
      hide CompareLessWrap, PowerOfTwo;
      NearCompares(n, low);
      NearCompares(high, n + 1);
      Distance(n, low);
      NextBits(n);
    }

    /** Makes room for a number below the first one. */
    method StretchDown(idx: nat, ghost n: int)
      requires Sized(storage.Length) && Window(low) && first == low % CIRCLE && low in live && high - 1 in live
      requires forall i | i in live :: low <= i < high <= low + storage.Length
      requires low - HALF < n < low && high - HALF <= n && idx == n % CIRCLE && (first - idx) % CIRCLE == low - n
      modifies `storage, `first, `low
      ensures storage == old(storage) || fresh(storage)
      ensures Sized(storage.Length) && Window(low) && first == idx && low == n && high - low <= storage.Length
      ensures storage.Length == old(storage.Length) || storage.Length < 2 * (high - low) || storage.Length == 16
    {
      hide Slot, Window, PowerOfTwo;
      var free := FreeBelow();
      if (first - idx) % CIRCLE > free {
        Reserve((first - idx) % CIRCLE + storage.Length - free);
      }
      WindowDown(n);
      first := idx;
      low := n;
    }

    /** Makes room for a number above the first one, unless it is misplaced. */
    method StretchUp(idx: nat, ghost n: int)
      requires Sized(storage.Length) && Window(low) && first == low % CIRCLE && size > 0
      requires (forall i | i in live :: low <= i < low + storage.Length) && low <= n < low + HALF && idx == n % CIRCLE
      modifies `storage
      ensures storage == old(storage) || fresh(storage)
      ensures Sized(storage.Length) && Window(low) && storage.Length >= old(storage.Length)
      ensures n < low + storage.Length <==> !old(Misplaced(n))
      ensures storage.Length == old(storage.Length) || storage.Length < 2 * (n + 1 - low) || storage.Length == 16
      ensures old(Misplaced(n)) ==> storage.Length == old(SlotsFor(n))
    {
      hide Slot, Window, PowerOfTwo;
      Distance(n, low);
      if idx >= first + storage.Length {
        Reserve(idx - first + 1);
      } else if idx < first {
        WrappedRoom(n);
        if idx > (first + storage.Length) % CIRCLE && storage.Length < 0xffff {
          Reserve(storage.Length + (idx - (first + storage.Length) % CIRCLE));
          ReservedRoom(n - low);
        }
      }
    }

    /** Moves the ends of a buffer that is not empty so that n lies between them, with enough room unless it is misplaced. */
    method Stretch(idx: nat, ghost n: int)
      requires Sized(storage.Length) && Window(low) && Near(n) && idx == n % CIRCLE && size > 0
      requires first == low % CIRCLE && last == high % CIRCLE && low in live && high - 1 in live && high - low <= storage.Length
      requires forall i | i in live :: low <= i < high
      modifies `storage, `first, `last, `low, `high
      ensures storage == old(storage) || fresh(storage)
      ensures Sized(storage.Length) && Window(low) && first == low % CIRCLE && last == high % CIRCLE
      ensures low == if n < old(low) then n else old(low)
      ensures high == if n >= old(high) then n + 1 else old(high)
      ensures high - low <= HALF && old(high) - low <= storage.Length
      ensures high - low <= storage.Length <==> !old(Misplaced(n))
      ensures storage.Length == old(storage.Length) || storage.Length < 2 * (high - low) || storage.Length == 16
      ensures old(Misplaced(n)) ==> high == n + 1 && n >= low + storage.Length
      ensures old(Misplaced(n)) ==> storage.Length == old(SlotsFor(n))
    {
      hide Slot, Window, PowerOfTwo, CompareLessWrap, Near, Crosses, Misplaced, Astray, SlotsFor, Sized;
      StretchBits(idx, n);
      if CompareLessWrap(idx, first, 0xffff) {
        StretchDown(idx, n);
      } else {
        StretchUp(idx, n);
      }
      if CompareLessWrap(last, (idx + 1) % CIRCLE, 0xffff) {
        last := (idx + 1) % CIRCLE;
        high := n + 1;
      }
    }

    /** Overwrites the slot of number m of the window that starts at `from`. */
    method Write(idx: nat, value: Option<V>, ghost m: int, ghost from: int) returns (r: Option<V>)
      requires Window(from) && storage.Length > 0 && from <= m < from + storage.Length
      requires Slot(idx, storage.Length) == Slot(m, storage.Length)
      modifies `live, storage
      ensures Window(from) && r == Lookup(old(live), m)
      ensures live == if value.Some? then old(live)[m := value.value] else old(live) - {m}
    {
      hide Slot;
      WindowDiffers(from, storage.Length);
      r := storage[Slot(idx, storage.Length)];
      storage[Slot(idx, storage.Length)] := value;
      live := if value.Some? then live[m := value.value] else live - {m};
    }

    /** Makes room for n. */
    method Place(idx: nat, ghost n: int)
      requires Valid() && Near(n) && idx == n % CIRCLE
      modifies `storage, `first, `last, `low, `high
      ensures storage == old(storage) || fresh(storage)
      ensures Sized(storage.Length) && Window(low) && size == |live|
      ensures Placed(live, old(low), old(high), n, storage.Length, old(Misplaced(n)))
      ensures old(Misplaced(n)) ==> storage.Length == old(SlotsFor(n)) && low == old(low)
      ensures storage.Length == old(storage.Length) || storage.Length < 2 * (high - low) || storage.Length == 16
    {
      EndsOf();
      hide Slot, PowerOfTwo, Window, Ends, Valid, CompareLessWrap, Misplaced, Sized, Readable, SlotsFor, Near;
      SizedIs(storage.Length);
      Unplaced(n);
      NextBits(n);
      if size != 0 {
        Stretch(idx, n);
      } else {
        WindowEmpty(n);
        first := idx;
        last := (idx + 1) % CIRCLE;
        low := n;
        high := n + 1;
      }
      if storage.Length == 0 {
        Reserve(16);
      }
      SizedIs(storage.Length);
    }

    lemma SizedIs(capacity: nat)
      ensures Sized(capacity) ==> 16 <= capacity <= HALF
    {
    }

    lemma Unplaced(n: int)
      ensures Misplaced(n) ==> size > 0
    {
    }

    /** The ends enclose n and what was there, and the window encloses them unless n is misplaced. */
    ghost predicate Placed(was: map<int, V>, low0: int, high0: int, n: int, capacity: nat, misplaced: bool)
      reads `first, `last, `low, `high
    {
      && first == low % CIRCLE && last == high % CIRCLE && 0 < capacity && low <= n < high && high - low <= HALF
      && (high - low <= capacity <==> !misplaced) && (misplaced ==> was != map[] && high == n + 1 && n >= low + capacity)
      && (forall i | i in was :: low0 <= i < high0 && high0 - low <= capacity)
      && (was != map[] ==> low0 in was && high0 - 1 in was)
      && (was != map[] ==> low == (if n < low0 then n else low0) && high == if n >= high0 then n + 1 else high0)
      && (was == map[] ==> low == n && high == n + 1)
    }

    /** Puts a packet at a number and returns the one it replaces; no packet stands for removal. A misplaced number goes
        to the slot of another one, and only then the buffer is not in order afterwards. */
    method Insert(idx: nat, value: Option<V>, ghost n: int) returns (r: Option<V>, ghost at: int)
      requires Valid() && Near(n) && idx == n % CIRCLE
      modifies this, storage
      ensures storage == old(storage) || fresh(storage)
      ensures r == Lookup(old(live), at) && live == if value.Some? then old(live)[at := value.value] else old(live) - {at}
      ensures value.Some? ==> Readable() && (at == n <==> !old(Misplaced(n))) && (Valid() <==> !old(Misplaced(n)))
      ensures value.Some? ==> storage.Length > 0 && low <= at < low + storage.Length && at == Alias(n, low, storage.Length)
      ensures value.Some? && old(Misplaced(n)) ==> storage.Length == old(SlotsFor(n)) && low == old(low)
      ensures value.None? ==> at == old(Found(n)) && (at == n || at !in old(live) ==> Valid())
      ensures storage.Length == old(storage.Length) || storage.Length < 2 * (high - low) || storage.Length == 16
    {
      hide Slot, PowerOfTwo, Window, Ends, Valid, Readable, CompareLessWrap, Near, Placed, Misplaced, Sized, Alias, Found;
      if value.None? {
        r, at := Remove(idx, n);
        return;
      }
      ghost var was, low0, high0, misplaced := live, low, high, Misplaced(n);
      Place(idx, n);
      PlacedRange(was, low0, high0, n, storage.Length, misplaced);
      SizedIs(storage.Length);
      at := Alias(n, low, storage.Length);
      AliasIs(n, low, storage.Length);
      SlotOfSized(n, storage.Length);
      r := Write(idx, value, at, low);
      if size == 0 {
        first := idx;
      }
      if r.None? {
        size := size + 1;
      }
      EndsAfter(storage.Length, was, low0, high0, n, misplaced, at, value.value);
      ValidIs();
    }

    lemma SlotOfSized(n: int, capacity: nat)
      requires Sized(capacity)
      ensures capacity > 0 && Slot(n % CIRCLE, capacity) == Slot(n, capacity)
    {
      SlotOfBits(n, capacity);
    }

    lemma PlacedRange(was: map<int, V>, low0: int, high0: int, n: int, capacity: nat, misplaced: bool)
      requires Placed(was, low0, high0, n, capacity, misplaced)
      ensures (low <= n < low + capacity <==> !misplaced) && first == low % CIRCLE && (|was| == 0 ==> low == n)
    {
    }

    /** The ends after an insertion. */
    lemma EndsAfter(capacity: nat, was: map<int, V>, low0: int, high0: int, n: int, misplaced: bool, at: int, value: V)
      requires live == was[at := value] && size == |live| && low <= at < low + capacity && (!misplaced ==> at == n)
      requires Placed(was, low0, high0, n, capacity, misplaced)
      ensures Ends(capacity) <==> !misplaced
      ensures low in live && first == low % CIRCLE && forall i | i in live :: low <= i < low + capacity
    {
      if misplaced {
        assert high - 1 !in live;
      }
    }

    lemma ValidIs()
      requires Sized(storage.Length) && Window(low)
      ensures Valid() <==> Ends(storage.Length)
      ensures first == low % CIRCLE && size == |live| && low in live && (forall i | i in live :: low <= i < low + storage.Length) ==>
                Readable()
    {
    }

    lemma WindowEmpty(to: int)
      requires live == map[] && forall k | 0 <= k < storage.Length :: storage[k] == None
      ensures Window(to)
    {
    }

    lemma EmptyAgain(from: int, to: int)
      requires Window(from) && live == map[]
      ensures Window(to)
    {
      if storage.Length > 0 {
        forall k | 0 <= k < storage.Length
          ensures storage[k] == None
        {
          var i := SlotTaken(from, storage.Length, k);
        }
      }
    }

    lemma NotEmpty()
      ensures |live| > 0 ==> exists k :: k in live
    {
      if forall k :: k !in live { assert live == map[]; }
    }

    /** Takes the packet at a number out, if there is one; but for a number that is astray, the packet of another one. */
    method Remove(idx: nat, ghost n: int) returns (r: Option<V>, ghost at: int)
      requires Valid() && Near(n) && idx == n % CIRCLE
      modifies `size, `first, `last, `low, `high, `live, storage
      ensures at == old(Found(n)) && r == Lookup(old(live), at) && live == old(live) - {at}
      ensures at == n || at !in old(live) ==> Valid()
    {
      EndsOf();
      hide *;
      at := Found(n);
      Looking(idx, n);
      if idx >= first + storage.Length {
        NothingAt(at);
        return None, at;
      }
      if CompareLessWrap(idx, first, 0xffff) {
        NothingAt(at);
        return None, at;
      }
      FoundRange(idx, n, at);
      r := Take(idx, at);
      Tighten(idx, n, at);
    }

    lemma NothingAt(n: int)
      ensures Lookup(live, n) == None ==> live == live - {n}
    {
    }

    /** Where the slot of an index that passed the tests is. */
    lemma FoundRange(idx: nat, n: int, at: int)
      requires Valid() && Near(n) && idx == n % CIRCLE && at == Found(n)
      requires idx < first + storage.Length && (size > 0 ==> low <= n && (n < low + storage.Length || Astray(n)))
      ensures Sized(storage.Length) && Window(low) && Ends(storage.Length) && size == |live|
      ensures storage.Length > 0 && Slot(idx, storage.Length) == Slot(at, storage.Length)
      ensures size > 0 ==> low <= at < low + storage.Length && 0 <= n - low < HALF && (at != n ==> n >= low + storage.Length)
      ensures size == 0 ==> live == map[] && forall k | 0 <= k < storage.Length :: storage[k] == None
    {
      EndsOf();
      SlotOfBits(n, storage.Length);
      AliasIs(n, low, storage.Length);
    }

    /** Empties the slot of `at`, which is that of idx. */
    method Take(idx: nat, ghost at: int) returns (r: Option<V>)
      requires Sized(storage.Length) && Window(low) && Ends(storage.Length)
      requires storage.Length > 0 && Slot(idx, storage.Length) == Slot(at, storage.Length)
      requires size > 0 ==> low <= at < low + storage.Length
      requires size == 0 ==> live == map[] && forall k | 0 <= k < storage.Length :: storage[k] == None
      modifies `size, `last, `live, storage
      ensures Window(low) && Loose(at, storage.Length) && r == Lookup(old(live), at) && live == old(live) - {at}
      ensures at !in old(live) || size == 0 ==> Ends(storage.Length)
      ensures size > 0 ==> old(size) > 0
    {
      hide Slot, Window, PowerOfTwo;
      if size == 0 { WindowEmpty(at); }
      r := Write(idx, None, at, if size == 0 then at else low);
      if r.Some? {
        size := size - 1;
        if size == 0 {
          last := first;
        }
      } else {
        assert live == old(live);
        if size == 0 { EmptyAgain(at, low); }
      }
    }

    /** The ends are right but for the packet at `at`, which was taken out. */
    ghost predicate Loose(at: int, capacity: nat)
      reads `live, `size, `first, `last, `low, `high
    {
      && capacity > 0 && size == |live| && at !in live && first == low % CIRCLE
      && (forall i | i in live :: low <= i < high)
      && (size > 0 ==> last == high % CIRCLE && high - low <= HALF && high - low <= capacity)
      && (size > 0 ==> (low in live || low == at) && (high - 1 in live || high - 1 == at))
    }

    /** After a packet was taken out, the ends close in on the packets that are left if it was the one looked for. */
    method Tighten(idx: nat, ghost n: int, ghost at: int)
      requires Sized(storage.Length) && Window(low) && Loose(at, storage.Length) && idx == n % CIRCLE
      requires size > 0 ==> 0 <= n - low < HALF && (at != n ==> n >= low + storage.Length)
      modifies `first, `last, `low, `high
      ensures Window(low) && (at == n || old(Ends(storage.Length)) ==> Valid())
    {
      hide Slot, Window, PowerOfTwo;
      if size != 0 {
        NotEmpty();
        Distance(n, low);
        NextBits(n);
        LastBits(n, high);
        ghost var was := low;
        if idx == first {
          RaiseFirst();
        }
        if (idx + 1) % CIRCLE == last {
          LowerLast();
        }
      }
    }

    /** The window can start higher when there are no live numbers to leave behind. */
    lemma WindowUp(from: int, to: int)
      requires Window(from) && from <= to <= from + storage.Length && forall i | i in live :: to <= i < from + storage.Length
      ensures Window(to)
    {
      hide Slot;
      var capacity := storage.Length;
      forall i: int | to <= i < to + capacity
        ensures storage[Slot(i, capacity)] == Lookup(live, i)
      {
        if i >= from + capacity {
          SlotShifts(i - capacity, 1, capacity);
          InWindow(from, i - capacity);
        } else {
          InWindow(from, i);
        }
      }
    }

    /** The first packet is gone: finds the next one. */
    method RaiseFirst()
      requires Sized(storage.Length) && first == low % CIRCLE && Window(low) && low !in live && exists k :: k in live
      requires forall i | i in live :: low <= i < high <= low + storage.Length
      modifies `first, `low
      ensures Window(low) && first == low % CIRCLE && low in live && old(low) < low < high && forall i | i in live :: low <= i
    {
      hide Slot, Window, PowerOfTwo;
      ghost var was, wasFirst := low, first;
      ghost var some :| some in live;
      first := first + 1;
      low := low + 1;
      var i := 0;
      while i < storage.Length
        invariant was < low == was + 1 + i && first == wasFirst + 1 + i && forall k | k in live :: low <= k
      {
        assert some in live;
        InWindow(was, low);
        SameBits(low, first, was, wasFirst);
        SlotOfBits(low, storage.Length);
        SlotOfBits(first, storage.Length);
        if storage[Slot(first, storage.Length)].Some? { break; }
        first := first + 1;
        low := low + 1;
        i := i + 1;
      }
      SameBits(low, first, was, wasFirst);
      first := first % CIRCLE;
      WindowUp(was, low);
    }

    /** The last packet is gone: finds the one before it. */
    method LowerLast()
      requires Sized(storage.Length) && last == high % CIRCLE && Window(low) && low in live && high - 1 !in live
      requires forall i | i in live :: low <= i < high <= low + storage.Length
      modifies `last, `high
      ensures last == high % CIRCLE && low < high < old(high) && high - 1 in live && forall i | i in live :: i < high
    {
      hide Slot, Window, PowerOfTwo;
      ghost var was := high;
      var l: int := last - 1;
      ghost var h := high - 1;
      var i := 0;
      while i < storage.Length
        invariant high == was && last == was % CIRCLE && low <= h == was - 1 - i && l == last - 1 - i && forall k | k in live :: k <= h
      {
        InWindow(low, h);
        SameBits(h, l, was, last);
        SlotOfBits(h, storage.Length);
        SlotOfBits(l, storage.Length);
        if storage[Slot(l, storage.Length)].Some? { break; }
        l := l - 1;
        h := h - 1;
        i := i + 1;
      }
      SameBits(h + 1, l + 1, was, last);
      last := (l + 1) % CIRCLE;
      high := h + 1;
    }
  }

  /** Whether n comes right before the end shows in the bits. */
  lemma LastBits(n: int, high: int)
    requires -HALF <= n + 1 - high <= HALF
    ensures (n + 1) % CIRCLE == high % CIRCLE <==> n + 1 == high
  {
    var a, b := (n + 1) / CIRCLE, high / CIRCLE;
    assert n + 1 == a * CIRCLE + (n + 1) % CIRCLE && high == b * CIRCLE + high % CIRCLE;
  }

  lemma NextBits(n: int)
    ensures (n % CIRCLE + 1) % CIRCLE == (n + 1) % CIRCLE
  {
  }

  /** Two scans that set out from numbers with the same bits stand at the same bits after as many steps. */
  lemma SameBits(n: int, i: int, low: int, first: int)
    requires first == low % CIRCLE && n - low == i - first
    ensures n % CIRCLE == i % CIRCLE
  {
    var t := low / CIRCLE;
    assert low == t * CIRCLE + first && n == i + t * CIRCLE;
  }

  /** What the bits of two numbers less than half a circle apart say. */
  lemma Distance(n: int, low: int)
    requires -HALF < n - low < HALF
    ensures n >= low && n % CIRCLE >= low % CIRCLE ==> n % CIRCLE - low % CIRCLE == n - low
    ensures n >= low && n % CIRCLE < low % CIRCLE ==> n % CIRCLE - low % CIRCLE == n - low - CIRCLE
    ensures n < low ==> n % CIRCLE != low % CIRCLE && (low % CIRCLE - n % CIRCLE) % CIRCLE == low - n
  {
    var a, b := n / CIRCLE, low / CIRCLE;
    assert n == a * CIRCLE + n % CIRCLE && low == b * CIRCLE + low % CIRCLE;
  }
}
