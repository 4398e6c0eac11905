/** Merkle torrents: the hash tree over the pieces, built level by level in one array, and the proofs for single pieces. */
module Merkle {
  import opened Common

  function Pow2(k: nat): (r: nat)
    ensures r > 0
  {
    if k == 0 then 1 else 2 * Pow2(k - 1)
  }

  function Parent(n: nat): nat
    requires n > 0
  {
    (n - 1) / 2
  }

  /** Odd nodes have their sibling to the right, even ones to the left. */
  function Sibling(n: nat): nat
    requires n > 0
  {
    if n % 2 == 1 then n + 1 else n - 1
  }

  /** p is the number of pieces over leafs, rounded down. */
  predicate Quotient(p: nat, leafs: nat, pieces: nat) {
    p * leafs <= pieces < (p + 1) * leafs
  }

  /** The least power of two above the number of pieces. */
  method NumLeafs(pieces: nat) returns (leafs: nat, ghost k: nat)
    ensures leafs == Pow2(k) && pieces < leafs && (pieces > 0 ==> leafs <= 2 * pieces)
  {
    hide Quotient;
    var p := pieces;
    k := 0;
    leafs := 1;
    QuotientEnds(pieces, 1, pieces);
    while p > 0
      invariant leafs == Pow2(k) && Quotient(p, leafs, pieces)
      invariant p == 0 && k > 0 ==> leafs <= 2 * pieces
    {
      Halves(p, leafs, pieces);
      p := p / 2;
      leafs := leafs * 2;
      k := k + 1;
    }
    QuotientEnds(0, leafs, pieces);
  }

  lemma QuotientEnds(p: nat, leafs: nat, pieces: nat)
    ensures p == pieces && leafs == 1 ==> Quotient(p, leafs, pieces)
    ensures p == 0 && Quotient(p, leafs, pieces) ==> pieces < leafs
  {
  }

  lemma Halves(p: nat, leafs: nat, pieces: nat)
    requires p > 0 && leafs > 0 && Quotient(p, leafs, pieces)
    ensures Quotient(p / 2, leafs * 2, pieces)
    ensures p / 2 == 0 ==> leafs * 2 <= 2 * pieces
  {
    var q, r := p / 2, p % 2;
    assert p * leafs == q * (leafs * 2) + r * leafs;
    assert (p + 1) * leafs == q * (leafs * 2) + (r + 1) * leafs;
    assert (q + 1) * (leafs * 2) == q * (leafs * 2) + 2 * leafs;
    assert 0 <= r * leafs <= leafs;
    assert (r + 1) * leafs <= 2 * leafs;
  }

  lemma {:induction false} Pow2Grows(j: nat, k: nat)
    requires j < k
    ensures 2 * Pow2(j) <= Pow2(k)
  {
    if j < k - 1 { Pow2Grows(j, k - 1); }
  }

  /** Rounding up to a power of two is meant to give the least one that holds all pieces. It does exactly when the
      number of pieces is not itself a power of two; then the tree is twice as wide as it need be. */
  lemma LeafsRoundUp(pieces: nat, leafs: nat, k: nat)
    requires pieces > 0 && leafs == Pow2(k) && pieces < leafs <= 2 * pieces
    ensures (forall j: nat :: pieces <= Pow2(j) ==> leafs <= Pow2(j)) <==> (forall j: nat :: Pow2(j) != pieces)
  {
    forall j: nat | pieces <= Pow2(j) && Pow2(j) != pieces
      ensures leafs <= Pow2(j)
    {
      if j < k { Pow2Grows(j, k); }
      if j > k { Pow2Grows(k, j); }
    }
    if j: nat :| Pow2(j) == pieces {
      assert !(leafs <= Pow2(j));
    }
  }

  /** Every node above the leaves is the hash of its two children. */
  ghost predicate Hashed<H>(hash: (H, H) -> H, tree: seq<H>, from: nat, leafs: nat) {
    && 0 < leafs && |tree| == 2 * leafs - 1
    && forall i | from <= i < leafs - 1 :: tree[i] == hash(tree[2 * i + 1], tree[2 * i + 2])
  }

  /** The Merkle root of a power of two of hashes. */
  function Root<H>(hash: (H, H) -> H, leaves: seq<H>): H
    requires |leaves| > 0
    decreases |leaves|
  {
    if |leaves| == 1 then leaves[0]
    else hash(Root(hash, leaves[..|leaves| / 2]), Root(hash, leaves[|leaves| / 2..]))
  }

  /** The first leaf of the tree of height h that node i would be the root of, counted from the root of all. */
  function FirstUnder(i: nat, h: nat): int {
    (i + 1) * Pow2(h) - 1
  }

  lemma Spans(i: nat, h: nat)
    ensures i <= FirstUnder(i, h) && FirstUnder(i + 1, h) == FirstUnder(i, h) + Pow2(h)
    ensures h == 0 ==> FirstUnder(i, h) == i && Pow2(h) == 1
    ensures h > 0 ==>
              && Pow2(h) == 2 * Pow2(h - 1) > 0 && FirstUnder(2 * i + 1, h - 1) == FirstUnder(i, h)
              && FirstUnder(2 * i + 2, h - 1) == FirstUnder(i, h) + Pow2(h - 1)
              && FirstUnder(2 * i + 3, h - 1) == FirstUnder(i, h) + Pow2(h)
              && 2 * i + 2 <= FirstUnder(i, h) + Pow2(h) - 1
  {
    var w := Pow2(h);
    assert (i + 2) * w == (i + 1) * w + w;
    Product(i + 1, w);
    if h > 0 {
      var v := Pow2(h - 1);
      assert (2 * i + 2) * v == (i + 1) * (2 * v);
      assert (2 * i + 3) * v == (i + 1) * (2 * v) + v;
      assert (2 * i + 4) * v == (i + 1) * (2 * v) + 2 * v;
      Product(2 * i + 3, v);
    }
  }

  lemma Product(a: nat, b: nat)
    requires b > 0
    ensures a * b >= a
  {
  }

  /** A node h levels above the leaves is the Merkle root of the leaves under it. */
  lemma {:induction false} NodeIsRoot<H>(hash: (H, H) -> H, tree: seq<H>, leafs: nat, i: nat, h: nat)
    requires Hashed(hash, tree, 0, leafs)
    requires leafs - 1 <= FirstUnder(i, h) && FirstUnder(i, h) + Pow2(h) <= |tree|
    ensures i < |tree| && tree[i] == Root(hash, tree[FirstUnder(i, h)..FirstUnder(i, h) + Pow2(h)])
    decreases h
  {
    hide *;
    Spans(i, h);
    TreeSize(hash, tree, leafs);
    var a := FirstUnder(i, h);
    if h > 0 {
      NodeIsRoot(hash, tree, leafs, 2 * i + 1, h - 1);
      NodeIsRoot(hash, tree, leafs, 2 * i + 2, h - 1);
      InnerIs(hash, tree, leafs, i);
      RootOfRange(hash, tree, a, Pow2(h - 1));
    } else {
      RootOne(hash, tree, a);
    }
  }

  lemma TreeSize<H>(hash: (H, H) -> H, tree: seq<H>, leafs: nat)
    requires Hashed(hash, tree, 0, leafs)
    ensures |tree| == 2 * leafs - 1
  {
  }

  lemma InnerIs<H>(hash: (H, H) -> H, tree: seq<H>, leafs: nat, i: nat)
    requires Hashed(hash, tree, 0, leafs) && 2 * i + 2 < |tree|
    ensures tree[i] == hash(tree[2 * i + 1], tree[2 * i + 2])
  {
  }

  lemma RootOne<H>(hash: (H, H) -> H, tree: seq<H>, a: nat)
    requires a < |tree|
    ensures Root(hash, tree[a..a + 1]) == tree[a]
  {
    assert tree[a..a + 1] == [tree[a]];
  }

  /** The root over two halves of a range. */
  lemma RootOfRange<H>(hash: (H, H) -> H, tree: seq<H>, a: nat, v: nat)
    requires 0 < v && a + 2 * v <= |tree|
    ensures Root(hash, tree[a..a + 2 * v]) == hash(Root(hash, tree[a..a + v]), Root(hash, tree[a + v..a + v + v]))
  {
    var leaves := tree[a..a + 2 * v];
    assert |leaves| / 2 == v && |leaves| > 1;
    assert leaves[..v] == tree[a..a + v] && leaves[v..] == tree[a + v..a + v + v];
  }

  lemma WholeSpan(k: nat)
    ensures FirstUnder(0, k) == Pow2(k) - 1
  {
  }

  /** The root of a hashed tree is the Merkle root of its leaves. */
  lemma RootOfTree<H>(hash: (H, H) -> H, tree: seq<H>, leafs: nat, k: nat)
    requires Hashed(hash, tree, 0, leafs) && leafs == Pow2(k)
    ensures tree[0] == Root(hash, tree[leafs - 1..])
  {
    hide *;
    WholeSpan(k);
    TreeSize(hash, tree, leafs);
    NodeIsRoot(hash, tree, leafs, 0, k);
    assert tree[leafs - 1..2 * leafs - 1] == tree[leafs - 1..];
  }

  /** The piece hashes, filled up to the width of the tree. */
  function Padded<H>(pieces: seq<H>, filler: H, leafs: nat): (r: seq<H>)
    requires |pieces| <= leafs
    ensures |r| == leafs
  {
    pieces + seq(leafs - |pieces|, _ => filler)
  }

  /** Two hashes, the left child's first. */
  function Combine<H>(hash: (H, H) -> H, n: nat, h: H, sibling: H): H
    requires n > 0
  {
    if Sibling(n) < n then hash(sibling, h) else hash(h, sibling)
  }

  /** The root that a node's hash leads to, taking the siblings on the way up from the list. */
  function Climb<H>(hash: (H, H) -> H, subtree: map<nat, H>, n: nat, h: H): Option<H> {
    if n == 0 then Some(h)
    else if Sibling(n) !in subtree then None
    else Climb(hash, subtree, Parent(n), Combine(hash, n, h, subtree[Sibling(n)]))
  }

  /** A node and its sibling put in a list. */
  function Met<H>(nodes: map<nat, H>, n: nat, h: H, sibling: H): map<nat, H>
    requires n > 0
  {
    nodes[n := h][Sibling(n) := sibling]
  }

  /** The nodes met on the way, with their siblings. */
  function Path<H>(hash: (H, H) -> H, subtree: map<nat, H>, n: nat, h: H): map<nat, H>
    requires Climb(hash, subtree, n, h).Some?
  {
    if n == 0 then map[]
    else
      var s := subtree[Sibling(n)];
      Met(Path(hash, subtree, Parent(n), Combine(hash, n, h, s)), n, h, s)
  }

  /** In a hashed tree a node and its sibling make their parent. */
  lemma ParentHashed<H>(hash: (H, H) -> H, tree: seq<H>, leafs: nat, n: nat)
    requires Hashed(hash, tree, 0, leafs) && 0 < n < |tree|
    ensures Sibling(n) < |tree| && Parent(n) < leafs - 1
    ensures tree[Parent(n)] == Combine(hash, n, tree[n], tree[Sibling(n)])
  {
    var p := Parent(n);
    assert n == 2 * p + 1 || n == 2 * p + 2;
    assert tree[p] == hash(tree[2 * p + 1], tree[2 * p + 2]);
  }

  /** The siblings of the full tree lead from any of its nodes to its root. */
  lemma {:induction false} TruePathClimbs<H>(hash: (H, H) -> H, tree: seq<H>, leafs: nat, subtree: map<nat, H>, n: nat)
    requires Hashed(hash, tree, 0, leafs) && n < |tree|
    requires forall m | 0 < m <= n && OnPath(m, n) :: Sibling(m) < |tree| && Sibling(m) in subtree && subtree[Sibling(m)] == tree[Sibling(m)]
    ensures Climb(hash, subtree, n, tree[n]) == Some(tree[0])
    ensures forall k | k in Path(hash, subtree, n, tree[n]) :: k < |tree| && Path(hash, subtree, n, tree[n])[k] == tree[k]
    decreases n
  {
    if n > 0 {
      assert OnPath(n, n);
      ParentHashed(hash, tree, leafs, n);
      forall m | 0 < m <= Parent(n) && OnPath(m, Parent(n))
        ensures OnPath(m, n)
      {
      }
      TruePathClimbs(hash, tree, leafs, subtree, Parent(n));
    }
  }

  /** m is n or one of its ancestors. */
  predicate OnPath(m: nat, n: nat)
  {
    m == n || (n > 0 && OnPath(m, Parent(n)))
  }

  /** The hashes that a list has for the two children over which node m meets its sibling. */
  ghost predicate Collides<H>(hash: (H, H) -> H, tree: seq<H>, path: map<nat, H>, m: nat) {
    && m > 0
    && var left, right := 2 * Parent(m) + 1, 2 * Parent(m) + 2;
       && right < |tree| && left in path && right in path
       && (path[left], path[right]) != (tree[left], tree[right])
       && hash(path[left], path[right]) == hash(tree[left], tree[right])
  }

  lemma {:induction false} PathBelow<H>(hash: (H, H) -> H, subtree: map<nat, H>, n: nat, h: H)
    requires Climb(hash, subtree, n, h).Some?
    ensures forall k | k in Path(hash, subtree, n, h) :: 0 < k <= n + 1 && n > 0
    decreases n
  {
    if n > 0 {
      PathBelow(hash, subtree, Parent(n), Combine(hash, n, h, subtree[Sibling(n)]));
    }
  }

  /** Whatever leads to the root of the full tree is part of it, or else shows a collision of the hash: two different
      pairs, one of the tree and one on the way, with the same hash, where the way passes node `at`. */
  lemma {:induction false} ClimbIsTrue<H>(hash: (H, H) -> H, tree: seq<H>, leafs: nat, subtree: map<nat, H>, n: nat, h: H)
    returns (at: nat)
    requires Hashed(hash, tree, 0, leafs) && n < |tree|
    requires Climb(hash, subtree, n, h) == Some(tree[0])
    ensures at > 0 ==> OnPath(at, n) && Collides(hash, tree, Path(hash, subtree, n, h), at)
    ensures at == 0 ==> h == tree[n] && forall k | k in Path(hash, subtree, n, h) :: k < |tree| && Path(hash, subtree, n, h)[k] == tree[k]
    decreases n
  {
    at := 0;
    if n > 0 {
      var s := subtree[Sibling(n)];
      var up := Combine(hash, n, h, s);
      at := ClimbIsTrue(hash, tree, leafs, subtree, Parent(n), up);
      PathBelow(hash, subtree, Parent(n), up);
      ParentHashed(hash, tree, leafs, n);
      hide Climb, Path, Hashed;
      if at > 0 {
        OnPathBelow(at, Parent(n));
        CollidesStill(hash, tree, Path(hash, subtree, Parent(n), up), n, h, s, at);
      } else if h != tree[n] || s != tree[Sibling(n)] {
        at := n;
        CollidesHere(hash, tree, Path(hash, subtree, Parent(n), up), n, h, s);
      }
    }
  }

  /** A collision higher up is not touched by the two nodes added below it. */
  lemma CollidesStill<H>(hash: (H, H) -> H, tree: seq<H>, path: map<nat, H>, n: nat, h: H, s: H, m: nat)
    requires n > 0 && 0 < m <= Parent(n) && Collides(hash, tree, path, m)
    ensures Collides(hash, tree, Met(path, n, h, s), m)
  {
    assert n != 2 * Parent(m) + 1 && n != 2 * Parent(m) + 2 && Sibling(n) > Parent(n);
  }

  /** Two nodes that are not the tree's but hash to their parent's hash in the tree collide with the tree's. */
  lemma CollidesHere<H>(hash: (H, H) -> H, tree: seq<H>, path: map<nat, H>, n: nat, h: H, s: H)
    requires 0 < n < |tree| && Sibling(n) < |tree| && (h != tree[n] || s != tree[Sibling(n)])
    requires Combine(hash, n, h, s) == Combine(hash, n, tree[n], tree[Sibling(n)])
    ensures Collides(hash, tree, Met(path, n, h, s), n)
  {
    assert n == 2 * Parent(n) + 1 || n == 2 * Parent(n) + 2;
  }

  lemma {:induction false} OnPathBelow(m: nat, n: nat)
    requires OnPath(m, n)
    ensures m <= n
    decreases n
  {
    if m != n { OnPathBelow(m, Parent(n)); }
  }

  /** The nodes from..end-1 are the hashes of their children. */
  ghost predicate Hashes<H>(hash: (H, H) -> H, tree: seq<H>, from: nat, end: nat) {
    2 * end < |tree| && forall j | from <= j < end :: tree[j] == hash(tree[2 * j + 1], tree[2 * j + 2])
  }

  lemma HashesMore<H>(hash: (H, H) -> H, tree: seq<H>, from: nat, end: nat)
    requires Hashes(hash, tree, from, end) && from <= end && 2 * end + 2 < |tree| && end <= 2 * from
    ensures Hashes(hash, tree[end := hash(tree[2 * end + 1], tree[2 * end + 2])], from, end + 1)
  {
  }

  lemma LevelDone<H>(hash: (H, H) -> H, tree: seq<H>, tree': seq<H>, from: nat, levelStart: nat, leafs: nat)
    requires 0 < levelStart < leafs && Hashed(hash, tree, levelStart, leafs) && |tree'| == |tree|
    requires tree'[levelStart..] == tree[levelStart..] && Hashes(hash, tree', from, levelStart)
    ensures Hashed(hash, tree', from, leafs) && tree'[leafs - 1..] == tree[leafs - 1..]
  {
    forall k | levelStart <= k < |tree|
      ensures tree'[k] == tree[k]
    {
      assert tree'[k] == tree'[levelStart..][k - levelStart] && tree[k] == tree[levelStart..][k - levelStart];
    }
  }

  /** On the way up: what is left of the climb, and the nodes met so far. */
  ghost predicate Climbing<H>(hash: (H, H) -> H, subtree: map<nat, H>, n0: nat, n: nat, h: H, toAdd: map<nat, H>)
    requires n0 in subtree
  {
    && (forall k | k in toAdd :: 2 * n + 1 <= k)
    && Climb(hash, subtree, n0, subtree[n0]) == Climb(hash, subtree, n, h)
    && (Climb(hash, subtree, n, h).Some? ==>
          Path(hash, subtree, n0, subtree[n0]) == Path(hash, subtree, n, h) + toAdd)
  }

  lemma ClimbStart<H>(hash: (H, H) -> H, subtree: map<nat, H>, n0: nat)
    requires n0 in subtree
    ensures Climbing(hash, subtree, n0, n0, subtree[n0], map[])
  {
  }

  lemma ClimbStep<H>(hash: (H, H) -> H, subtree: map<nat, H>, n0: nat, n: nat, h: H, toAdd: map<nat, H>)
    requires n0 in subtree && n > 0 && Climbing(hash, subtree, n0, n, h, toAdd)
    ensures Sibling(n) !in subtree ==> Climb(hash, subtree, n0, subtree[n0]).None?
    ensures Sibling(n) in subtree ==>
              Climbing(hash, subtree, n0, Parent(n), Combine(hash, n, h, subtree[Sibling(n)]),
                       Met(toAdd, n, h, subtree[Sibling(n)]))
  {
    if Sibling(n) in subtree {
      var s := subtree[Sibling(n)];
      MetLater(toAdd, n, h, s);
      hide Combine, Met;
      if Climb(hash, subtree, n, h).Some? {
        MetMoves(Path(hash, subtree, Parent(n), Combine(hash, n, h, s)), toAdd, n, h, s);
      }
    }
  }

  lemma MetLater<H>(toAdd: map<nat, H>, n: nat, h: H, s: H)
    requires n > 0 && forall k | k in toAdd :: 2 * n + 1 <= k
    ensures forall k | k in Met(toAdd, n, h, s) :: 2 * Parent(n) + 1 <= k
  {
  }

  lemma MetMoves<H>(rest: map<nat, H>, toAdd: map<nat, H>, n: nat, h: H, s: H)
    requires n > 0 && forall k | k in toAdd :: 2 * n + 1 <= k
    ensures Met(rest, n, h, s) + toAdd == rest + Met(toAdd, n, h, s)
  {
    assert n !in toAdd && Sibling(n) !in toAdd;
  }

  class MerkleTree<H(!new,==)> {
    const hash: (H, H) -> H
    var tree: seq<H>
    var firstLeaf: nat

    constructor (hash: (H, H) -> H)
      ensures this.hash == hash && tree == [] && firstLeaf == 0
    {
      this.hash := hash;
      tree, firstLeaf := [], 0;
    }

    /** Fills in the leaves and hashes the levels above them in place, from the bottom up. */
    method Build(pieces: seq<H>, filler: H) returns (leafs: nat, ghost k: nat)
      modifies this
      ensures leafs == Pow2(k) && |pieces| < leafs && |tree| == 2 * leafs - 1 && firstLeaf == leafs - 1
      ensures tree[firstLeaf..] == Padded(pieces, filler, leafs)
      ensures Hashed(hash, tree, 0, leafs) && tree[0] == Root(hash, Padded(pieces, filler, leafs))
    {
      hide Pow2, Root;
      leafs, k := NumLeafs(|pieces|);
      var nodes := 2 * leafs - 1;
      firstLeaf := nodes - leafs;
      tree := seq(nodes, _ => filler);
      for i := 0 to |pieces|
        invariant |tree| == nodes && firstLeaf == leafs - 1
        invariant forall j | 0 <= j < nodes :: tree[j] == if firstLeaf <= j < firstLeaf + i then pieces[j - firstLeaf] else filler
      {
        tree := tree[firstLeaf + i := pieces[i]];
      }
      for i := |pieces| to leafs
        invariant |tree| == nodes && firstLeaf == leafs - 1
        invariant forall j | 0 <= j < nodes :: tree[j] == if firstLeaf <= j < firstLeaf + |pieces| then pieces[j - firstLeaf] else filler
      {
        tree := tree[firstLeaf + i := filler];
      }
      assert tree[firstLeaf..] == Padded(pieces, filler, leafs);
      ghost var height := k;
      var levelStart, levelSize := firstLeaf, leafs;
      while levelStart > 0
        invariant |tree| == nodes && firstLeaf == leafs - 1 && levelStart == levelSize - 1 <= firstLeaf
        invariant levelSize == Pow2(height)
        invariant Hashed(hash, tree, levelStart, leafs) && tree[firstLeaf..] == Padded(pieces, filler, leafs)
        decreases levelStart
      {
        EvenLevel(height);
        HashLevel(levelStart, levelSize, leafs);
        levelStart := Parent(levelStart);
        levelSize := levelSize / 2;
        height := height - 1;
      }
      RootOfTree(hash, tree, leafs, k);
    }

    /** Hashes the children of one level into the level above. */
    method HashLevel(levelStart: nat, levelSize: nat, leafs: nat)
      requires 0 < levelStart == levelSize - 1 && levelSize % 2 == 0 && Hashed(hash, tree, levelStart, leafs) && levelStart < leafs
      modifies `tree
      ensures Hashed(hash, tree, Parent(levelStart), leafs) && |tree| == |old(tree)|
      ensures tree[leafs - 1..] == old(tree)[leafs - 1..]
    {
      var parent := Parent(levelStart);
      var i := levelStart;
      ghost var first := parent;
      while i < levelStart + levelSize
        invariant levelStart <= i <= levelStart + levelSize && i == 2 * parent + 1 && |tree| == |old(tree)|
        invariant tree[levelStart..] == old(tree)[levelStart..]
        invariant Hashes(hash, tree, first, parent)
      {
        HashesMore(hash, tree, first, parent);
        tree := tree[parent := hash(tree[i], tree[i + 1])];
        i := i + 2;
        parent := parent + 1;
      }
      LevelDone(hash, old(tree), tree, first, levelStart, leafs);
    }

    /** The nodes needed to check a piece: it, the siblings on its way to the root, and the root. */
    method BuildMerkleList(piece: nat) returns (ret: map<nat, H>)
      requires firstLeaf + piece < |tree| && |tree| % 2 == 1
      ensures firstLeaf + piece in ret && 0 in ret
      ensures forall m | 0 < m && OnPath(m, firstLeaf + piece) :: Sibling(m) in ret
      ensures forall k | k in ret :: k < |tree| && ret[k] == tree[k]
    {
      ret := map[];
      var n: nat := firstLeaf + piece;
      ret := ret[n := tree[n]][0 := tree[0]];
      while n > 0
        invariant n < |tree| && firstLeaf + piece in ret && 0 in ret
        invariant forall k | k in ret :: k < |tree| && ret[k] == tree[k]
        invariant forall m | 0 < m && OnPath(m, firstLeaf + piece) :: OnPath(m, n) || Sibling(m) in ret
      {
        var sibling := Sibling(n);
        var parent := Parent(n);
        ret := ret[sibling := tree[sibling]];
        n := parent;
      }
    }

    /** Follows a list from a node up to the root. */
    method Collect(subtree: map<nat, H>, n0: nat) returns (ok: bool, h: H, toAdd: map<nat, H>)
      requires n0 in subtree
      ensures ok <==> Climb(hash, subtree, n0, subtree[n0]).Some?
      ensures ok ==> Climb(hash, subtree, n0, subtree[n0]) == Some(h) && toAdd == Path(hash, subtree, n0, subtree[n0])
    {
      var n := n0;
      h, toAdd := subtree[n], map[];
      ClimbStart(hash, subtree, n0);
      while n > 0
        invariant Climbing(hash, subtree, n0, n, h, toAdd)
      {
        var sibling := Sibling(n);
        var parent := Parent(n);
        ClimbStep(hash, subtree, n0, n, h, toAdd);
        if sibling !in subtree { return false, h, toAdd; }
        toAdd := toAdd[n := h];
        toAdd := toAdd[sibling := subtree[sibling]];
        h := Combine(hash, n, h, subtree[sibling]);
        n := parent;
      }
      ok := true;
    }

    /** Takes over the nodes of a list if they lead from the piece to the root this tree has. */
    method AddMerkleNodes(subtree: map<nat, H>, piece: nat) returns (ok: bool)
      requires firstLeaf + piece < |tree| && |tree| % 2 == 1
      modifies `tree
      ensures var n := firstLeaf + piece;
        ok <==> n in subtree && Climb(hash, subtree, n, subtree[n]) == Some(old(tree)[0])
      ensures |tree| == |old(tree)|
      ensures forall k | 0 <= k < |tree| ::
                tree[k] == if ok && k in Path(hash, subtree, firstLeaf + piece, subtree[firstLeaf + piece])
                           then Path(hash, subtree, firstLeaf + piece, subtree[firstLeaf + piece])[k] else old(tree)[k]
    {
      hide Climb, Path;
      var n := firstLeaf + piece;
      if n !in subtree { return false; }
      var h, toAdd;
      ok, h, toAdd := Collect(subtree, n);
      if !ok { return false; }
      if h != tree[0] { return false; }
      var i := 0;
      while i < |tree|
        invariant i <= |tree| == |old(tree)|
        invariant forall k | 0 <= k < |tree| :: tree[k] == if k < i && k in toAdd then toAdd[k] else old(tree)[k]
      {
        if i in toAdd {
          tree := tree[i := toAdd[i]];
        }
        i := i + 1;
      }
    }
  }

  lemma EvenLevel(h: nat)
    requires Pow2(h) > 1
    ensures h > 0 && Pow2(h) == 2 * Pow2(h - 1)
  {
  }
}
