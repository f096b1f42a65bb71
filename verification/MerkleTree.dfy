/**
 The airdrop Merkle tree as values: one reduction of a level, the root and depth of a leaf list,
 the proof of a position, and the fold that a verifier performs.
 */
module MerkleTree {
  import opened Common
  import opened Packing

  /**
   Where the right-hand child of parent `j` sits in a level of `n` nodes: the last node of an odd level
   is its own sibling.
   */
  function RightChild(n: nat, j: nat): (r: nat)
    requires 2 * j < n
    ensures r < n
  {
    if 2 * j + 1 < n then 2 * j + 1 else 2 * j
  }

  function Concat(left: Bytes, right: Bytes): (b: Bytes)
    ensures |b| == |left| + |right|
    ensures b[..|left|] == left && b[|left|..] == right
  {
    left + right
  }

  /** The preimage of parent `j`. */
  function ParentPreimage(level: seq<Digest>, j: nat): (b: Bytes)
    requires 2 * j < |level|
    ensures |b| == 64
  {
    Concat(level[2 * j], level[RightChild(|level|, j)])
  }

  function Reduce(keccak: Keccak, level: seq<Digest>): (parents: seq<Digest>)
    ensures |parents| == (|level| + 1) / 2
  {
    seq<Digest>((|level| + 1) / 2, j requires 0 <= j < (|level| + 1) / 2 => keccak(ParentPreimage(level, j)))
  }

  function Root(keccak: Keccak, level: seq<Digest>): Digest
    requires level != []
    decreases |level|
  {
    if |level| == 1 then level[0] else Root(keccak, Reduce(keccak, level))
  }

  function Depth(n: nat): nat {
    if n <= 1 then 0 else 1 + Depth((n + 1) / 2)
  }

  /** Reading an array: `None` is JavaScript's `undefined`. */
  function At<T>(a: seq<T>, i: int): Option<T> {
    if 0 <= i < |a| then Some(a[i]) else None
  }

  function Sibling(n: nat, path: nat): nat {
    if path % 2 == 1 then path - 1 else if path + 1 < n then path + 1 else path
  }

  function Proof(keccak: Keccak, level: seq<Digest>, path: nat): (proof: seq<Option<Digest>>)
    decreases |level|
  {
    if |level| <= 1 then []
    else [At(level, Sibling(|level|, path))] + Proof(keccak, Reduce(keccak, level), path / 2)
  }

  /**
   The bytes hashed when a node meets a proof element: the lowest bit of `path` says on which side the
   node stands.
   */
  function StepPreimage(node: Digest, path: nat, element: Bytes): Bytes {
    if path % 2 == 1 then Concat(element, node) else Concat(node, element)
  }

  /** Folds a proof onto a node; `None` when an element is missing, where `concat` throws. */
  function Fold(keccak: Keccak, node: Digest, path: nat, proof: seq<Option<Bytes>>): Option<Digest>
    decreases |proof|
  {
    if proof == [] then Some(node)
    else if proof[0].None? then None
    else Fold(keccak, keccak(StepPreimage(node, path, proof[0].value)), path / 2, proof[1..])
  }

  function Pow2(d: nat): (p: nat)
    ensures p > 0
  {
    if d == 0 then 1 else 2 * Pow2(d - 1)
  }

  // ----- Depth -----

  /** The depth is the least `d` for which a binary tree of depth `d` has room for `n` leaves. */
  lemma {:induction false} DepthIsLeast(n: nat)
    ensures n <= Pow2(Depth(n))
    ensures forall d: nat :: n <= Pow2(d) ==> Depth(n) <= d
  {
    if n > 1 {
      var m := (n + 1) / 2;
      DepthIsLeast(m);
      forall d: nat | n <= Pow2(d)
        ensures Depth(n) <= d
      {
        if d > 0 {
          assert m <= Pow2(d - 1);
        }
      }
    }
  }

  /** Halving a nonnegative real and truncating reads the same bits as halving integers. */
  lemma HalvingReals(x: real)
    requires x >= 0.0
    ensures (x / 2.0).Floor == x.Floor / 2
  {
    var f := x.Floor;
    assert f as real <= x < f as real + 1.0;
    var q := f / 2;
    assert f == 2 * q || f == 2 * q + 1;
    assert q as real <= x / 2.0 < q as real + 1.0;
  }

  // ----- The shape of the tree -----

  /**
   The real leaf that a position of the padded tree stands for: wherever an odd level was padded, the
   copy resolves to its original.
   */
  function Resolve(n: nat, position: nat): (r: nat)
    requires n > 0 && position < Pow2(Depth(n))
    ensures r < n
    decreases n
  {
    if n == 1 then 0
    else
      var parent := Resolve((n + 1) / 2, position / 2);
      if position % 2 == 1 then RightChild(n, parent) else 2 * parent
  }

  /** A position below the number of leaves is its own leaf. */
  lemma {:induction false} ResolveInRange(n: nat, position: nat)
    requires position < n
    ensures position < Pow2(Depth(n)) && Resolve(n, position) == position
    decreases n
  {
    DepthIsLeast(n);
    if n > 1 {
      ResolveInRange((n + 1) / 2, position / 2);
    }
  }

  /** The full leaf row of the padded tree. */
  function Padded(level: seq<Digest>): (row: seq<Digest>)
    requires level != []
    ensures |row| == Pow2(Depth(|level|))
  {
    seq<Digest>(Pow2(Depth(|level|)), p requires 0 <= p < Pow2(Depth(|level|)) => level[Resolve(|level|, p)])
  }

  /** Reference definition: the Merkle root of a full row of 2^d leaves, top down by halves. */
  function PerfectRoot(keccak: Keccak, row: seq<Digest>, d: nat): Digest
    requires |row| == Pow2(d)
    decreases d
  {
    if d == 0 then row[0]
    else
      var half := Pow2(d - 1);
      keccak(Concat(PerfectRoot(keccak, row[..half], d - 1), PerfectRoot(keccak, row[half..], d - 1)))
  }

  /** Reducing an even part and the rest separately is reducing the whole. */
  lemma ReduceConcat(keccak: Keccak, left: seq<Digest>, right: seq<Digest>)
    requires |left| % 2 == 0
    ensures Reduce(keccak, left + right) == Reduce(keccak, left) + Reduce(keccak, right)
  {
    var row, k := left + right, |left| / 2;
    forall j | 0 <= j < (|row| + 1) / 2
      ensures Reduce(keccak, row)[j] == (Reduce(keccak, left) + Reduce(keccak, right))[j]
    {
      if j < k {
        assert ParentPreimage(row, j) == ParentPreimage(left, j);
      } else {
        assert ParentPreimage(row, j) == ParentPreimage(right, j - k);
      }
    }
  }

  lemma PerfectRootConcat(keccak: Keccak, left: seq<Digest>, right: seq<Digest>, d: nat)
    requires d > 0 && |left| == |right| == Pow2(d - 1)
    ensures |left + right| == Pow2(d)
    ensures PerfectRoot(keccak, left + right, d) ==
            keccak(Concat(PerfectRoot(keccak, left, d - 1), PerfectRoot(keccak, right, d - 1)))
  {
    var row := left + right;
    assert row[..Pow2(d - 1)] == left && row[Pow2(d - 1)..] == right;
  }

  /** Hashing the lowest level first does not change a perfect root. */
  lemma {:induction false} PerfectRootReduces(keccak: Keccak, row: seq<Digest>, d: nat)
    requires d > 0 && |row| == Pow2(d)
    ensures PerfectRoot(keccak, row, d) == PerfectRoot(keccak, Reduce(keccak, row), d - 1)
    decreases d
  {
    if d == 1 {
      PerfectRootOfTwo(keccak, row);
    } else {
      var left, right := row[..Pow2(d - 1)], row[Pow2(d - 1)..];
      PerfectRootReduces(keccak, left, d - 1);
      PerfectRootReduces(keccak, right, d - 1);
      HalvesReduce(keccak, left, right, d);
      assert row == left + right;
    }
  }

  lemma HalvesReduce(keccak: Keccak, left: seq<Digest>, right: seq<Digest>, d: nat)
    requires d > 1 && |left| == |right| == Pow2(d - 1)
    requires PerfectRoot(keccak, left, d - 1) == PerfectRoot(keccak, Reduce(keccak, left), d - 2)
    requires PerfectRoot(keccak, right, d - 1) == PerfectRoot(keccak, Reduce(keccak, right), d - 2)
    ensures |left + right| == Pow2(d)
    ensures PerfectRoot(keccak, left + right, d) == PerfectRoot(keccak, Reduce(keccak, left + right), d - 1)
  {
    HalvesAgree(keccak, left, right, Reduce(keccak, left), Reduce(keccak, right), d);
    ReduceConcat(keccak, left, right);
  }

  /** Perfect roots agree when those of the halves do. */
  lemma HalvesAgree(keccak: Keccak, left: seq<Digest>, right: seq<Digest>,
                    upLeft: seq<Digest>, upRight: seq<Digest>, d: nat)
    requires d > 1 && |left| == |right| == Pow2(d - 1) && |upLeft| == |upRight| == Pow2(d - 2)
    requires PerfectRoot(keccak, left, d - 1) == PerfectRoot(keccak, upLeft, d - 2)
    requires PerfectRoot(keccak, right, d - 1) == PerfectRoot(keccak, upRight, d - 2)
    ensures |left + right| == Pow2(d) && |upLeft + upRight| == Pow2(d - 1)
    ensures PerfectRoot(keccak, left + right, d) == PerfectRoot(keccak, upLeft + upRight, d - 1)
  {
    PerfectRootConcat(keccak, left, right, d);
    PerfectRootConcat(keccak, upLeft, upRight, d - 1);
  }

  lemma PerfectRootOfTwo(keccak: Keccak, row: seq<Digest>)
    requires |row| == 2
    ensures Pow2(1) == 2 && Pow2(0) == 1
    ensures PerfectRoot(keccak, row, 1) == PerfectRoot(keccak, Reduce(keccak, row), 0)
  {
    assert Reduce(keccak, row)[0] == keccak(ParentPreimage(row, 0));
    assert PerfectRoot(keccak, row[..1], 0) == row[0] && PerfectRoot(keccak, row[1..], 0) == row[1];
  }

  /** Padding commutes with reducing. */
  lemma PaddedReduces(keccak: Keccak, level: seq<Digest>)
    requires |level| > 1
    ensures Reduce(keccak, Padded(level)) == Padded(Reduce(keccak, level))
  {
    var n := |level|;
    var m := (n + 1) / 2;
    var row, up := Padded(level), Reduce(keccak, level);
    assert |row| == 2 * Pow2(Depth(m));
    forall j | 0 <= j < Pow2(Depth(m))
      ensures Reduce(keccak, row)[j] == Padded(up)[j]
    {
      var parent := Resolve(m, j);
      assert (2 * j) / 2 == j && (2 * j + 1) / 2 == j;
      assert Resolve(n, 2 * j) == 2 * parent;
      assert Resolve(n, 2 * j + 1) == RightChild(n, parent);
      assert ParentPreimage(row, j) == Concat(row[2 * j], row[2 * j + 1]) == ParentPreimage(level, parent);
    }
  }

  /** The level-by-level reduction computes the root of the padded perfect tree. */
  lemma {:induction false} RootIsPerfectRoot(keccak: Keccak, level: seq<Digest>)
    requires level != []
    ensures Root(keccak, level) == PerfectRoot(keccak, Padded(level), Depth(|level|))
    decreases |level|
  {
    if |level| == 1 {
      assert Padded(level)[0] == level[0];
    } else {
      RootIsPerfectRoot(keccak, Reduce(keccak, level));
      PaddedReduces(keccak, level);
      PerfectRootReduces(keccak, Padded(level), Depth(|level|));
    }
  }

  // ----- Completeness -----

  lemma {:induction false} ProofLength(keccak: Keccak, level: seq<Digest>, path: nat)
    ensures |Proof(keccak, level, path)| == Depth(|level|)
    decreases |level|
  {
    if |level| > 1 {
      ProofLength(keccak, Reduce(keccak, level), path / 2);
    }
  }

  /** The proof built for a position folds that position's leaf back to the root. */
  lemma {:induction false} ProofFolds(keccak: Keccak, level: seq<Digest>, path: nat)
    requires path < |level|
    ensures Fold(keccak, level[path], path, Proof(keccak, level, path)) == Some(Root(keccak, level))
    decreases |level|
  {
    if |level| > 1 {
      var up := Reduce(keccak, level);
      var proof := Proof(keccak, level, path);
      ProofFolds(keccak, up, path / 2);
      assert proof[1..] == Proof(keccak, up, path / 2);
      assert StepPreimage(level[path], path, proof[0].value) == ParentPreimage(level, path / 2);
    }
  }

  // ----- Soundness -----

  /** Two byte strings. */
  datatype Pair = Pair(x: Bytes, y: Bytes)

  /** The two strings are different and have the same digest. */
  predicate IsCollision(keccak: Keccak, p: Pair) {
    p.x != p.y && keccak(p.x) == keccak(p.y)
  }

  /** Looks for the level, highest first, at which an accepted fold and the real tree hash different bytes. */
  function TreeCollision(keccak: Keccak, level: seq<Digest>, node: Digest, path: nat, proof: seq<Option<Bytes>>): Pair
    decreases |level|
  {
    if |level| <= 1 || |proof| != Depth(|level|) || path >= Pow2(|proof|) || proof[0].None? then Pair([], [])
    else
      var preimage := StepPreimage(node, path, proof[0].value);
      var above := TreeCollision(keccak, Reduce(keccak, level), keccak(preimage), path / 2, proof[1..]);
      if IsCollision(keccak, above) then above
      else Pair(ParentPreimage(level, Resolve((|level| + 1) / 2, path / 2)), preimage)
  }

  /**
   A fold that reaches the root started at the leaf its position resolves to and used exactly that
   leaf's proof, or `TreeCollision` is a collision.
   */
  lemma {:induction false} FoldSound(keccak: Keccak, level: seq<Digest>, node: Digest, path: nat,
                                     proof: seq<Option<Bytes>>)
    requires level != [] && |proof| == Depth(|level|) && path < Pow2(|proof|)
    requires Fold(keccak, node, path, proof) == Some(Root(keccak, level))
    requires !IsCollision(keccak, TreeCollision(keccak, level, node, path, proof))
    ensures node == level[Resolve(|level|, path)]
    ensures proof == Proof(keccak, level, Resolve(|level|, path))
    decreases |level|
  {
    if |level| > 1 {
      var up := Reduce(keccak, level);
      var preimage := StepPreimage(node, path, proof[0].value);
      var parent := Resolve(|up|, path / 2);
      CollisionStep(keccak, level, node, path, proof);
      FoldSound(keccak, up, keccak(preimage), path / 2, proof[1..]);
      assert up[parent] == keccak(ParentPreimage(level, parent));
      FoldStep(keccak, level, node, path, proof, parent, Resolve(|level|, path));
    }
  }

  /** One level of `FoldSound`, given the level above. */
  lemma FoldStep(keccak: Keccak, level: seq<Digest>, node: Digest, path: nat, proof: seq<Option<Bytes>>,
                 parent: nat, r: nat)
    requires 2 * parent < |level| && |level| > 1 && proof != [] && proof[0].Some?
    requires r == if path % 2 == 1 then RightChild(|level|, parent) else 2 * parent
    requires StepPreimage(node, path, proof[0].value) == ParentPreimage(level, parent)
    requires proof[1..] == Proof(keccak, Reduce(keccak, level), parent)
    ensures node == level[r] && proof == Proof(keccak, level, r)
  {
    StepMatches(level, node, path, proof[0].value, parent);
    assert r / 2 == parent;
    ProofStep(keccak, level, r, proof);
  }

  lemma CollisionStep(keccak: Keccak, level: seq<Digest>, node: Digest, path: nat, proof: seq<Option<Bytes>>)
    requires |level| > 1 && |proof| == Depth(|level|) && path < Pow2(|proof|) && proof[0].Some?
    requires !IsCollision(keccak, TreeCollision(keccak, level, node, path, proof))
    ensures var preimage := StepPreimage(node, path, proof[0].value);
            var inTree := ParentPreimage(level, Resolve((|level| + 1) / 2, path / 2));
            && !IsCollision(keccak,
                            TreeCollision(keccak, Reduce(keccak, level), keccak(preimage), path / 2, proof[1..]))
            && (keccak(preimage) == keccak(inTree) ==> preimage == inTree)
  {
  }

  lemma ProofStep(keccak: Keccak, level: seq<Digest>, r: nat, proof: seq<Option<Bytes>>)
    requires |level| > 1 && proof != []
    requires proof[0] == At(level, Sibling(|level|, r)) && proof[1..] == Proof(keccak, Reduce(keccak, level), r / 2)
    ensures proof == Proof(keccak, level, r)
  {
    var p := Proof(keccak, level, r);
    assert p[0] == proof[0] && p[1..] == proof[1..];
    assert p == [p[0]] + p[1..] && proof == [proof[0]] + proof[1..];
  }

  /** Equal preimages place the node and the proof element at the two children of the parent. */
  lemma StepMatches(level: seq<Digest>, node: Digest, path: nat, element: Bytes, parent: nat)
    requires 2 * parent < |level|
    requires StepPreimage(node, path, element) == ParentPreimage(level, parent)
    ensures var r := if path % 2 == 1 then RightChild(|level|, parent) else 2 * parent;
            node == level[r] && Some(element) == At(level, Sibling(|level|, r))
  {
    var preimage := ParentPreimage(level, parent);
    assert |element| == 32;
    assert preimage[..32] == level[2 * parent] && preimage[32..] == level[RightChild(|level|, parent)];
  }

  // ----- Levels, proofs and folds, entry by entry -----

  /** The trees over one, two and three leaves, written out. */
  lemma SmallTrees(keccak: Keccak, a: Digest, b: Digest, c: Digest)
    ensures Root(keccak, [a]) == a && Root(keccak, [a, b]) == keccak(a + b)
    ensures Root(keccak, [a, b, c]) == keccak(keccak(a + b) + keccak(c + c))
    ensures Proof(keccak, [a, b, c], 0) == [Some(b), Some(keccak(c + c))]
    ensures Proof(keccak, [a, b, c], 1) == [Some(a), Some(keccak(c + c))]
    ensures Proof(keccak, [a, b, c], 2) == [Some(c), Some(keccak(a + b))]
  {
    var two: seq<Digest>, three: seq<Digest> := [a, b], [a, b, c];
    assert Reduce(keccak, two)[0] == keccak(ParentPreimage(two, 0)) == keccak(a + b);
    assert Reduce(keccak, two) == [keccak(a + b)];
    var up := Reduce(keccak, three);
    assert up[0] == keccak(ParentPreimage(three, 0)) == keccak(a + b);
    assert up[1] == keccak(ParentPreimage(three, 1)) == keccak(c + c);
    assert up == [keccak(a + b), keccak(c + c)];
    assert Reduce(keccak, up)[0] == keccak(ParentPreimage(up, 0)) == keccak(keccak(a + b) + keccak(c + c));
    assert Reduce(keccak, up) == [keccak(keccak(a + b) + keccak(c + c))];
    assert Root(keccak, three) == Root(keccak, up) == Root(keccak, Reduce(keccak, up));
    assert Proof(keccak, up, 0) == [Some(up[1])] + Proof(keccak, Reduce(keccak, up), 0);
    assert Proof(keccak, up, 1) == [Some(up[0])] + Proof(keccak, Reduce(keccak, up), 0);
    assert Proof(keccak, three, 0) == [Some(b)] + Proof(keccak, up, 0);
  }

  /** The level that `i` reductions lead to. */
  function Level(keccak: Keccak, leaves: seq<Digest>, i: nat): seq<Digest>
    decreases i
  {
    if i == 0 then leaves else Level(keccak, Reduce(keccak, leaves), i - 1)
  }

  /**
   The elements of a proof, for any position: on each level the left neighbour of an odd place, the right
   neighbour of an even one, and the node itself where there is no neighbour; nothing where there is no node.
   */
  lemma {:induction false} ProofElement(keccak: Keccak, leaves: seq<Digest>, path: nat, i: nat)
    requires i < Depth(|leaves|)
    ensures |Proof(keccak, leaves, path)| == Depth(|leaves|)
    ensures var level, place := Level(keccak, leaves, i), path / Pow2(i);
            var sibling := if place % 2 == 1 then place - 1 else if place + 1 < |level| then place + 1 else place;
            Proof(keccak, leaves, path)[i] == if sibling < |level| then Some(level[sibling]) else None
    decreases i
  {
    ProofLength(keccak, leaves, path);
    if i > 0 {
      ProofElement(keccak, Reduce(keccak, leaves), path / 2, i - 1);
      DivideByPow2(path, i);
    }
  }

  lemma DivideByPow2(x: nat, i: nat)
    requires i > 0
    ensures x / 2 / Pow2(i - 1) == x / Pow2(i)
  {
    HalfDivide(x, Pow2(i - 1));
  }

  lemma HalfDivide(x: nat, p: nat)
    requires p > 0
    ensures x / 2 / p == x / (2 * p)
  {
    var d := 2 * p;
    var q, r := x / d, x % d;
    var pq := p * q;
    assert x == d * q + r && d * q == 2 * pq;
    assert x / 2 == pq + r / 2;
    DivideExactly(x / 2, p, q, r / 2);
  }

  lemma DivideExactly(n: nat, p: nat, q: nat, r: nat)
    requires p > 0 && n == p * q + r && r < p
    ensures n / p == q
  {
    var d := n / p;
    assert n == p * d + n % p;
    assert d < q ==> p * (d + 1) <= p * q;
    assert d > q ==> p * (q + 1) <= p * d;
  }

  /** The nodes that a fold passes: bit `i` of the index says on which side of its sibling the `i`-th one stands. */
  predicate IsFold(keccak: Keccak, index: nat, proof: seq<Option<Bytes>>, nodes: seq<Digest>) {
    && |nodes| == |proof| + 1
    && forall i :: 0 <= i < |proof| ==>
         && proof[i].Some?
         && nodes[i + 1] == if index / Pow2(i) % 2 == 1 then keccak(proof[i].value + nodes[i])
                            else keccak(nodes[i] + proof[i].value)
  }

  lemma {:induction false} FoldIsChain(keccak: Keccak, index: nat, proof: seq<Option<Bytes>>, nodes: seq<Digest>)
    requires IsFold(keccak, index, proof, nodes)
    ensures Fold(keccak, nodes[0], index, proof) == Some(nodes[|proof|])
    decreases |proof|
  {
    if proof != [] {
      assert index / Pow2(0) == index;
      forall i | 0 <= i < |proof| - 1
        ensures proof[1..][i].Some?
        ensures nodes[1..][i + 1] == if index / 2 / Pow2(i) % 2 == 1 then keccak(proof[1..][i].value + nodes[1..][i])
                                     else keccak(nodes[1..][i] + proof[1..][i].value)
      {
        assert proof[i + 1].Some?;
        DivideByPow2(index, i + 1);
      }
      FoldIsChain(keccak, index / 2, proof[1..], nodes[1..]);
    }
  }

  /** A fold fails exactly when an element is missing. */
  lemma {:induction false} FoldFails(keccak: Keccak, node: Digest, index: nat, proof: seq<Option<Bytes>>)
    ensures Fold(keccak, node, index, proof).None? <==> exists i :: 0 <= i < |proof| && proof[i].None?
    decreases |proof|
  {
    if proof != [] && proof[0].Some? {
      FoldFails(keccak, keccak(StepPreimage(node, index, proof[0].value)), index / 2, proof[1..]);
      assert forall i :: 0 < i < |proof| ==> proof[i] == proof[1..][i - 1];
    }
  }
}
