// merkle.py: the Merkle root over an ordered list of chunk hashes.
//
// `MerkleRoot` is the source's bottom-up pairing loop.  `Root` is the
// recursive tree of section 2.1 of RFC 6962, which splits at the largest
// power of two below the length.

module Merkle {
  import opened Basics

  const LEAF: byte := 0
  const NODE: byte := 1

  function Leaf(h: Hash, x: Bytes): Bytes {
    h([LEAF] + x)
  }

  function Node(h: Hash, left: Bytes, right: Bytes): Bytes {
    h([NODE] + left + right)
  }

  // ---- The RFC 6962 tree ----

  ghost predicate IsPowerOfTwo(k: nat)
    decreases k
  {
    k == 1 || (k > 1 && k % 2 == 0 && IsPowerOfTwo(k / 2))
  }

  // The largest power of two strictly below n.
  function Split(n: nat): (k: nat)
    requires n >= 2
    ensures IsPowerOfTwo(k) && k < n <= 2 * k
    decreases n
  {
    if n == 2 then 1 else 2 * Split((n + 1) / 2)
  }

  lemma {:induction false} SplitIsUnique(n: nat, k: nat)
    requires n >= 2 && IsPowerOfTwo(k) && k < n <= 2 * k
    ensures k == Split(n)
    decreases n
  {
    if n > 2 {
      SplitIsUnique((n + 1) / 2, k / 2);
    }
  }

  // MTH of RFC 6962 over digests that are already leaves.
  function Tree(h: Hash, d: seq<Bytes>): Bytes
    requires d != []
    decreases |d|
  {
    if |d| == 1 then d[0]
    else
      var k := Split(|d|);
      Node(h, Tree(h, d[..k]), Tree(h, d[k..]))
  }

  function Leaves(h: Hash, chunks: seq<Bytes>): (d: seq<Bytes>)
    ensures |d| == |chunks|
    ensures forall i :: 0 <= i < |d| ==> d[i] == Leaf(h, chunks[i])
  {
    seq(|chunks|, i requires 0 <= i < |chunks| => Leaf(h, chunks[i]))
  }

  // The RFC's tree; the empty list differs from it by design.
  function Root(h: Hash, chunks: seq<Bytes>): Bytes {
    if chunks == [] then h([LEAF]) else Tree(h, Leaves(h, chunks))
  }

  // ---- The bottom-up loop ----

  // One pass of the loop: neighbours are joined, an odd last node is promoted.
  ghost function Paired(h: Hash, level: seq<Bytes>): (next: seq<Bytes>)
    ensures |next| == (|level| + 1) / 2
    decreases |level|
  {
    if |level| < 2 then level
    else [Node(h, level[0], level[1])] + Paired(h, level[2..])
  }

  lemma {:induction false} PairedSplits(h: Hash, a: seq<Bytes>, b: seq<Bytes>)
    requires |a| % 2 == 0
    ensures Paired(h, a + b) == Paired(h, a) + Paired(h, b)
    decreases |a|
  {
    if a == [] {
      assert a + b == b;
    } else {
      assert (a + b)[2..] == a[2..] + b;
      PairedSplits(h, a[2..], b);
    }
  }

  // A pass does not change the root of the recursive tree.
  lemma {:induction false} PairedKeepsTree(h: Hash, d: seq<Bytes>)
    requires d != []
    ensures Tree(h, Paired(h, d)) == Tree(h, d)
    decreases |d|
  {
    if |d| == 2 {
      assert Paired(h, d) == [Node(h, d[0], d[1])] + [];
    } else if |d| > 2 {
      var k := Split(|d|);
      var p := Paired(h, d);
      assert d == d[..k] + d[k..];
      PairedSplits(h, d[..k], d[k..]);
      SplitIsUnique(|p|, k / 2);
      assert p[..k / 2] == Paired(h, d[..k]);
      assert p[k / 2..] == Paired(h, d[k..]);
      PairedKeepsTree(h, d[..k]);
      PairedKeepsTree(h, d[k..]);
    }
  }

  lemma {:induction false} PairedAppends(h: Hash, level: seq<Bytes>, i: nat)
    requires i % 2 == 0 && i < |level|
    ensures Paired(h, level[..if i + 1 < |level| then i + 2 else i + 1])
         == Paired(h, level[..i])
          + [if i + 1 < |level| then Node(h, level[i], level[i + 1]) else level[i]]
  {
    var j := if i + 1 < |level| then i + 2 else i + 1;
    assert level[..j] == level[..i] + level[i..j];
    PairedSplits(h, level[..i], level[i..j]);
    if j == i + 2 {
      assert level[i..j][2..] == [];
    } else {
      assert level[i..j] == [level[i]];
    }
  }

  // One pass over a level, pair by pair.
  method PairLevel(h: Hash, level: seq<Bytes>) returns (next: seq<Bytes>)
    ensures next == Paired(h, level)
  {
    next := [];
    var i := 0;
    while i < |level|
      invariant 0 <= i <= |level| && (i % 2 == 0 || i == |level|)
      invariant next == Paired(h, level[..i])
    {
      PairedAppends(h, level, i);
      if i + 1 < |level| {
        next := next + [Node(h, level[i], level[i + 1])];
        i := i + 2;
      } else {
        next := next + [level[i]];
        i := i + 1;
      }
    }
    assert level[..i] == level;
  }

  method MerkleRoot(h: Hash, chunks: seq<Bytes>) returns (root: Bytes)
    ensures root == Root(h, chunks)
  {
    if chunks == [] {
      return h([LEAF]);
    }
    var level := Leaves(h, chunks);
    while |level| > 1
      invariant level != [] && Tree(h, level) == Tree(h, Leaves(h, chunks))
      decreases |level|
    {
      PairedKeepsTree(h, level);
      level := PairLevel(h, level);
    }
    return level[0];
  }

  // The smallest trees, byte for byte: leaves are hashed behind a zero byte and
  // inner nodes behind a one, and an odd node is promoted as it is.
  lemma SmallRoots(h: Hash, a: Bytes, b: Bytes, c: Bytes)
    ensures Root(h, []) == h([0])
    ensures Root(h, [a]) == h([0] + a)
    ensures Root(h, [a, b]) == h([1] + h([0] + a) + h([0] + b))
    ensures Root(h, [a, b, c]) == h([1] + h([1] + h([0] + a) + h([0] + b)) + h([0] + c))
  {
    assert Leaves(h, [a]) == [h([0] + a)];
    assert Leaves(h, [a, b]) == [h([0] + a), h([0] + b)];
    assert Leaves(h, [a, b, c]) == [h([0] + a), h([0] + b), h([0] + c)];
    SmallTrees(h, h([0] + a), h([0] + b), h([0] + c));
  }

  lemma SmallTrees(h: Hash, x: Bytes, y: Bytes, z: Bytes)
    ensures Tree(h, [x, y]) == h([1] + x + y)
    ensures Tree(h, [x, y, z]) == h([1] + h([1] + x + y) + z)
  {
    assert [x, y][..1] == [x] && [x, y][1..] == [y];
    assert Tree(h, [x, y]) == Node(h, x, y);
    assert IsPowerOfTwo(2);
    SplitIsUnique(3, 2);
    assert [x, y, z][..2] == [x, y] && [x, y, z][2..] == [z];
  }

  // ---- The root commits to content, order and length ----

  // Different lists of leaves under one root yield a collision; `a` and `b`
  // are the chunk hashes below a common node.
  function FindCollision(h: Hash, a: seq<Bytes>, b: seq<Bytes>): (c: (Bytes, Bytes))
    requires IsDigest(h)
    requires a != [] && b != [] && a != b
    requires Tree(h, Leaves(h, a)) == Tree(h, Leaves(h, b))
    ensures Collision(h, c.0, c.1)
    decreases |a|
  {
    var pa, pb := Preimage(h, a), Preimage(h, b);
    if pa != pb then (pa, pb)
    else
      SubtreesAgree(h, a, b);
      var k, m := Split(|a|), Split(|b|);
      if a[..k] != b[..m] then FindCollision(h, a[..k], b[..m])
      else
        assert a[k..] != b[m..] by { assert a == a[..k] + a[k..] && b == b[..m] + b[m..]; }
        FindCollision(h, a[k..], b[m..])
  }

  // What the hash function was given at the top node over `a`.
  function Preimage(h: Hash, a: seq<Bytes>): (p: Bytes)
    requires a != []
    ensures h(p) == Tree(h, Leaves(h, a))
  {
    if |a| == 1 then [LEAF] + a[0]
    else
      var k := Split(|a|);
      LeavesSlice(h, a, k);
      [NODE] + Tree(h, Leaves(h, a[..k])) + Tree(h, Leaves(h, a[k..]))
  }

  lemma LeavesSlice(h: Hash, a: seq<Bytes>, k: nat)
    requires k <= |a|
    ensures Leaves(h, a)[..k] == Leaves(h, a[..k])
    ensures Leaves(h, a)[k..] == Leaves(h, a[k..])
  {
  }

  // A tree's value is a digest.
  lemma TreeIsDigest(h: Hash, a: seq<Bytes>)
    requires IsDigest(h) && a != []
    ensures |Tree(h, Leaves(h, a))| == DIGEST_SIZE
  {
    assert h(Preimage(h, a)) == Tree(h, Leaves(h, a));
  }

  // Equal preimages of different lists come from two inner nodes whose
  // subtrees agree pairwise.
  lemma SubtreesAgree(h: Hash, a: seq<Bytes>, b: seq<Bytes>)
    requires IsDigest(h)
    requires a != [] && b != [] && a != b
    requires Preimage(h, a) == Preimage(h, b)
    ensures |a| >= 2 && |b| >= 2
    ensures Tree(h, Leaves(h, a[..Split(|a|)])) == Tree(h, Leaves(h, b[..Split(|b|)]))
    ensures Tree(h, Leaves(h, a[Split(|a|)..])) == Tree(h, Leaves(h, b[Split(|b|)..]))
  {
    assert Preimage(h, a)[0] == Preimage(h, b)[0];
    assert |a| >= 2 && |b| >= 2 by {
      if |a| == 1 {
        LeafPreimageIsInjective(h, a, b);
      }
    }
    var k, m := Split(|a|), Split(|b|);
    TreeIsDigest(h, a[..k]);
    TreeIsDigest(h, b[..m]);
    NodePreimageIsInjective(
      Tree(h, Leaves(h, a[..k])), Tree(h, Leaves(h, a[k..])),
      Tree(h, Leaves(h, b[..m])), Tree(h, Leaves(h, b[m..])));
  }

  lemma NodePreimageIsInjective(l: Bytes, r: Bytes, l': Bytes, r': Bytes)
    requires |l| == |l'| && [NODE] + l + r == [NODE] + l' + r'
    ensures l == l' && r == r'
  {
    assert ([NODE] + l + r)[1..1 + |l|] == l && ([NODE] + l' + r')[1..1 + |l|] == l';
    assert ([NODE] + l + r)[1 + |l|..] == r && ([NODE] + l' + r')[1 + |l|..] == r';
  }

  lemma LeafPreimageIsInjective(h: Hash, a: seq<Bytes>, b: seq<Bytes>)
    requires |a| == |b| == 1 && Preimage(h, a) == Preimage(h, b)
    ensures a == b
  {
    assert Preimage(h, a)[1..] == a[0] && Preimage(h, b)[1..] == b[0];
  }

  // Lists that share a root by design: the empty list, and the list whose
  // only chunk hash is empty.  Lists of 32-byte hashes are never such a pair.
  predicate SameByDesign(a: seq<Bytes>, b: seq<Bytes>) {
    (a == [] && b == [[]]) || (a == [[]] && b == [])
  }

  // Any two different lists with one root, of any lengths, exhibit a collision.
  function ExtractCollision(h: Hash, a: seq<Bytes>, b: seq<Bytes>): (c: (Bytes, Bytes))
    requires IsDigest(h)
    requires a != b && !SameByDesign(a, b)
    requires Root(h, a) == Root(h, b)
    ensures Collision(h, c.0, c.1)
  {
    if a == [] then (assert b == [b[0]] || |b| > 1; ([LEAF], Preimage(h, b)))
    else if b == [] then (assert a == [a[0]] || |a| > 1; ([LEAF], Preimage(h, a)))
    else FindCollision(h, a, b)
  }

  // The pair that is left out really does share its root, under every hash.
  lemma EmptyRootIsShared(h: Hash)
    ensures Root(h, []) == Root(h, [[]])
  {
    assert [LEAF] + [] == [LEAF];
  }
}
