/** The Merkle root (src/node/merkle.go): a one-pass computation over a flat array with
    nil padding, against the level-by-level definition of the protocol document. */
module Merkle {
  import opened Wire
  import opened Transactions

  // ---------------------------------------------------------------- definition

  function HashMerkleBranches(p: Protocol, left: Digest, right: Digest): Digest {
    p.hash(left + right)
  }

  /** The sibling to the right of node `2k`; the last node of an odd row is its own. */
  function Sibling(hs: seq<Digest>, k: nat): Digest
    requires 2 * k < |hs|
  {
    if 2 * k + 1 < |hs| then hs[2 * k + 1] else hs[2 * k]
  }

  /** The next row up: an odd row is first extended by a copy of its last element. */
  function Row(p: Protocol, hs: seq<Digest>): (r: seq<Digest>)
    ensures |r| == (|hs| + 1) / 2
  {
    seq((|hs| + 1) / 2, k requires 0 <= k < (|hs| + 1) / 2 => HashMerkleBranches(p, hs[2 * k], Sibling(hs, k)))
  }

  function Root(p: Protocol, hs: seq<Digest>): Digest
    requires hs != []
    decreases |hs|
  {
    if |hs| == 1 then hs[0] else Root(p, Row(p, hs))
  }

  function TxHashes(p: Protocol, txs: seq<Transaction>): (hs: seq<Digest>)
    ensures |hs| == |txs|
    ensures forall k | 0 <= k < |txs| :: hs[k] == TxHash(p, txs[k])
  {
    seq(|txs|, k requires 0 <= k < |txs| => TxHash(p, txs[k]))
  }

  function MerkleRoot(p: Protocol, txs: seq<Transaction>): Digest
    requires txs != []
  {
    Root(p, TxHashes(p, txs))
  }

  // ---------------------------------------------------------------- powers of two

  function Pow2(k: nat): (r: int)
    ensures r >= 1
  {
    if k == 0 then 1 else 2 * Pow2(k - 1)
  }

  /** Bitwise and. */
  function And(a: nat, b: nat): (r: nat)
    ensures r <= a && r <= b
  {
    if a == 0 || b == 0 then 0 else 2 * And(a / 2, b / 2) + a % 2 * (b % 2)
  }

  function FloorLog2(n: int): (k: nat)
    requires n >= 1
    ensures Pow2(k) <= n < 2 * Pow2(k)
  {
    if n == 1 then 0 else 1 + FloorLog2(n / 2)
  }

  lemma {:induction false} AndSelf(n: nat)
    ensures And(n, n) == n
  {
    if n != 0 {
      AndSelf(n / 2);
      if n % 2 == 1 {
        assert n % 2 * (n % 2) == 1;
      }
    }
  }

  /** The bit trick `n & (n-1) == 0` recognises the powers of two and nothing else. */
  lemma {:induction false} AndPredecessor(n: nat)
    requires n >= 1
    ensures And(n, n - 1) == 0 <==> n == Pow2(FloorLog2(n))
  {
    if n == 1 {
    } else if n % 2 == 0 {
      AndPredecessor(n / 2);
      assert (n - 1) / 2 == n / 2 - 1;
    } else {
      AndSelf(n / 2);
      assert (n - 1) / 2 == n / 2 && (n - 1) % 2 == 0;
    }
  }

  /** The least power of two not below `n`. */
  function NextPowerOfTwo(n: int): (r: int)
    requires n >= 1
    ensures n <= r < 2 * n
    ensures exists k: nat :: r == Pow2(k)
  {
    AndPredecessor(n);
    if And(n, n - 1) == 0 then n else Pow2(FloorLog2(n) + 1)
  }

  // ---------------------------------------------------------------- the flat array

  /** A parent slot as the loop's three cases compute it; `None` is Go's nil. */
  function Parent(p: Protocol, left: Option<Digest>, right: Option<Digest>): Option<Digest> {
    if left.None? then None
    else if right.None? then Some(HashMerkleBranches(p, left.value, left.value))
    else Some(HashMerkleBranches(p, left.value, right.value))
  }

  /** A level of width `w`: the hashes, then a suffix of nils. */
  ghost predicate Padded(level: seq<Option<Digest>>, hs: seq<Digest>) {
    && |hs| <= |level|
    && (forall k | 0 <= k < |hs| :: level[k] == Some(hs[k]))
    && (forall k | |hs| <= k < |level| :: level[k] == None)
  }

  /** Slot `w + m` holds the parent of slots `2m` and `2m + 1`. */
  ghost predicate ParentAt(p: Protocol, t: seq<Option<Digest>>, w: nat, m: nat)
    requires w + m < |t| && 2 * m + 1 < |t|
  {
    t[w + m] == Parent(p, t[2 * m], t[2 * m + 1])
  }

  ghost predicate Filled(p: Protocol, t: seq<Option<Digest>>, w: nat)
    requires |t| == 2 * w - 1
  {
    forall m | 0 <= m < w - 1 :: ParentAt(p, t, w, m)
  }

  /** The whole array of width `w`: leaves, nils, and every parent in place. */
  ghost predicate Tree(p: Protocol, t: seq<Option<Digest>>, w: nat, hs: seq<Digest>) {
    && |hs| <= w < 2 * |hs|
    && |t| == 2 * w - 1
    && Padded(t[..w], hs)
    && Filled(p, t, w)
  }

  /** Dropping the lowest level leaves a tree of half the width over the next row. */
  lemma TreeAbove(p: Protocol, t: seq<Option<Digest>>, half: nat, hs: seq<Digest>)
    requires Tree(p, t, 2 * half, hs)
    ensures Tree(p, t[2 * half..], half, Row(p, hs))
  {
    UpperLevel(p, t, 2 * half, half, hs);
    UpperFilled(p, t, 2 * half, half);
  }

  /** The last slot holds the root. */
  lemma {:induction false} TreeHoldsRoot(p: Protocol, t: seq<Option<Digest>>, k: nat, hs: seq<Digest>)
    requires Tree(p, t, Pow2(k), hs)
    ensures hs != [] && t[|t| - 1] == Some(Root(p, hs))
  {
    hide Filled, Padded, Row;
    var w := Pow2(k);
    if k == 0 {
      SingleLeaf(t, hs);
    } else {
      var half := Pow2(k - 1);
      TreeAbove(p, t, half, hs);
      TreeHoldsRoot(p, t[w..], k - 1, Row(p, hs));
    }
  }

  lemma SingleLeaf(t: seq<Option<Digest>>, hs: seq<Digest>)
    requires |t| == 1 && |hs| == 1 && Padded(t[..1], hs)
    ensures t[0] == Some(hs[0])
  {
    assert t[..1][0] == t[0];
  }

  lemma UpperFilled(p: Protocol, t: seq<Option<Digest>>, w: nat, half: nat)
    requires half >= 1 && w == 2 * half && |t| == 2 * w - 1
    requires Filled(p, t, w)
    ensures Filled(p, t[w..], half)
  {
    var up := t[w..];
    forall m | 0 <= m < half - 1
      ensures ParentAt(p, up, half, m)
    {
      assert ParentAt(p, t, w, half + m);
    }
  }

  lemma UpperLevel(p: Protocol, t: seq<Option<Digest>>, w: nat, half: nat, hs: seq<Digest>)
    requires w == 2 * half && |t| == 2 * w - 1 && hs != []
    requires Padded(t[..w], hs)
    requires Filled(p, t, w)
    ensures Padded(t[w..][..half], Row(p, hs))
  {
    var row := Row(p, hs);
    forall m | 0 <= m < half
      ensures t[w..][..half][m] == if m < |row| then Some(row[m]) else None
    {
      assert ParentAt(p, t, w, m);
      assert t[2 * m] == t[..w][2 * m] && t[2 * m + 1] == t[..w][2 * m + 1];
    }
  }

  method BuildMerkleTreeStore(p: Protocol, txs: seq<Transaction>) returns (root: Digest)
    requires txs != []
    requires forall tx | tx in txs :: Hashable(tx)
    ensures root == MerkleRoot(p, txs)
  {
    hide TxHash, Hashable, Row, Root, Padded, Filled, And, FloorLog2;
    var width := NextPowerOfTwo(|txs|);
    var merkles := new Option<Digest>[width * 2 - 1](_ => None);
    HashLeaves(p, txs, merkles, width);
    FillParents(p, merkles, width);
    ghost var k: nat :| width == Pow2(k);
    TreeHoldsRoot(p, merkles[..], k, TxHashes(p, txs));
    root := merkles[merkles.Length - 1].value;
  }

  method HashLeaves(p: Protocol, txs: seq<Transaction>, merkles: array<Option<Digest>>, width: nat)
    requires |txs| <= width <= merkles.Length
    requires forall tx | tx in txs :: Hashable(tx)
    requires forall k | 0 <= k < merkles.Length :: merkles[k] == None
    modifies merkles
    ensures Padded(merkles[..width], TxHashes(p, txs))
  {
    for i := 0 to |txs|
      invariant forall k | 0 <= k < i :: merkles[k] == Some(TxHash(p, txs[k]))
      invariant forall k | i <= k < merkles.Length :: merkles[k] == None
    {
      var h := HashTransaction(p, txs[i]);
      merkles[i] := Some(h);
    }
  }

  /** The single pass: `i` reads pairs, `offset` writes their parents behind the leaves. */
  method FillParents(p: Protocol, merkles: array<Option<Digest>>, width: nat)
    requires width >= 1 && merkles.Length == width * 2 - 1
    modifies merkles
    ensures merkles[..][..width] == old(merkles[..width])
    ensures Filled(p, merkles[..], width)
  {
    var offset, i := width, 0;
    while i < merkles.Length - 1
      invariant 0 <= i <= merkles.Length - 1 && i % 2 == 0
      invariant offset == width + i / 2
      invariant forall k | 0 <= k < width :: merkles[k] == old(merkles[k])
      invariant forall m | 0 <= m < offset - width ::
        merkles[width + m] == Parent(p, merkles[2 * m], merkles[2 * m + 1])
    {
      assert i + 1 < offset;
      if merkles[i].None? {
        merkles[offset] := None;
      } else if merkles[i + 1].None? {
        merkles[offset] := Some(HashMerkleBranches(p, merkles[i].value, merkles[i].value));
      } else {
        merkles[offset] := Some(HashMerkleBranches(p, merkles[i].value, merkles[i + 1].value));
      }
      offset := offset + 1;
      i := i + 2;
    }
    forall m | 0 <= m < width - 1
      ensures ParentAt(p, merkles[..], width, m)
    {
      assert merkles[width + m] == Parent(p, merkles[2 * m], merkles[2 * m + 1]);
    }
  }

  // ---------------------------------------------------------------- binding

  /** The 64 bytes hashed for node `k` of the next row. */
  function Branch(hs: seq<Digest>, k: nat): (x: Bytes)
    requires 2 * k < |hs|
    ensures |x| == 2 * HASH_NUM_BYTES
  {
    hs[2 * k] + Sibling(hs, k)
  }

  /** `x` is hashed somewhere on the way from the leaves `hs` to their root. */
  ghost predicate IsBranch(p: Protocol, hs: seq<Digest>, x: Bytes)
    decreases |hs|
  {
    && |hs| > 1
    && (IsBranch(p, Row(p, hs), x) || exists k: nat :: 2 * k < |hs| && x == Branch(hs, k))
  }

  /** A collision between the two trees: a branch of one and a different branch of the
      other that have the same hash. */
  ghost predicate BranchesCollide(p: Protocol, a: seq<Digest>, b: seq<Digest>) {
    exists x, y :: IsBranch(p, a, x) && IsBranch(p, b, y) && x != y && p.hash(x) == p.hash(y)
  }

  lemma BranchBinding(a: seq<Digest>, b: seq<Digest>, k: nat)
    requires |a| == |b| && 2 * k < |a| && Branch(a, k) == Branch(b, k)
    ensures a[2 * k] == b[2 * k] && (2 * k + 1 < |a| ==> a[2 * k + 1] == b[2 * k + 1])
  {
    ConcatInjective(a[2 * k], Sibling(a, k), b[2 * k], Sibling(b, k));
  }

  lemma RowHashesBranches(p: Protocol, hs: seq<Digest>, k: nat)
    requires |hs| > 1 && 2 * k < |hs|
    ensures Row(p, hs)[k] == p.hash(Branch(hs, k)) && IsBranch(p, hs, Branch(hs, k))
  {
  }

  lemma RowBinding(p: Protocol, a: seq<Digest>, b: seq<Digest>)
    requires |a| == |b| > 1 && Row(p, a) == Row(p, b)
    ensures a == b || BranchesCollide(p, a, b)
  {
    hide Row, Branch, IsBranch;
    if a != b {
      var j :| 0 <= j < |a| && a[j] != b[j];
      var k: nat := j / 2;
      RowHashesBranches(p, a, k);
      RowHashesBranches(p, b, k);
      if Branch(a, k) == Branch(b, k) {
        BranchBinding(a, b, k);
      }
    }
  }

  /** Lists of equal length with the same root are equal, or two different branches hashed
      on the way to that root, one of each tree, collide. */
  lemma {:induction false} RootBinding(p: Protocol, a: seq<Digest>, b: seq<Digest>)
    requires a != [] && |a| == |b| && Root(p, a) == Root(p, b)
    ensures a == b || BranchesCollide(p, a, b)
    decreases |a|
  {
    hide Row;
    if |a| > 1 {
      RootBinding(p, Row(p, a), Row(p, b));
      if Row(p, a) == Row(p, b) {
        RowBinding(p, a, b);
      }
    } else {
      assert a == [a[0]] && b == [b[0]];
    }
  }

  lemma MerkleBinding(p: Protocol, a: seq<Transaction>, b: seq<Transaction>)
    requires a != [] && |a| == |b| && MerkleRoot(p, a) == MerkleRoot(p, b)
    ensures BranchesCollide(p, TxHashes(p, a), TxHashes(p, b))
         || forall k | 0 <= k < |a| :: TxHash(p, a[k]) == TxHash(p, b[k])
  {
    hide BranchesCollide, TxHash;
    RootBinding(p, TxHashes(p, a), TxHashes(p, b));
  }

  /** Equal length is needed: an odd row and the same row with its last element written
      twice have the same root. */
  lemma OddRowDuplicated(p: Protocol, hs: seq<Digest>)
    requires |hs| % 2 == 1 && |hs| > 1
    ensures Root(p, hs + [hs[|hs| - 1]]) == Root(p, hs)
  {
    assert Row(p, hs + [hs[|hs| - 1]]) == Row(p, hs);
  }
}
