/** Merkle trees over a list of transaction hashes: the shape of the tree, the flat array that
    holds all its rows, and the branch that ties one leaf to the root. */
module Merkle {

  type Hash = nat

  const ZERO: Hash := 0

  // ---------------------------------------------------------------- the shape of the tree

  /** The number of leaves below a full node at this height. */
  function Span(height: nat): (s: nat)
    ensures s >= 1
  {
    if height == 0 then 1 else 2 * Span(height - 1)
  }

  /** The number of nodes at this height over n leaves: each row is half as wide as the one below, rounded up. */
  function Width(n: nat, height: nat): nat {
    if height == 0 then n else (Width(n, height - 1) + 1) / 2
  }

  /** The same number, computed from the number of leaves directly. */
  function CalcTreeWidth(n: nat, height: nat): nat {
    (n + Span(height) - 1) / Span(height)
  }

  /** A node exists exactly when its first leaf does. */
  lemma {:induction false} WidthCovers(n: nat, height: nat, pos: nat)
    ensures pos < Width(n, height) <==> pos * Span(height) < n
  {
    if height > 0 {
      WidthCovers(n, height - 1, 2 * pos);
      Twice(pos, Span(height - 1));
      Rounded(pos, Width(n, height - 1));
    }
  }

  lemma Twice(pos: nat, s: nat)
    ensures pos * (2 * s) == (2 * pos) * s
  {
  }

  lemma Rounded(pos: nat, w: nat)
    ensures pos < (w + 1) / 2 <==> 2 * pos < w
  {
  }

  lemma CalcTreeWidthExact(n: nat, height: nat)
    ensures CalcTreeWidth(n, height) == Width(n, height)
  {
    var s, w := Span(height), Width(n, height);
    WidthCovers(n, height, w);
    if w > 0 {
      WidthCovers(n, height, w - 1);
    }
    RoundedUp(n, s, w);
  }

  /** The least w with w * s >= n is n / s rounded up. */
  lemma RoundedUp(n: nat, s: nat, w: nat)
    requires s >= 1 && w * s >= n && (w > 0 ==> (w - 1) * s < n)
    ensures (n + s - 1) / s == w
  {
    if w == 0 {
      assert w * s == 0;
    } else {
      Less(w, s);
    }
    DivExact(n + s - 1, s, w, n + s - 1 - w * s);
  }

  lemma Less(w: nat, s: nat)
    requires w > 0
    ensures (w - 1) * s == w * s - s
  {
  }

  lemma DivExact(a: int, d: int, q: int, r: int)
    requires d > 0 && a == q * d + r && 0 <= r < d
    ensures a / d == q
  {
    var x := a / d - q;
    assert x * d == r - a % d;
    SmallMultiple(x, d);
  }

  lemma SmallMultiple(x: int, d: int)
    requires -d < x * d < d
    ensures x == 0
  {
  }

  /** The height at which one node is left. */
  function Height(n: nat): (h: nat)
    ensures Width(n, h) <= 1
    ensures forall k: nat :: k < h ==> Width(n, k) > 1
  {
    HeightFrom(n, 0)
  }

  function HeightFrom(n: nat, height: nat): (h: nat)
    requires forall k: nat :: k < height ==> Width(n, k) > 1
    ensures h >= height && Width(n, h) <= 1
    ensures forall k: nat :: k < h ==> Width(n, k) > 1
    decreases Width(n, height)
  {
    if Width(n, height) <= 1 then height else HeightFrom(n, height + 1)
  }

  lemma RootExists(n: nat)
    requires n > 0
    ensures Width(n, Height(n)) == 1
  {
    WidthCovers(n, Height(n), 0);
  }

  // ---------------------------------------------------------------- rows and roots

  function Min(a: int, b: int): int { if a < b then a else b }

  /** Neighbours are hashed together, an odd last one with itself. */
  function Parent(hash: (Hash, Hash) -> Hash, row: seq<Hash>, i: nat): Hash
    requires 2 * i < |row|
  {
    hash(row[2 * i], row[Min(2 * i + 1, |row| - 1)])
  }

  function NextRow(hash: (Hash, Hash) -> Hash, row: seq<Hash>): (r: seq<Hash>)
    ensures |r| == (|row| + 1) / 2
    ensures forall i :: 0 <= i < |r| ==> r[i] == Parent(hash, row, i)
  {
    seq((|row| + 1) / 2, i requires 0 <= i < (|row| + 1) / 2 => Parent(hash, row, i))
  }

  function Row(hash: (Hash, Hash) -> Hash, leaves: seq<Hash>, height: nat): (r: seq<Hash>)
    ensures |r| == Width(|leaves|, height)
  {
    if height == 0 then leaves else NextRow(hash, Row(hash, leaves, height - 1))
  }

  /** The hash of one node, computed from the leaves below it. */
  function CalcHash(hash: (Hash, Hash) -> Hash, leaves: seq<Hash>, height: nat, pos: nat): Hash
    requires pos < Width(|leaves|, height)
  {
    if height == 0 then leaves[pos]
    else
      var left := CalcHash(hash, leaves, height - 1, 2 * pos);
      var right := if 2 * pos + 1 < Width(|leaves|, height - 1) then CalcHash(hash, leaves, height - 1, 2 * pos + 1) else left;
      hash(left, right)
  }

  /** Row by row from the leaves up, and node by node from the root down, are the same tree. */
  lemma {:induction false} CalcHashIsRow(hash: (Hash, Hash) -> Hash, leaves: seq<Hash>, height: nat, pos: nat)
    requires pos < Width(|leaves|, height)
    ensures CalcHash(hash, leaves, height, pos) == Row(hash, leaves, height)[pos]
  {
    if height > 0 {
      var below := Row(hash, leaves, height - 1);
      assert 2 * pos < |below|;
      CalcHashIsRow(hash, leaves, height - 1, 2 * pos);
      if 2 * pos + 1 < |below| {
        CalcHashIsRow(hash, leaves, height - 1, 2 * pos + 1);
      }
      assert Row(hash, leaves, height)[pos] == Parent(hash, below, pos);
    }
  }

  /** The Merkle root, zero for an empty block. */
  function Root(hash: (Hash, Hash) -> Hash, leaves: seq<Hash>): Hash {
    if leaves == [] then ZERO
    else
      RootExists(|leaves|);
      CalcHash(hash, leaves, Height(|leaves|), 0)
  }

  // ---------------------------------------------------------------- the flat array

  /** A row and all rows above it, one after the other. */
  function Flat(hash: (Hash, Hash) -> Hash, row: seq<Hash>): (tree: seq<Hash>)
    ensures |tree| >= |row| && tree[..|row|] == row
    decreases |row|
  {
    if |row| <= 1 then row else row + Flat(hash, NextRow(hash, row))
  }

  /** What a row shrinks to. */
  function Top(hash: (Hash, Hash) -> Hash, row: seq<Hash>): Hash
    requires row != []
    decreases |row|
  {
    if |row| == 1 then row[0] else Top(hash, NextRow(hash, row))
  }

  lemma {:induction false} FlatEndsInTop(hash: (Hash, Hash) -> Hash, row: seq<Hash>)
    requires row != []
    ensures var tree := Flat(hash, row); tree != [] && tree[|tree| - 1] == Top(hash, row)
    decreases |row|
  {
    if |row| > 1 {
      FlatEndsInTop(hash, NextRow(hash, row));
    }
  }

  lemma {:induction false} TopOfRow(hash: (Hash, Hash) -> Hash, leaves: seq<Hash>, height: nat)
    requires leaves != [] && height <= Height(|leaves|)
    ensures Row(hash, leaves, height) != [] && Top(hash, Row(hash, leaves, height)) == Root(hash, leaves)
    decreases Height(|leaves|) - height
  {
    RootExists(|leaves|);
    if height < Height(|leaves|) {
      assert Width(|leaves|, height) > 1;
      TopOfRow(hash, leaves, height + 1);
      assert Row(hash, leaves, height + 1) == NextRow(hash, Row(hash, leaves, height));
    } else {
      CalcHashIsRow(hash, leaves, height, 0);
    }
  }

  /** Appending the row above row, which starts at j. */
  method AppendRow(hash: (Hash, Hash) -> Hash, tree: seq<Hash>, j: nat, nSize: nat) returns (tree': seq<Hash>)
    requires j + nSize == |tree|
    ensures tree' == tree + NextRow(hash, tree[j..])
  {
    ghost var next := NextRow(hash, tree[j..]);
    tree' := tree;
    var i := 0;
    while i < nSize
      invariant |tree'| == |tree| + (i + 1) / 2 && 0 <= i <= nSize + 1 && i % 2 == 0
      invariant tree' == tree + next[..i / 2]
    {
      var i2 := Min(i + 1, nSize - 1);
      assert next[i / 2] == Parent(hash, tree[j..], i / 2);
      assert tree'[j + i] == tree[j..][i] && tree'[j + i2] == tree[j..][i2];
      tree' := tree' + [hash(tree'[j + i], tree'[j + i2])];
      assert next[..i / 2 + 1] == next[..i / 2] + [next[i / 2]];
      i := i + 2;
    }
    assert next[..i / 2] == next;
  }

  /** Building the whole tree in one growing array. */
  method BuildMerkleTree(hash: (Hash, Hash) -> Hash, vtx: seq<Hash>) returns (tree: seq<Hash>, root: Hash)
    ensures tree == Flat(hash, vtx)
    ensures root == Root(hash, vtx)
  {
    tree := vtx;
    var j: nat, nSize: nat := 0, |vtx|;
    GrowingStarts(hash, vtx);
    while nSize > 1
      invariant Growing(hash, tree, j, nSize, vtx)
      decreases nSize
    {
      FlatGrows(hash, tree, j, nSize, vtx);
      tree := AppendRow(hash, tree, j, nSize);
      j := j + nSize;
      nSize := (nSize + 1) / 2;
    }
    GrowingEnds(hash, tree, j, nSize, vtx);
    root := if tree == [] then ZERO else tree[|tree| - 1];
  }

  /** The rows so far, completed from the last of them on, are the whole tree. */
  ghost predicate Growing(hash: (Hash, Hash) -> Hash, tree: seq<Hash>, j: nat, nSize: nat, vtx: seq<Hash>) {
    j + nSize == |tree| && tree[..j] + Flat(hash, tree[j..]) == Flat(hash, vtx)
  }

  lemma GrowingStarts(hash: (Hash, Hash) -> Hash, vtx: seq<Hash>)
    ensures Growing(hash, vtx, 0, |vtx|, vtx)
  {
    assert vtx[0..] == vtx && vtx[..0] + Flat(hash, vtx) == Flat(hash, vtx);
  }

  lemma GrowingEnds(hash: (Hash, Hash) -> Hash, tree: seq<Hash>, j: nat, nSize: nat, vtx: seq<Hash>)
    requires Growing(hash, tree, j, nSize, vtx) && nSize <= 1
    ensures tree == Flat(hash, vtx)
    ensures (if tree == [] then ZERO else tree[|tree| - 1]) == Root(hash, vtx)
  {
    assert Flat(hash, tree[j..]) == tree[j..] && tree[..j] + tree[j..] == tree;
    FlatRoot(hash, vtx);
  }

  /** Appending the next row leaves the tree that is being built the same. */
  lemma FlatGrows(hash: (Hash, Hash) -> Hash, tree: seq<Hash>, j: nat, nSize: nat, vtx: seq<Hash>)
    requires Growing(hash, tree, j, nSize, vtx) && nSize > 1
    ensures Growing(hash, tree + NextRow(hash, tree[j..]), j + nSize, (nSize + 1) / 2, vtx)
  {
    var row, next := tree[j..], NextRow(hash, tree[j..]);
    assert (tree + next)[|tree|..] == next && (tree + next)[..|tree|] == tree;
    FlatStep(hash, row);
    Regroup(tree, j, Flat(hash, next));
  }

  lemma FlatStep(hash: (Hash, Hash) -> Hash, row: seq<Hash>)
    requires |row| > 1
    ensures Flat(hash, row) == row + Flat(hash, NextRow(hash, row))
  {
  }

  lemma Regroup(s: seq<Hash>, j: nat, t: seq<Hash>)
    requires j <= |s|
    ensures s + t == s[..j] + (s[j..] + t)
  {
  }

  lemma FlatRoot(hash: (Hash, Hash) -> Hash, vtx: seq<Hash>)
    ensures var tree := Flat(hash, vtx);
            (tree == [] <==> vtx == []) && (if tree == [] then ZERO else tree[|tree| - 1]) == Root(hash, vtx)
  {
    if vtx != [] {
      FlatEndsInTop(hash, vtx);
      TopOfRow(hash, vtx, 0);
    }
  }

  // ---------------------------------------------------------------- branches

  /** The position beside idx in its pair. */
  function Sibling(idx: nat): nat { if idx % 2 == 0 then idx + 1 else idx - 1 }

  /** The siblings met on the way from a position of this row to the root. */
  function Branch(hash: (Hash, Hash) -> Hash, row: seq<Hash>, idx: nat): seq<Hash>
    requires idx < |row|
    decreases |row|
  {
    if |row| <= 1 then []
    else [row[Min(Sibling(idx), |row| - 1)]] + Branch(hash, NextRow(hash, row), idx / 2)
  }

  /** What a leaf hashes to along a branch. */
  function Climb(hash: (Hash, Hash) -> Hash, leaf: Hash, branch: seq<Hash>, idx: int): Hash
    decreases |branch|
  {
    if branch == [] then leaf
    else Climb(hash, if idx % 2 == 1 then hash(branch[0], leaf) else hash(leaf, branch[0]), branch[1..], idx / 2)
  }

  lemma {:induction false} ClimbReachesTop(hash: (Hash, Hash) -> Hash, row: seq<Hash>, idx: nat)
    requires idx < |row|
    ensures Climb(hash, row[idx], Branch(hash, row, idx), idx) == Top(hash, row)
    decreases |row|
  {
    if |row| > 1 {
      var next, branch := NextRow(hash, row), Branch(hash, row, idx);
      ClimbReachesTop(hash, next, idx / 2);
      assert branch[1..] == Branch(hash, next, idx / 2);
      PairHash(hash, row, idx);
    }
  }

  /** Hashing with the sibling gives the parent, on either side and at an odd end. */
  lemma PairHash(hash: (Hash, Hash) -> Hash, row: seq<Hash>, idx: nat)
    requires idx < |row| && |row| > 1
    ensures var other := row[Min(Sibling(idx), |row| - 1)];
            NextRow(hash, row)[idx / 2] == if idx % 2 == 1 then hash(other, row[idx]) else hash(row[idx], other)
  {
    assert NextRow(hash, row)[idx / 2] == Parent(hash, row, idx / 2);
  }

  /** Reading a branch off the flat array. */
  method GetMerkleBranch(hash: (Hash, Hash) -> Hash, vtx: seq<Hash>, tree: seq<Hash>, index: nat) returns (branch: seq<Hash>)
    requires tree == Flat(hash, vtx) && index < |vtx|
    ensures branch == Branch(hash, vtx, index)
  {
    branch := [];
    var j: nat, nIndex: nat, nSize: nat := 0, index, |vtx|;
    ghost var row := vtx;
    while nSize > 1
      invariant nSize == |row| && nIndex < |row| && j + |row| <= |tree|
      invariant tree[j..] == Flat(hash, row)
      invariant branch + Branch(hash, row, nIndex) == Branch(hash, vtx, index)
      decreases nSize
    {
      var i := Min(Sibling(nIndex), nSize - 1);
      FlatRows(hash, row, tree, j, i);
      BranchStep(hash, row, nIndex, branch);
      branch := branch + [tree[j + i]];
      nIndex := nIndex / 2;
      j := j + nSize;
      nSize := (nSize + 1) / 2;
      row := NextRow(hash, row);
    }
  }

  lemma BranchStep(hash: (Hash, Hash) -> Hash, row: seq<Hash>, nIndex: nat, branch: seq<Hash>)
    requires |row| > 1 && nIndex < |row|
    ensures nIndex / 2 < |NextRow(hash, row)|
    ensures branch + [row[Min(Sibling(nIndex), |row| - 1)]] + Branch(hash, NextRow(hash, row), nIndex / 2) ==
            branch + Branch(hash, row, nIndex)
  {
    var x, rest := row[Min(Sibling(nIndex), |row| - 1)], Branch(hash, NextRow(hash, row), nIndex / 2);
    assert Branch(hash, row, nIndex) == [x] + rest;
    assert branch + [x] + rest == branch + ([x] + rest);
  }

  lemma FlatRows(hash: (Hash, Hash) -> Hash, row: seq<Hash>, tree: seq<Hash>, j: nat, i: nat)
    requires |row| > 1 && i < |row| && j + |row| <= |tree| && tree[j..] == Flat(hash, row)
    ensures tree[j + i] == row[i]
    ensures tree[j + |row|..] == Flat(hash, NextRow(hash, row))
    ensures j + |row| + |NextRow(hash, row)| <= |tree|
  {
    assert tree[j..][i] == row[i];
    assert tree[j + |row|..] == tree[j..][|row|..];
  }

  /** Climbing a branch; an index of -1 stands for no branch. Shifting a negative index rounds down, as / 2 does. */
  method CheckMerkleBranch(hash: (Hash, Hash) -> Hash, leaf: Hash, branch: seq<Hash>, index: int) returns (r: Hash)
    ensures r == if index == -1 then ZERO else Climb(hash, leaf, branch, index)
  {
    if index == -1 { return ZERO; }
    r := leaf;
    var k, nIndex := 0, index;
    while k < |branch|
      invariant k <= |branch|
      invariant Climb(hash, r, branch[k..], nIndex) == Climb(hash, leaf, branch, index)
    {
      assert branch[k..][1..] == branch[k + 1..];
      if nIndex % 2 == 1 {
        r := hash(branch[k], r);
      } else {
        r := hash(r, branch[k]);
      }
      nIndex := nIndex / 2;
      k := k + 1;
    }
  }

  /** For every leaf, the branch read off the tree leads from the leaf to the root. */
  lemma BranchProvesLeaf(hash: (Hash, Hash) -> Hash, vtx: seq<Hash>, index: nat)
    requires index < |vtx|
    ensures Climb(hash, vtx[index], Branch(hash, vtx, index), index) == Root(hash, vtx)
  {
    ClimbReachesTop(hash, vtx, index);
    TopOfRow(hash, vtx, 0);
  }

  /** The pairs hashed while climbing. */
  ghost function ClimbPairs(hash: (Hash, Hash) -> Hash, leaf: Hash, branch: seq<Hash>, idx: int): set<(Hash, Hash)>
    decreases |branch|
  {
    if branch == [] then {}
    else
      var pair := if idx % 2 == 1 then (branch[0], leaf) else (leaf, branch[0]);
      {pair} + ClimbPairs(hash, hash(pair.0, pair.1), branch[1..], idx / 2)
  }

  /** No pair of one set collides with a different pair of the other. */
  ghost predicate CollisionFree(hash: (Hash, Hash) -> Hash, ps: set<(Hash, Hash)>, qs: set<(Hash, Hash)>) {
    forall p, q :: p in ps && q in qs && hash(p.0, p.1) == hash(q.0, q.1) ==> p == q
  }

  /** Two branches of equal length for the same position that reach the same value prove the same leaf,
      unless two of the pairs hashed on the way collide. */
  lemma {:induction false} BranchSound(hash: (Hash, Hash) -> Hash, leaf: Hash, branch: seq<Hash>, leaf': Hash, branch': seq<Hash>, idx: int)
    requires |branch| == |branch'|
    requires Climb(hash, leaf, branch, idx) == Climb(hash, leaf', branch', idx)
    requires CollisionFree(hash, ClimbPairs(hash, leaf, branch, idx), ClimbPairs(hash, leaf', branch', idx))
    ensures leaf == leaf' && branch == branch'
    decreases |branch|
  {
    if branch != [] {
      var p := if idx % 2 == 1 then (branch[0], leaf) else (leaf, branch[0]);
      var q := if idx % 2 == 1 then (branch'[0], leaf') else (leaf', branch'[0]);
      assert p in ClimbPairs(hash, leaf, branch, idx) && q in ClimbPairs(hash, leaf', branch', idx);
      BranchSound(hash, hash(p.0, p.1), branch[1..], hash(q.0, q.1), branch'[1..], idx / 2);
      assert branch == [branch[0]] + branch[1..] && branch' == [branch'[0]] + branch'[1..];
    }
  }
}
