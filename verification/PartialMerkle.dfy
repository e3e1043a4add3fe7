/** Partial Merkle trees: the part of a Merkle tree that proves some of its leaves, written as flag
    bits and hashes in depth-first order. */
module PartialMerkle {
  import opened Merkle

  type Combine = (Hash, Hash) -> Hash

  // ---------------------------------------------------------------- the tree below a node

  /** The shape of the tree below a node: where a row has an odd end, the last node of the row above has one child. */
  datatype Tree = Leaf(at: nat) | Single(child: Tree) | Pair(left: Tree, right: Tree)

  predicate HasRight(n: nat, height: nat, pos: nat)
    requires height > 0
  {
    2 * pos + 1 < Width(n, height - 1)
  }

  lemma Doubled(w: nat, pos: nat)
    ensures pos < (w + 1) / 2 <==> 2 * pos < w
    ensures pos + 1 < (w + 1) / 2 <==> 2 * pos + 2 < w
    ensures pos + 1 == (w + 1) / 2 <==> w == 2 * pos + 1 || w == 2 * pos + 2
  {
  }

  function TreeAt(n: nat, height: nat, pos: nat): Tree
    requires pos < Width(n, height)
  {
    if height == 0 then Leaf(pos)
    else
      Doubled(Width(n, height - 1), pos);
      if HasRight(n, height, pos) then Pair(TreeAt(n, height - 1, 2 * pos), TreeAt(n, height - 1, 2 * pos + 1))
      else Single(TreeAt(n, height - 1, 2 * pos))
  }

  /** The first leaf of a tree, and the one after its last. */
  function First(t: Tree): nat {
    match t
    case Leaf(i) => i
    case Single(c) => First(c)
    case Pair(l, _) => First(l)
  }

  function End(t: Tree): nat {
    match t
    case Leaf(i) => i + 1
    case Single(c) => End(c)
    case Pair(_, r) => End(r)
  }

  /** The leaves are consecutive places of a list of n. */
  predicate Fits(t: Tree, n: nat) {
    match t
    case Leaf(i) => i < n
    case Single(c) => Fits(c, n)
    case Pair(l, r) => Fits(l, n) && Fits(r, n) && End(l) == First(r)
  }

  /** Neighbouring nodes have neighbouring leaves. */
  lemma {:induction false} TreesMeet(n: nat, height: nat, pos: nat)
    requires pos + 1 < Width(n, height)
    ensures End(TreeAt(n, height, pos)) == First(TreeAt(n, height, pos + 1))
  {
    if height > 0 {
      Doubled(Width(n, height - 1), pos);
      Doubled(Width(n, height - 1), pos + 1);
      TreesMeet(n, height - 1, 2 * pos + 1);
    }
  }

  /** The last node has the last leaf. */
  lemma {:induction false} TreesEnd(n: nat, height: nat, pos: nat)
    requires pos + 1 == Width(n, height)
    ensures End(TreeAt(n, height, pos)) == n
  {
    if height > 0 {
      Doubled(Width(n, height - 1), pos);
      TreesEnd(n, height - 1, if HasRight(n, height, pos) then 2 * pos + 1 else 2 * pos);
    }
  }

  lemma {:induction false} TreeFits(n: nat, height: nat, pos: nat)
    requires pos < Width(n, height)
    ensures Fits(TreeAt(n, height, pos), n)
  {
    if height > 0 {
      Doubled(Width(n, height - 1), pos);
      TreeFits(n, height - 1, 2 * pos);
      if HasRight(n, height, pos) {
        TreeFits(n, height - 1, 2 * pos + 1);
        TreesMeet(n, height - 1, 2 * pos);
      }
    }
  }

  lemma {:induction false} FitsBounds(t: Tree, n: nat)
    requires Fits(t, n)
    ensures First(t) < End(t) <= n
  {
    match t
    case Leaf(_) =>
    case Single(c) => FitsBounds(c, n);
    case Pair(l, r) => FitsBounds(l, n); FitsBounds(r, n);
  }

  lemma {:induction false} FirstExact(n: nat, height: nat, pos: nat)
    requires pos < Width(n, height)
    ensures First(TreeAt(n, height, pos)) == pos * Span(height)
  {
    if height > 0 {
      Doubled(Width(n, height - 1), pos);
      FirstExact(n, height - 1, 2 * pos);
      assert 2 * pos * Span(height - 1) == pos * Span(height);
    }
  }

  /** The leaves below a node run from pos * 2^height to (pos + 1) * 2^height or the end of the list. */
  lemma TreeRange(n: nat, height: nat, pos: nat)
    requires pos < Width(n, height)
    ensures First(TreeAt(n, height, pos)) == pos * Span(height)
    ensures End(TreeAt(n, height, pos)) == Min((pos + 1) * Span(height), n)
  {
    FirstExact(n, height, pos);
    WidthCovers(n, height, pos + 1);
    if pos + 1 < Width(n, height) {
      TreesMeet(n, height, pos);
      FirstExact(n, height, pos + 1);
    } else {
      TreesEnd(n, height, pos);
    }
  }

  // ---------------------------------------------------------------- hashes and matches of a tree

  function TreeHash(combine: Combine, leaves: seq<Hash>, t: Tree): Hash
    requires Fits(t, |leaves|)
  {
    match t
    case Leaf(i) => leaves[i]
    case Single(c) => combine(TreeHash(combine, leaves, c), TreeHash(combine, leaves, c))
    case Pair(l, r) => combine(TreeHash(combine, leaves, l), TreeHash(combine, leaves, r))
  }

  lemma {:induction false} TreeHashIsCalcHash(combine: Combine, leaves: seq<Hash>, height: nat, pos: nat)
    requires pos < Width(|leaves|, height)
    ensures Fits(TreeAt(|leaves|, height, pos), |leaves|)
    ensures TreeHash(combine, leaves, TreeAt(|leaves|, height, pos)) == CalcHash(combine, leaves, height, pos)
  {
    TreeFits(|leaves|, height, pos);
    if height > 0 {
      Doubled(Width(|leaves|, height - 1), pos);
      TreeHashIsCalcHash(combine, leaves, height - 1, 2 * pos);
      if HasRight(|leaves|, height, pos) {
        TreeHashIsCalcHash(combine, leaves, height - 1, 2 * pos + 1);
      }
    }
  }

  /** Whether any leaf of the tree is selected by the mask. */
  predicate Parental(mask: seq<bool>, t: Tree)
    requires Fits(t, |mask|)
  {
    match t
    case Leaf(i) => mask[i]
    case Single(c) => Parental(mask, c)
    case Pair(l, r) => Parental(mask, l) || Parental(mask, r)
  }

  predicate AnyMatch(mask: seq<bool>, lo: nat, hi: nat)
    requires hi <= |mask|
  {
    exists p :: lo <= p < hi && mask[p]
  }

  lemma {:induction false} ParentalExact(mask: seq<bool>, t: Tree)
    requires Fits(t, |mask|)
    ensures End(t) <= |mask| && (Parental(mask, t) <==> AnyMatch(mask, First(t), End(t)))
  {
    FitsBounds(t, |mask|);
    match t
    case Leaf(_) =>
    case Single(c) => ParentalExact(mask, c);
    case Pair(l, r) =>
      ParentalExact(mask, l);
      ParentalExact(mask, r);
      FitsBounds(l, |mask|);
      FitsBounds(r, |mask|);
  }

  /** The selected leaves of a tree, in order. */
  function Matched(leaves: seq<Hash>, mask: seq<bool>, t: Tree): seq<Hash>
    requires |mask| == |leaves| && Fits(t, |mask|)
  {
    match t
    case Leaf(i) => if mask[i] then [leaves[i]] else []
    case Single(c) => Matched(leaves, mask, c)
    case Pair(l, r) => Matched(leaves, mask, l) + Matched(leaves, mask, r)
  }

  /** The leaves in [lo, hi) that the mask selects, in order. */
  function Filter(leaves: seq<Hash>, mask: seq<bool>, lo: nat, hi: nat): (r: seq<Hash>)
    requires hi <= |leaves| == |mask|
    decreases hi
  {
    if lo >= hi then [] else Filter(leaves, mask, lo, hi - 1) + if mask[hi - 1] then [leaves[hi - 1]] else []
  }

  lemma {:induction false} FilterSplit(leaves: seq<Hash>, mask: seq<bool>, lo: nat, mid: nat, hi: nat)
    requires lo <= mid <= hi <= |leaves| == |mask|
    ensures Filter(leaves, mask, lo, hi) == Filter(leaves, mask, lo, mid) + Filter(leaves, mask, mid, hi)
    decreases hi
  {
    if mid < hi {
      FilterSplit(leaves, mask, lo, mid, hi - 1);
    }
  }

  lemma {:induction false} MatchedExact(leaves: seq<Hash>, mask: seq<bool>, t: Tree)
    requires |mask| == |leaves| && Fits(t, |mask|)
    ensures End(t) <= |leaves| && Matched(leaves, mask, t) == Filter(leaves, mask, First(t), End(t))
  {
    FitsBounds(t, |mask|);
    match t
    case Leaf(i) =>
      assert Filter(leaves, mask, i, i) == [];
    case Single(c) => MatchedExact(leaves, mask, c);
    case Pair(l, r) =>
      MatchedExact(leaves, mask, l);
      MatchedExact(leaves, mask, r);
      FitsBounds(l, |mask|);
      FitsBounds(r, |mask|);
      FilterSplit(leaves, mask, First(l), First(r), End(r));
  }

  lemma {:induction false} NoMatch(leaves: seq<Hash>, mask: seq<bool>, t: Tree)
    requires |mask| == |leaves| && Fits(t, |mask|)
    ensures Parental(mask, t) <==> Matched(leaves, mask, t) != []
  {
    match t
    case Leaf(_) =>
    case Single(c) => NoMatch(leaves, mask, c);
    case Pair(l, r) => NoMatch(leaves, mask, l); NoMatch(leaves, mask, r);
  }

  // ---------------------------------------------------------------- what is written

  function Bits(mask: seq<bool>, t: Tree): (bits: seq<bool>)
    requires Fits(t, |mask|)
    ensures |bits| >= 1 && bits[0] == Parental(mask, t)
  {
    if t.Leaf? || !Parental(mask, t) then [Parental(mask, t)]
    else match t
      case Single(c) => [true] + Bits(mask, c)
      case Pair(l, r) => [true] + (Bits(mask, l) + Bits(mask, r))
  }

  function Hashes(combine: Combine, leaves: seq<Hash>, mask: seq<bool>, t: Tree): (hashes: seq<Hash>)
    requires |mask| == |leaves| && Fits(t, |mask|)
  {
    if t.Leaf? || !Parental(mask, t) then [TreeHash(combine, leaves, t)]
    else match t
      case Single(c) => Hashes(combine, leaves, mask, c)
      case Pair(l, r) => Hashes(combine, leaves, mask, l) + Hashes(combine, leaves, mask, r)
  }

  // ---------------------------------------------------------------- what is read

  datatype Extraction = Extraction(bad: bool, hash: Hash, nBits: nat, nHashes: nat, matches: seq<Hash>)

  /** Reading one node, from bit nb and hash nh on. */
  function Extract(combine: Combine, bits: seq<bool>, hashes: seq<Hash>, t: Tree, nb: nat, nh: nat): Extraction
    decreases t, 1
  {
    if nb >= |bits| then Extraction(true, ZERO, nb, nh, [])
    else if t.Leaf? || !bits[nb] then
      if nh >= |hashes| then Extraction(true, ZERO, nb + 1, nh, [])
      else Extraction(false, hashes[nh], nb + 1, nh + 1, if t.Leaf? && bits[nb] then [hashes[nh]] else [])
    else Below(combine, bits, hashes, t, nb + 1, nh)
  }

  /** Reading the children of a node and combining their hashes, a single one with itself. */
  function Below(combine: Combine, bits: seq<bool>, hashes: seq<Hash>, t: Tree, nb: nat, nh: nat): Extraction
    requires !t.Leaf?
    decreases t, 0
  {
    match t
    case Single(c) =>
      var x := Extract(combine, bits, hashes, c, nb, nh);
      x.(hash := combine(x.hash, x.hash))
    case Pair(l, r) =>
      var x := Extract(combine, bits, hashes, l, nb, nh);
      var y := Extract(combine, bits, hashes, r, x.nBits, x.nHashes);
      Extraction(x.bad || y.bad, combine(x.hash, y.hash), y.nBits, y.nHashes, x.matches + y.matches)
  }

  /** t stands in s from place i on. */
  ghost predicate At<T>(s: seq<T>, i: nat, t: seq<T>) {
    i + |t| <= |s| && s[i..i + |t|] == t
  }

  lemma AtSplit<T>(s: seq<T>, i: nat, a: seq<T>, b: seq<T>)
    requires At(s, i, a + b)
    ensures At(s, i, a) && At(s, i + |a|, b)
  {
    assert s[i..i + |a|] == (a + b)[..|a|];
    assert s[i + |a|..i + |a| + |b|] == (a + b)[|a|..];
  }

  lemma AtHead<T>(s: seq<T>, i: nat, t: seq<T>)
    requires At(s, i, t) && |t| > 0
    ensures i < |s| && s[i] == t[0]
  {
    assert s[i..i + |t|][0] == s[i];
  }

  /** What a node written at bit nb and hash nh should read back as. */
  function Expected(combine: Combine, leaves: seq<Hash>, mask: seq<bool>, t: Tree, nb: nat, nh: nat): Extraction
    requires |mask| == |leaves| && Fits(t, |mask|)
  {
    Extraction(false, TreeHash(combine, leaves, t), nb + |Bits(mask, t)|, nh + |Hashes(combine, leaves, mask, t)|,
               Matched(leaves, mask, t))
  }

  /** A node reads back where it was written: its hash, its selected leaves, and nothing of what follows. */
  lemma {:induction false} ExtractBuilt(combine: Combine, leaves: seq<Hash>, mask: seq<bool>, t: Tree,
                                        bits: seq<bool>, hashes: seq<Hash>, nb: nat, nh: nat)
    requires |mask| == |leaves| && Fits(t, |mask|)
    requires At(bits, nb, Bits(mask, t)) && At(hashes, nh, Hashes(combine, leaves, mask, t))
    ensures Extract(combine, bits, hashes, t, nb, nh) == Expected(combine, leaves, mask, t, nb, nh)
  {
    AtHead(bits, nb, Bits(mask, t));
    if t.Leaf? || !Parental(mask, t) {
      AtHead(hashes, nh, Hashes(combine, leaves, mask, t));
      NoMatch(leaves, mask, t);
    } else {
      match t
      case Single(c) =>
        AtSplit(bits, nb, [true], Bits(mask, c));
        ExtractBuilt(combine, leaves, mask, c, bits, hashes, nb + 1, nh);
      case Pair(l, r) =>
        AtAfter(bits, nb, Bits(mask, l), Bits(mask, r));
        AtSplit(hashes, nh, Hashes(combine, leaves, mask, l), Hashes(combine, leaves, mask, r));
        ExtractBuilt(combine, leaves, mask, l, bits, hashes, nb + 1, nh);
        var x := Expected(combine, leaves, mask, l, nb + 1, nh);
        ExtractBuilt(combine, leaves, mask, r, bits, hashes, x.nBits, x.nHashes);
    }
  }

  lemma AtAfter(s: seq<bool>, i: nat, a: seq<bool>, b: seq<bool>)
    requires At(s, i, [true] + (a + b))
    ensures At(s, i + 1, a) && At(s, i + 1 + |a|, b)
  {
    AtSplit(s, i, [true], a + b);
    AtSplit(s, i + 1, a, b);
  }

  // ---------------------------------------------------------------- the size of what is written

  function TreeHeight(t: Tree): nat {
    match t
    case Leaf(_) => 0
    case Single(c) => 1 + TreeHeight(c)
    case Pair(l, r) => 1 + if TreeHeight(l) < TreeHeight(r) then TreeHeight(r) else TreeHeight(l)
  }

  lemma {:induction false} TreeAtHeight(n: nat, height: nat, pos: nat)
    requires pos < Width(n, height)
    ensures TreeHeight(TreeAt(n, height, pos)) == height
  {
    if height > 0 {
      Doubled(Width(n, height - 1), pos);
      TreeAtHeight(n, height - 1, 2 * pos);
      if HasRight(n, height, pos) {
        TreeAtHeight(n, height - 1, 2 * pos + 1);
      }
    }
  }

  /** No more hashes than leaves, and at most one more than a path for each match. */
  lemma {:induction false} HashesBounded(combine: Combine, leaves: seq<Hash>, mask: seq<bool>, t: Tree)
    requires |mask| == |leaves| && Fits(t, |mask|)
    ensures |Hashes(combine, leaves, mask, t)| <= End(t) - First(t)
    ensures |Hashes(combine, leaves, mask, t)| <= 1 + |Matched(leaves, mask, t)| * TreeHeight(t)
  {
    FitsBounds(t, |mask|);
    if !t.Leaf? && Parental(mask, t) {
      NoMatch(leaves, mask, t);
      match t
      case Single(c) =>
        HashesBounded(combine, leaves, mask, c);
        MulMonotone(|Matched(leaves, mask, c)|, TreeHeight(c), TreeHeight(t));
      case Pair(l, r) =>
        HashesBounded(combine, leaves, mask, l);
        HashesBounded(combine, leaves, mask, r);
        PathsAdd(|Matched(leaves, mask, l)|, |Matched(leaves, mask, r)|, TreeHeight(l), TreeHeight(r), TreeHeight(t));
    } else {
      assert |Hashes(combine, leaves, mask, t)| == 1;
      assert |Matched(leaves, mask, t)| * TreeHeight(t) >= 0;
    }
  }

  lemma MulMonotone(m: nat, a: nat, b: nat)
    requires a <= b
    ensures m * a <= m * b
  {
  }

  lemma PathsAdd(m: nat, k: nat, a: nat, b: nat, h: nat)
    requires a + 1 <= h && b + 1 <= h && m + k > 0
    ensures 1 + m * a + (1 + k * b) <= 1 + (m + k) * h
  {
    MulMonotone(m, a, h - 1);
    MulMonotone(k, b, h - 1);
    assert (m + k) * h == m * (h - 1) + k * (h - 1) + (m + k);
  }

  /** The number of nodes that are descended into and have a single child. */
  function Lone(mask: seq<bool>, t: Tree): nat
    requires Fits(t, |mask|)
  {
    if t.Leaf? || !Parental(mask, t) then 0
    else match t
      case Single(c) => 1 + Lone(mask, c)
      case Pair(l, r) => Lone(mask, l) + Lone(mask, r)
  }

  /** Flag bits exceed the 2N - 1 for N hashes by exactly one for each such node. */
  lemma {:induction false} BitsExact(combine: Combine, leaves: seq<Hash>, mask: seq<bool>, t: Tree)
    requires |mask| == |leaves| && Fits(t, |mask|)
    ensures |Bits(mask, t)| == 2 * |Hashes(combine, leaves, mask, t)| - 1 + Lone(mask, t)
  {
    if !t.Leaf? && Parental(mask, t) {
      match t
      case Single(c) => BitsExact(combine, leaves, mask, c);
      case Pair(l, r) =>
        BitsExact(combine, leaves, mask, l);
        BitsExact(combine, leaves, mask, r);
    }
  }

  /** Away from the right edge of the tree every node has two children. */
  lemma {:induction false} LoneInside(n: nat, mask: seq<bool>, height: nat, pos: nat)
    requires |mask| == n && pos + 1 < Width(n, height)
    ensures Fits(TreeAt(n, height, pos), n) && Lone(mask, TreeAt(n, height, pos)) == 0
  {
    TreeFits(n, height, pos);
    if height > 0 {
      Doubled(Width(n, height - 1), pos);
      LoneInside(n, mask, height - 1, 2 * pos);
      LoneInside(n, mask, height - 1, 2 * pos + 1);
    }
  }

  /** The row below the last node of this row has an odd end, and a match below it. */
  predicate LoneAt(n: nat, mask: seq<bool>, height: nat)
    requires |mask| == n && height > 0 && Width(n, height) > 0
  {
    var t := TreeAt(n, height, Width(n, height) - 1);
    Width(n, height - 1) % 2 == 1 && Fits(t, n) && Parental(mask, t)
  }

  lemma {:induction false} WidthPositive(n: nat, height: nat)
    ensures Width(n, height) > 0 <==> n > 0
  {
    if height > 0 {
      WidthPositive(n, height - 1);
    }
  }

  /** No row up to this height is of that kind. */
  predicate NoLone(n: nat, mask: seq<bool>, height: nat)
    requires |mask| == n && n > 0
  {
    height == 0 || (NoLone(n, mask, height - 1) && (Width(n, height) > 0 ==> !LoneAt(n, mask, height)))
  }

  /** What is below the last node of a row is below the last node of the row above. */
  lemma EdgeBelow(n: nat, mask: seq<bool>, height: nat)
    requires |mask| == n && n > 0 && height > 0
    ensures Width(n, height) > 0 && Width(n, height - 1) > 0
    ensures Fits(TreeAt(n, height, Width(n, height) - 1), n) && Fits(TreeAt(n, height - 1, Width(n, height - 1) - 1), n)
    ensures var t, c := TreeAt(n, height, Width(n, height) - 1), TreeAt(n, height - 1, Width(n, height - 1) - 1);
            && (if Width(n, height - 1) % 2 == 1 then t == Single(c) else t.Pair? && t.right == c && Lone(mask, t.left) == 0)
            && (Parental(mask, c) ==> Parental(mask, t))
  {
    WidthPositive(n, height);
    WidthPositive(n, height - 1);
    var pos, w := Width(n, height) - 1, Width(n, height - 1);
    TreeFits(n, height, pos);
    TreeFits(n, height - 1, w - 1);
    Doubled(w, pos);
    if w % 2 == 0 {
      LoneInside(n, mask, height - 1, 2 * pos);
    }
  }

  lemma {:induction false} EdgeQuiet(n: nat, mask: seq<bool>, height: nat)
    requires |mask| == n && n > 0
    requires Width(n, height) > 0 && Fits(TreeAt(n, height, Width(n, height) - 1), n)
    requires !Parental(mask, TreeAt(n, height, Width(n, height) - 1))
    ensures NoLone(n, mask, height)
  {
    if height > 0 {
      EdgeBelow(n, mask, height);
      EdgeQuiet(n, mask, height - 1);
    }
  }

  lemma {:induction false} LoneExact(n: nat, mask: seq<bool>, height: nat)
    requires |mask| == n && n > 0
    ensures Width(n, height) > 0 && Fits(TreeAt(n, height, Width(n, height) - 1), n)
    ensures Lone(mask, TreeAt(n, height, Width(n, height) - 1)) == 0 <==> NoLone(n, mask, height)
  {
    WidthPositive(n, height);
    TreeFits(n, height, Width(n, height) - 1);
    if height > 0 {
      EdgeBelow(n, mask, height);
      LoneExact(n, mask, height - 1);
      if !Parental(mask, TreeAt(n, height, Width(n, height) - 1)) {
        EdgeQuiet(n, mask, height);
      }
    }
  }

  /** The documented bound of 2N - 1 flag bits for N hashes holds exactly when no row with an odd
      end has a match below that end. */
  lemma BitsWithinBound(combine: Combine, leaves: seq<Hash>, mask: seq<bool>)
    requires |mask| == |leaves| > 0
    ensures Width(|leaves|, Height(|leaves|)) == 1 && Fits(TreeAt(|leaves|, Height(|leaves|), 0), |leaves|)
    ensures var t := TreeAt(|leaves|, Height(|leaves|), 0);
            |Bits(mask, t)| <= 2 * |Hashes(combine, leaves, mask, t)| - 1 <==> NoLone(|leaves|, mask, Height(|leaves|))
  {
    var n := |leaves|;
    RootExists(n);
    LoneExact(n, mask, Height(n));
    BitsExact(combine, leaves, mask, TreeAt(n, Height(n), 0));
  }

  /** Three leaves with the last one matched take four bits for two hashes. */
  lemma BitsBeyondBound(combine: Combine, a: Hash, b: Hash, c: Hash)
    ensures Height(3) == 2 && Width(3, 2) == 1
    ensures var t, mask := TreeAt(3, 2, 0), [false, false, true];
            && Fits(t, 3)
            && |Bits(mask, t)| == 4 && |Hashes(combine, [a, b, c], mask, t)| == 2
  {
    assert Width(3, 0) == 3 && Width(3, 1) == 2 && Width(3, 2) == 1;
    var t := TreeAt(3, 2, 0);
    assert t.left == TreeAt(3, 1, 0) && t.right == TreeAt(3, 1, 1);
    assert TreeAt(3, 1, 0) == Pair(Leaf(0), Leaf(1)) && TreeAt(3, 1, 1) == Single(Leaf(2));
    var mask := [false, false, true];
    assert Bits(mask, t.left) == [false] && Bits(mask, t.right) == [true, true];
    assert |Hashes(combine, [a, b, c], mask, t.left)| == 1 && |Hashes(combine, [a, b, c], mask, t.right)| == 1;
  }

  // ---------------------------------------------------------------- nothing else can be extracted

  /** The pairs hashed when the tree is computed from its leaves. */
  ghost function TreePairs(combine: Combine, leaves: seq<Hash>, t: Tree): set<(Hash, Hash)>
    requires Fits(t, |leaves|)
  {
    match t
    case Leaf(_) => {}
    case Single(c) =>
      {(TreeHash(combine, leaves, c), TreeHash(combine, leaves, c))} + TreePairs(combine, leaves, c)
    case Pair(l, r) =>
      {(TreeHash(combine, leaves, l), TreeHash(combine, leaves, r))} + TreePairs(combine, leaves, l) + TreePairs(combine, leaves, r)
  }

  /** The pairs hashed while a node is extracted. */
  ghost function ExtractPairs(combine: Combine, bits: seq<bool>, hashes: seq<Hash>, t: Tree, nb: nat, nh: nat): set<(Hash, Hash)> {
    if nb >= |bits| || t.Leaf? || !bits[nb] then {}
    else
      match t
      case Single(c) =>
        var x := Extract(combine, bits, hashes, c, nb + 1, nh);
        {(x.hash, x.hash)} + ExtractPairs(combine, bits, hashes, c, nb + 1, nh)
      case Pair(l, r) =>
        var x := Extract(combine, bits, hashes, l, nb + 1, nh);
        var y := Extract(combine, bits, hashes, r, x.nBits, x.nHashes);
        {(x.hash, y.hash)} + ExtractPairs(combine, bits, hashes, l, nb + 1, nh)
        + ExtractPairs(combine, bits, hashes, r, x.nBits, x.nHashes)
  }

  /** Which leaves an extraction claims to have matched. */
  ghost function Claimed(combine: Combine, bits: seq<bool>, hashes: seq<Hash>, t: Tree, nb: nat, nh: nat): set<nat> {
    if nb >= |bits| then {}
    else match t
      case Leaf(i) => if bits[nb] then {i} else {}
      case Single(c) => if bits[nb] then Claimed(combine, bits, hashes, c, nb + 1, nh) else {}
      case Pair(l, r) =>
        if !bits[nb] then {}
        else
          var x := Extract(combine, bits, hashes, l, nb + 1, nh);
          Claimed(combine, bits, hashes, l, nb + 1, nh) + Claimed(combine, bits, hashes, r, x.nBits, x.nHashes)
  }

  ghost function MaskOf(n: nat, claimed: set<nat>): (mask: seq<bool>) {
    seq(n, i requires 0 <= i < n => i in claimed)
  }

  lemma {:induction false} ClaimedInside(combine: Combine, bits: seq<bool>, hashes: seq<Hash>, t: Tree, n: nat, nb: nat, nh: nat)
    requires Fits(t, n)
    ensures forall i :: i in Claimed(combine, bits, hashes, t, nb, nh) ==> First(t) <= i < End(t)
  {
    FitsBounds(t, n);
    if nb < |bits| {
      match t
      case Leaf(_) =>
      case Single(c) => ClaimedInside(combine, bits, hashes, c, n, nb + 1, nh);
      case Pair(l, r) =>
        var x := Extract(combine, bits, hashes, l, nb + 1, nh);
        FitsBounds(l, n);
        FitsBounds(r, n);
        ClaimedInside(combine, bits, hashes, l, n, nb + 1, nh);
        ClaimedInside(combine, bits, hashes, r, n, x.nBits, x.nHashes);
    }
  }

  /** Selecting the same leaves of a tree gives the same matches. */
  lemma {:induction false} SameMatches(leaves: seq<Hash>, mask: seq<bool>, mask': seq<bool>, t: Tree)
    requires |mask| == |mask'| == |leaves| && Fits(t, |mask|)
    requires End(t) <= |mask| && forall i :: First(t) <= i < End(t) ==> mask[i] == mask'[i]
    ensures Matched(leaves, mask, t) == Matched(leaves, mask', t)
  {
    match t
    case Leaf(_) =>
    case Single(c) => SameMatches(leaves, mask, mask', c);
    case Pair(l, r) =>
      FitsBounds(l, |mask|);
      FitsBounds(r, |mask|);
      SameMatches(leaves, mask, mask', l);
      SameMatches(leaves, mask, mask', r);
  }

  lemma {:induction false} NoneClaimed(leaves: seq<Hash>, mask: seq<bool>, t: Tree)
    requires |mask| == |leaves| && Fits(t, |mask|)
    requires End(t) <= |mask| && forall i :: First(t) <= i < End(t) ==> !mask[i]
    ensures Matched(leaves, mask, t) == []
  {
    ParentalExact(mask, t);
    NoMatch(leaves, mask, t);
  }

  /** An extraction that arrives at the true hash of a node has found true leaves of that node, in
      their order, unless it hashed a pair that collides with one of the tree's own. */
  lemma {:induction false} ExtractSound(combine: Combine, leaves: seq<Hash>, bits: seq<bool>, hashes: seq<Hash>, t: Tree, nb: nat, nh: nat)
    requires Fits(t, |leaves|)
    requires !Extract(combine, bits, hashes, t, nb, nh).bad
    requires Extract(combine, bits, hashes, t, nb, nh).hash == TreeHash(combine, leaves, t)
    requires CollisionFree(combine, TreePairs(combine, leaves, t), ExtractPairs(combine, bits, hashes, t, nb, nh))
    ensures Extract(combine, bits, hashes, t, nb, nh).matches ==
            Matched(leaves, MaskOf(|leaves|, Claimed(combine, bits, hashes, t, nb, nh)), t)
  {
    FitsBounds(t, |leaves|);
    var mask := MaskOf(|leaves|, Claimed(combine, bits, hashes, t, nb, nh));
    if t.Leaf? {
    } else if !bits[nb] {
      NoneClaimed(leaves, mask, t);
    } else {
      match t
      case Single(c) =>
        ExtractSound(combine, leaves, bits, hashes, c, nb + 1, nh);
      case Pair(l, r) =>
        PairSound(combine, leaves, bits, hashes, l, r, nb, nh);
        var x := Extract(combine, bits, hashes, l, nb + 1, nh);
        ExtractSound(combine, leaves, bits, hashes, l, nb + 1, nh);
        ExtractSound(combine, leaves, bits, hashes, r, x.nBits, x.nHashes);
        ClaimsJoin(combine, leaves, bits, hashes, l, r, nb, nh);
    }
  }

  /** Without a collision both halves arrive at their true hashes. */
  lemma PairSound(combine: Combine, leaves: seq<Hash>, bits: seq<bool>, hashes: seq<Hash>, l: Tree, r: Tree, nb: nat, nh: nat)
    requires Fits(Pair(l, r), |leaves|) && nb < |bits| && bits[nb]
    requires Extract(combine, bits, hashes, Pair(l, r), nb, nh).hash == TreeHash(combine, leaves, Pair(l, r))
    requires CollisionFree(combine, TreePairs(combine, leaves, Pair(l, r)), ExtractPairs(combine, bits, hashes, Pair(l, r), nb, nh))
    ensures var x := Extract(combine, bits, hashes, l, nb + 1, nh);
            var y := Extract(combine, bits, hashes, r, x.nBits, x.nHashes);
            && x.hash == TreeHash(combine, leaves, l) && y.hash == TreeHash(combine, leaves, r)
            && CollisionFree(combine, TreePairs(combine, leaves, l), ExtractPairs(combine, bits, hashes, l, nb + 1, nh))
            && CollisionFree(combine, TreePairs(combine, leaves, r), ExtractPairs(combine, bits, hashes, r, x.nBits, x.nHashes))
  {
    var x := Extract(combine, bits, hashes, l, nb + 1, nh);
    var y := Extract(combine, bits, hashes, r, x.nBits, x.nHashes);
    var p, q := (TreeHash(combine, leaves, l), TreeHash(combine, leaves, r)), (x.hash, y.hash);
    assert p in TreePairs(combine, leaves, Pair(l, r)) && q in ExtractPairs(combine, bits, hashes, Pair(l, r), nb, nh);
    assert combine(p.0, p.1) == combine(q.0, q.1);
  }

  /** The claims of the two halves do not disturb each other. */
  lemma ClaimsJoin(combine: Combine, leaves: seq<Hash>, bits: seq<bool>, hashes: seq<Hash>, l: Tree, r: Tree, nb: nat, nh: nat)
    requires Fits(Pair(l, r), |leaves|) && nb < |bits| && bits[nb]
    ensures var x := Extract(combine, bits, hashes, l, nb + 1, nh);
            var n := |leaves|;
            Matched(leaves, MaskOf(n, Claimed(combine, bits, hashes, Pair(l, r), nb, nh)), Pair(l, r)) ==
            Matched(leaves, MaskOf(n, Claimed(combine, bits, hashes, l, nb + 1, nh)), l) +
            Matched(leaves, MaskOf(n, Claimed(combine, bits, hashes, r, x.nBits, x.nHashes)), r)
  {
    var x, n := Extract(combine, bits, hashes, l, nb + 1, nh), |leaves|;
    var cl, cr := Claimed(combine, bits, hashes, l, nb + 1, nh), Claimed(combine, bits, hashes, r, x.nBits, x.nHashes);
    FitsBounds(l, n);
    FitsBounds(r, n);
    ClaimedInside(combine, bits, hashes, l, n, nb + 1, nh);
    ClaimedInside(combine, bits, hashes, r, n, x.nBits, x.nHashes);
    SameMatches(leaves, MaskOf(n, cl + cr), MaskOf(n, cl), l);
    SameMatches(leaves, MaskOf(n, cl + cr), MaskOf(n, cr), r);
  }
}
