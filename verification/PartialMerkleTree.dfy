/** The partial Merkle tree object: building, packing its flag bits to bytes, and extracting. */
module PartialMerkleTree {
  import opened Merkle
  import opened PartialMerkle

  // ---------------------------------------------------------------- packing bits

  /** 1 << k as a byte. */
  function Bit(k: nat): bv8 {
    if k == 0 then 1 else if k == 1 then 2 else if k == 2 then 4 else if k == 3 then 8
    else if k == 4 then 16 else if k == 5 then 32 else if k == 6 then 64 else 128
  }

  predicate HasBit(b: bv8, k: nat) { b & Bit(k) != 0 }

  /** Bit k is the one that a shift by k brings to the right end. */
  lemma BitShifted(b: bv8, k: nat)
    requires k < 8
    ensures HasBit(b, k) <==> (b >> k) & 1 == 1
  {
    if k == 0 {
    } else if k == 1 {
    } else if k == 2 {
    } else if k == 3 {
    } else if k == 4 {
    } else if k == 5 {
    } else if k == 6 {
    } else {
      assert k == 7;
    }
  }

  lemma SetBit(b: bv8, k: nat, j: nat)
    requires k < 8 && j < 8
    ensures HasBit(b | Bit(k), j) <==> HasBit(b, j) || j == k
  {
  }

  lemma NoBit(k: nat)
    ensures !HasBit(0, k)
  {
  }

  /** Bytes that hold these bits, least significant first, and nothing else. */
  ghost predicate Packs(bytes: seq<bv8>, bits: seq<bool>) {
    && |bytes| == (|bits| + 7) / 8
    && forall p :: 0 <= p < 8 * |bytes| ==> (HasBit(bytes[p / 8], p % 8) <==> p < |bits| && bits[p])
  }

  method Pack(vBits: seq<bool>) returns (vBytes: seq<bv8>)
    ensures Packs(vBytes, vBits)
  {
    vBytes := seq((|vBits| + 7) / 8, _ => 0);
    forall k: nat ensures !HasBit(0, k) { NoBit(k); }
    var p := 0;
    while p < |vBits|
      invariant p <= |vBits| && |vBytes| == (|vBits| + 7) / 8
      invariant forall q :: 0 <= q < 8 * |vBytes| ==> (HasBit(vBytes[q / 8], q % 8) <==> q < p && vBits[q])
    {
      if vBits[p] {
        ghost var before := vBytes;
        vBytes := vBytes[p / 8 := vBytes[p / 8] | Bit(p % 8)];
        forall q | 0 <= q < 8 * |vBytes| ensures HasBit(vBytes[q / 8], q % 8) <==> q < p + 1 && vBits[q] {
          SetBit(before[p / 8], p % 8, q % 8);
        }
      }
      p := p + 1;
    }
  }

  method Unpack(vBytes: seq<bv8>) returns (vBits: seq<bool>)
    ensures |vBits| == 8 * |vBytes|
    ensures forall p :: 0 <= p < |vBits| ==> (vBits[p] <==> HasBit(vBytes[p / 8], p % 8))
  {
    vBits := [];
    var p := 0;
    while p < 8 * |vBytes|
      invariant p == |vBits| <= 8 * |vBytes|
      invariant forall q :: 0 <= q < p ==> (vBits[q] <==> HasBit(vBytes[q / 8], q % 8))
    {
      vBits := vBits + [HasBit(vBytes[p / 8], p % 8)];
      p := p + 1;
    }
  }

  /** The bits as they come back: followed by less than a byte of padding. */
  ghost predicate Padded(bits: seq<bool>, bits': seq<bool>) {
    |bits'| == 8 * ((|bits| + 7) / 8) && At(bits', 0, bits)
  }

  // ---------------------------------------------------------------- accepting

  /** Everything is read without running out, and nothing but padding is left over. */
  predicate Accepts(combine: Combine, n: nat, bits: seq<bool>, hashes: seq<Hash>) {
    && n > 0 && |hashes| <= n && |bits| >= |hashes|
    && var e := Whole(combine, n, bits, hashes);
       !e.bad && (e.nBits + 7) / 8 == (|bits| + 7) / 8 && e.nHashes == |hashes|
  }

  function Whole(combine: Combine, n: nat, bits: seq<bool>, hashes: seq<Hash>): Extraction
    requires n > 0
  {
    RootExists(n);
    Extract(combine, bits, hashes, TreeAt(n, Height(n), 0), 0, 0)
  }

  ghost function LeafCount(t: Tree): nat {
    match t
    case Leaf(_) => 1
    case Single(c) => LeafCount(c)
    case Pair(l, r) => LeafCount(l) + LeafCount(r)
  }

  lemma {:induction false} LeavesBetween(t: Tree, n: nat)
    requires Fits(t, n)
    ensures LeafCount(t) == End(t) - First(t)
  {
    match t
    case Leaf(_) =>
    case Single(c) => LeavesBetween(c, n);
    case Pair(l, r) =>
      LeavesBetween(l, n);
      LeavesBetween(r, n);
  }

  /** What is read without running out: a bit for every hash, and no more hashes than leaves. */
  ghost predicate Counted(bits: seq<bool>, hashes: seq<Hash>, t: Tree, nb: nat, nh: nat, e: Extraction) {
    nb <= e.nBits <= |bits| && nh <= e.nHashes <= |hashes| && e.nHashes - nh <= e.nBits - nb && e.nHashes - nh <= LeafCount(t)
  }

  lemma {:induction false} ExtractCounts(combine: Combine, bits: seq<bool>, hashes: seq<Hash>, t: Tree, nb: nat, nh: nat)
    requires !Extract(combine, bits, hashes, t, nb, nh).bad
    ensures Counted(bits, hashes, t, nb, nh, Extract(combine, bits, hashes, t, nb, nh))
    decreases t
  {
    if !t.Leaf? && bits[nb] {
      match t
      case Single(c) =>
        ExtractCounts(combine, bits, hashes, c, nb + 1, nh);
      case Pair(l, r) =>
        var x := Extract(combine, bits, hashes, l, nb + 1, nh);
        ExtractCounts(combine, bits, hashes, l, nb + 1, nh);
        ExtractCounts(combine, bits, hashes, r, x.nBits, x.nHashes);
    } else {
      OneLeaf(t);
    }
  }

  lemma {:induction false} OneLeaf(t: Tree)
    ensures LeafCount(t) >= 1
  {
    match t
    case Leaf(_) =>
    case Single(c) => OneLeaf(c);
    case Pair(l, _) => OneLeaf(l);
  }

  /** What is read does not depend on what follows. */
  lemma {:induction false} ExtractMore(combine: Combine, bits: seq<bool>, hashes: seq<Hash>, bits': seq<bool>, hashes': seq<Hash>,
                                       t: Tree, nb: nat, nh: nat)
    requires bits <= bits' && hashes <= hashes' && !Extract(combine, bits, hashes, t, nb, nh).bad
    ensures Extract(combine, bits', hashes', t, nb, nh) == Extract(combine, bits, hashes, t, nb, nh)
    decreases t
  {
    assert bits'[nb] == bits[nb];
    if !t.Leaf? && bits[nb] {
      match t
      case Single(c) =>
        ExtractMore(combine, bits, hashes, bits', hashes', c, nb + 1, nh);
      case Pair(l, r) =>
        var x := Extract(combine, bits, hashes, l, nb + 1, nh);
        ExtractMore(combine, bits, hashes, bits', hashes', l, nb + 1, nh);
        ExtractMore(combine, bits, hashes, bits', hashes', r, x.nBits, x.nHashes);
    }
  }

  /** The two counts that are compared before reading refuse nothing that would be accepted without them. */
  lemma AcceptsExactly(combine: Combine, n: nat, bits: seq<bool>, hashes: seq<Hash>)
    requires n > 0
    ensures var e := Whole(combine, n, bits, hashes);
            Accepts(combine, n, bits, hashes) <==>
            !e.bad && |hashes| == e.nHashes && (e.nBits + 7) / 8 == (|bits| + 7) / 8
  {
    var e := Whole(combine, n, bits, hashes);
    RootExists(n);
    var t := TreeAt(n, Height(n), 0);
    if !e.bad {
      ExtractCounts(combine, bits, hashes, t, 0, 0);
      TreesEnd(n, Height(n), 0);
      FirstExact(n, Height(n), 0);
      TreeFits(n, Height(n), 0);
      LeavesBetween(t, n);
    }
  }

  /** Nothing can be appended to what is accepted: no hash at all, and no bits beyond its last byte. */
  lemma NothingSpare(combine: Combine, n: nat, bits: seq<bool>, hashes: seq<Hash>, bits': seq<bool>, hashes': seq<Hash>)
    requires bits <= bits' && hashes <= hashes' && Accepts(combine, n, bits, hashes)
    ensures Accepts(combine, n, bits', hashes') <==> hashes' == hashes && (|bits'| + 7) / 8 == (|bits| + 7) / 8
    ensures Whole(combine, n, bits', hashes') == Whole(combine, n, bits, hashes)
  {
    RootExists(n);
    ExtractMore(combine, bits, hashes, bits', hashes', TreeAt(n, Height(n), 0), 0, 0);
  }

  /** What is built over a block, packed and unpacked, is accepted: it gives back the root of the
      block and exactly the matched leaves in order, and it is no larger than documented. */
  lemma BuiltIsAccepted(combine: Combine, leaves: seq<Hash>, mask: seq<bool>, bits: seq<bool>)
    requires |mask| == |leaves| > 0
    requires Width(|leaves|, Height(|leaves|)) == 1 && Fits(TreeAt(|leaves|, Height(|leaves|), 0), |leaves|)
    requires Padded(Bits(mask, TreeAt(|leaves|, Height(|leaves|), 0)), bits)
    ensures var n := |leaves|;
            var hashes := Hashes(combine, leaves, mask, TreeAt(n, Height(n), 0));
            && Accepts(combine, n, bits, hashes)
            && Whole(combine, n, bits, hashes).hash == Root(combine, leaves)
            && Whole(combine, n, bits, hashes).matches == Filter(leaves, mask, 0, n)
            && |hashes| <= n && |hashes| <= 1 + |Filter(leaves, mask, 0, n)| * Height(n)
  {
    var n := |leaves|;
    var t := TreeAt(n, Height(n), 0);
    var hashes := Hashes(combine, leaves, mask, t);
    assert At(hashes, 0, hashes);
    ExtractBuilt(combine, leaves, mask, t, bits, hashes, 0, 0);
    TreeHashIsCalcHash(combine, leaves, Height(n), 0);
    MatchedExact(leaves, mask, t);
    TreesEnd(n, Height(n), 0);
    FirstExact(n, Height(n), 0);
    HashesBounded(combine, leaves, mask, t);
    TreeAtHeight(n, Height(n), 0);
    BitsExact(combine, leaves, mask, t);
  }

  /** Whatever is accepted with the root of a block of n leaves lists leaves of that block only, in
      their order, unless it makes the reader hash a pair that collides with a pair of the block's tree. */
  lemma AcceptedIsSound(combine: Combine, leaves: seq<Hash>, bits: seq<bool>, hashes: seq<Hash>)
    requires |leaves| > 0 && Accepts(combine, |leaves|, bits, hashes)
    requires Whole(combine, |leaves|, bits, hashes).hash == Root(combine, leaves)
    requires Width(|leaves|, Height(|leaves|)) == 1 && Fits(TreeAt(|leaves|, Height(|leaves|), 0), |leaves|)
    requires var t := TreeAt(|leaves|, Height(|leaves|), 0);
             CollisionFree(combine, TreePairs(combine, leaves, t), ExtractPairs(combine, bits, hashes, t, 0, 0))
    ensures exists mask :: |mask| == |leaves| &&
              Whole(combine, |leaves|, bits, hashes).matches == Filter(leaves, mask, 0, |leaves|)
  {
    var n := |leaves|;
    var t := TreeAt(n, Height(n), 0);
    TreeHashIsCalcHash(combine, leaves, Height(n), 0);
    ExtractSound(combine, leaves, bits, hashes, t, 0, 0);
    var mask := MaskOf(n, Claimed(combine, bits, hashes, t, 0, 0));
    MatchedExact(leaves, mask, t);
    TreesEnd(n, Height(n), 0);
    FirstExact(n, Height(n), 0);
    assert Whole(combine, n, bits, hashes).matches == Filter(leaves, mask, 0, n);
  }

  /** The tree below a node is made of the trees below its children. */
  lemma TreeStep(n: nat, height: nat, pos: nat)
    requires height > 0 && pos < Width(n, height)
    ensures 2 * pos < Width(n, height - 1)
    ensures TreeAt(n, height, pos) ==
            if 2 * pos + 1 < Width(n, height - 1)
            then Pair(TreeAt(n, height - 1, 2 * pos), TreeAt(n, height - 1, 2 * pos + 1))
            else Single(TreeAt(n, height - 1, 2 * pos))
  {
    Doubled(Width(n, height - 1), pos);
  }

  lemma Assoc<T>(a: seq<T>, b: seq<T>, c: seq<T>)
    ensures a + b + c == a + (b + c)
  {
  }

  lemma Joined(a: seq<bool>, b: seq<bool>, c: seq<bool>, d: seq<bool>)
    ensures a + b + c + d == a + (b + (c + d))
    ensures a + b + c == a + (b + c)
  {
  }

  // ---------------------------------------------------------------- the object

  class PartialMerkleTree {
    const combine: Combine
    var nTransactions: nat
    var vBits: seq<bool>
    var vHash: seq<Hash>
    var fBad: bool

    method CalcHeight() returns (nHeight: nat)
      ensures nHeight == Height(nTransactions)
    {
      nHeight := 0;
      CalcTreeWidthExact(nTransactions, 0);
      while CalcTreeWidth(nTransactions, nHeight) > 1
        invariant nHeight <= Height(nTransactions)
        invariant CalcTreeWidth(nTransactions, nHeight) == Width(nTransactions, nHeight)
        decreases Height(nTransactions) - nHeight
      {
        nHeight := nHeight + 1;
        CalcTreeWidthExact(nTransactions, nHeight);
      }
    }

    /** Whether any selected leaf is below the node. */
    method ParentOfMatch(height: nat, pos: nat, vMatch: seq<bool>) returns (fParentOfMatch: bool)
      requires |vMatch| == nTransactions && pos < Width(nTransactions, height)
      ensures Fits(TreeAt(nTransactions, height, pos), nTransactions)
      ensures fParentOfMatch == Parental(vMatch, TreeAt(nTransactions, height, pos))
    {
      TreeFits(nTransactions, height, pos);
      TreeRange(nTransactions, height, pos);
      ParentalExact(vMatch, TreeAt(nTransactions, height, pos));
      ghost var lo, hi := First(TreeAt(nTransactions, height, pos)), End(TreeAt(nTransactions, height, pos));
      FitsBounds(TreeAt(nTransactions, height, pos), nTransactions);
      fParentOfMatch := false;
      var p, end := pos * Span(height), (pos + 1) * Span(height);
      while p < end && p < nTransactions
        invariant lo <= p <= hi
        invariant fParentOfMatch <==> exists q :: lo <= q < p && vMatch[q]
      {
        fParentOfMatch := fParentOfMatch || vMatch[p];
        p := p + 1;
      }
    }

    method TraverseAndBuild(height: nat, pos: nat, vTxid: seq<Hash>, vMatch: seq<bool>)
      requires |vTxid| == |vMatch| == nTransactions && pos < Width(nTransactions, height)
      modifies this`vBits, this`vHash
      ensures Fits(TreeAt(nTransactions, height, pos), nTransactions)
      ensures vBits == old(vBits) + Bits(vMatch, TreeAt(nTransactions, height, pos))
      ensures vHash == old(vHash) + Hashes(combine, vTxid, vMatch, TreeAt(nTransactions, height, pos))
      decreases height, 1
    {
      var fParentOfMatch := ParentOfMatch(height, pos, vMatch);
      ghost var t, bits, hashes := TreeAt(nTransactions, height, pos), vBits, vHash;
      vBits := vBits + [fParentOfMatch];
      if height == 0 || !fParentOfMatch {
        TreeHashIsCalcHash(combine, vTxid, height, pos);
        vHash := vHash + [CalcHash(combine, vTxid, height, pos)];
      } else {
        BuildChildren(height, pos, vTxid, vMatch);
        Joined(bits, [true], ChildBits(vMatch, t), []);
      }
    }

    /** What follows the bit of a node whose subtree holds a match. */
    static ghost function ChildBits(mask: seq<bool>, t: Tree): seq<bool>
      requires Fits(t, |mask|) && !t.Leaf?
    {
      match t
      case Single(c) => Bits(mask, c)
      case Pair(l, r) => Bits(mask, l) + Bits(mask, r)
    }

    method BuildChildren(height: nat, pos: nat, vTxid: seq<Hash>, vMatch: seq<bool>)
      requires |vTxid| == |vMatch| == nTransactions && height > 0 && pos < Width(nTransactions, height)
      requires Fits(TreeAt(nTransactions, height, pos), nTransactions)
      requires !TreeAt(nTransactions, height, pos).Leaf? && Parental(vMatch, TreeAt(nTransactions, height, pos))
      modifies this`vBits, this`vHash
      ensures vBits == old(vBits) + ChildBits(vMatch, TreeAt(nTransactions, height, pos))
      ensures vHash == old(vHash) + Hashes(combine, vTxid, vMatch, TreeAt(nTransactions, height, pos))
      decreases height, 0
    {
      TreeStep(nTransactions, height, pos);
      ghost var t, bits, hashes := TreeAt(nTransactions, height, pos), vBits, vHash;
      TraverseAndBuild(height - 1, 2 * pos, vTxid, vMatch);
      if 2 * pos + 1 < Width(nTransactions, height - 1) {
        TraverseAndBuild(height - 1, 2 * pos + 1, vTxid, vMatch);
        Assoc(bits, Bits(vMatch, t.left), Bits(vMatch, t.right));
        Assoc(hashes, Hashes(combine, vTxid, vMatch, t.left), Hashes(combine, vTxid, vMatch, t.right));
      }
    }

    method TraverseAndExtract(height: nat, pos: nat, nBitsUsed: nat, nHashUsed: nat, vMatch: seq<Hash>)
      returns (hash: Hash, nBitsUsed': nat, nHashUsed': nat, vMatch': seq<Hash>)
      requires pos < Width(nTransactions, height)
      modifies this`fBad
      ensures var e := Extract(combine, vBits, vHash, TreeAt(nTransactions, height, pos), nBitsUsed, nHashUsed);
              && hash == e.hash && nBitsUsed' == e.nBits && nHashUsed' == e.nHashes
              && vMatch' == vMatch + e.matches && fBad == (old(fBad) || e.bad)
      decreases height, 1
    {
      hash, nBitsUsed', nHashUsed', vMatch' := ZERO, nBitsUsed, nHashUsed, vMatch;
      if nBitsUsed >= |vBits| {
        fBad := true;
        return;
      }
      var fParentOfMatch := vBits[nBitsUsed];
      nBitsUsed' := nBitsUsed + 1;
      if height == 0 || !fParentOfMatch {
        if nHashUsed >= |vHash| {
          fBad := true;
          return;
        }
        hash := vHash[nHashUsed];
        nHashUsed' := nHashUsed + 1;
        if height == 0 && fParentOfMatch {
          vMatch' := vMatch + [hash];
        }
      } else {
        TreeStep(nTransactions, height, pos);
        hash, nBitsUsed', nHashUsed', vMatch' := ExtractChildren(height, pos, nBitsUsed', nHashUsed', vMatch');
      }
    }

    method ExtractChildren(height: nat, pos: nat, nBitsUsed: nat, nHashUsed: nat, vMatch: seq<Hash>)
      returns (hash: Hash, nBitsUsed': nat, nHashUsed': nat, vMatch': seq<Hash>)
      requires height > 0 && pos < Width(nTransactions, height)
      modifies this`fBad
      ensures var e := Below(combine, vBits, vHash, TreeAt(nTransactions, height, pos), nBitsUsed, nHashUsed);
              && hash == e.hash && nBitsUsed' == e.nBits && nHashUsed' == e.nHashes
              && vMatch' == vMatch + e.matches && fBad == (old(fBad) || e.bad)
      decreases height, 0
    {
      TreeStep(nTransactions, height, pos);
      var left, right;
      left, nBitsUsed', nHashUsed', vMatch' := TraverseAndExtract(height - 1, 2 * pos, nBitsUsed, nHashUsed, vMatch);
      if 2 * pos + 1 < Width(nTransactions, height - 1) {
        right, nBitsUsed', nHashUsed', vMatch' := TraverseAndExtract(height - 1, 2 * pos + 1, nBitsUsed', nHashUsed', vMatch');
      } else {
        right := left;
      }
      hash := combine(left, right);
    }

    constructor Build(combine: Combine, vTxid: seq<Hash>, vMatch: seq<bool>)
      requires |vTxid| == |vMatch| > 0
      ensures this.combine == combine && nTransactions == |vTxid| && !fBad
      ensures Width(nTransactions, Height(nTransactions)) == 1
      ensures var t := TreeAt(nTransactions, Height(nTransactions), 0);
              Fits(t, |vMatch|) && vBits == Bits(vMatch, t) && vHash == Hashes(combine, vTxid, vMatch, t)
    {
      this.combine := combine;
      nTransactions := |vTxid|;
      fBad := false;
      vBits, vHash := [], [];
      new;
      var nHeight := CalcHeight();
      RootExists(nTransactions);
      TraverseAndBuild(nHeight, 0, vTxid, vMatch);
    }

    /** A tree read from its serialized parts. */
    constructor Read(combine: Combine, n: nat, hashes: seq<Hash>, vBytes: seq<bv8>)
      ensures this.combine == combine && nTransactions == n && vHash == hashes && !fBad
      ensures |vBits| == 8 * |vBytes|
      ensures forall p :: 0 <= p < |vBits| ==> (vBits[p] <==> HasBit(vBytes[p / 8], p % 8))
    {
      this.combine := combine;
      nTransactions := n;
      vHash := hashes;
      var bits := Unpack(vBytes);
      vBits := bits;
      fBad := false;
    }

    method ExtractMatches() returns (root: Hash, vMatch: seq<Hash>)
      modifies this`fBad
      ensures !old(fBad) && Accepts(combine, nTransactions, vBits, vHash) ==>
                && root == Whole(combine, nTransactions, vBits, vHash).hash
                && vMatch == Whole(combine, nTransactions, vBits, vHash).matches
      ensures old(fBad) || !Accepts(combine, nTransactions, vBits, vHash) ==> root == ZERO
    {
      root, vMatch := ZERO, [];
      if nTransactions == 0 { return; }
      if |vHash| > nTransactions { return; }
      if |vBits| < |vHash| { return; }
      var nHeight := CalcHeight();
      RootExists(nTransactions);
      var nBitsUsed, nHashUsed, hashMerkleRoot;
      hashMerkleRoot, nBitsUsed, nHashUsed, vMatch := TraverseAndExtract(nHeight, 0, 0, 0, vMatch);
      if fBad { return; }
      if (nBitsUsed + 7) / 8 != (|vBits| + 7) / 8 { return; }
      if nHashUsed != |vHash| { return; }
      root := hashMerkleRoot;
    }
  }

  /** From a block and a selection, over the wire, to the root of the block and the selected leaves. */
  method Transmit(combine: Combine, vTxid: seq<Hash>, vMatch: seq<bool>) returns (root: Hash, matches: seq<Hash>, stored: nat)
    requires |vTxid| == |vMatch| > 0
    ensures root == Root(combine, vTxid)
    ensures matches == Filter(vTxid, vMatch, 0, |vTxid|)
    ensures stored <= |vTxid| && stored <= 1 + |matches| * Height(|vTxid|)
  {
    var sent := new PartialMerkleTree.Build(combine, vTxid, vMatch);
    var vBytes := Pack(sent.vBits);
    var received := new PartialMerkleTree.Read(combine, sent.nTransactions, sent.vHash, vBytes);
    stored := |sent.vHash|;
    assert received.vBits[..|sent.vBits|] == sent.vBits;
    BuiltIsAccepted(combine, vTxid, vMatch, received.vBits);
    root, matches := received.ExtractMatches();
  }
}
