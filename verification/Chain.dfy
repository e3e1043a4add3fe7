/** The in-memory index of a chain of blocks: changing its tip, finding forks, and locators. */
module Chain {
  import opened Locator

  /** Blocks are named by their hash. */
  type Block = nat

  datatype Ptr = Null | At(block: Block)

  datatype Index = Index(prev: Ptr, nHeight: nat)

  type Tree = map<Block, Index>

  /** Every block but those at height zero has its predecessor one below. */
  ghost predicate WellFormed(tree: Tree) {
    forall b :: b in tree ==>
      if tree[b].nHeight == 0 then tree[b].prev == Null
      else tree[b].prev.At? && tree[b].prev.block in tree && tree[tree[b].prev.block].nHeight == tree[b].nHeight - 1
  }

  // ---------------------------------------------------------------- ancestor paths

  /** All ancestors of a block from height zero up to itself. */
  ghost function Path(tree: Tree, b: Block): (p: seq<Block>)
    requires WellFormed(tree) && b in tree
    ensures |p| == tree[b].nHeight + 1 && p[|p| - 1] == b
    decreases tree[b].nHeight
  {
    if tree[b].nHeight == 0 then [b] else Path(tree, tree[b].prev.block) + [b]
  }

  /** A prefix of a path is the path of the block it ends in. */
  lemma {:induction false} PathPrefix(tree: Tree, b: Block, h: nat)
    requires WellFormed(tree) && b in tree && h <= tree[b].nHeight
    ensures var a := Path(tree, b)[h];
            a in tree && tree[a].nHeight == h && Path(tree, a) == Path(tree, b)[..h + 1]
    decreases tree[b].nHeight
  {
    if h < tree[b].nHeight {
      var p := tree[b].prev.block;
      PathPrefix(tree, p, h);
      assert Path(tree, b)[..h + 1] == Path(tree, p)[..h + 1];
    }
  }

  /** The ancestor at height k of the ancestor at height h is the ancestor at height k. */
  lemma Ancestor(tree: Tree, b: Block, h: nat, k: nat)
    requires WellFormed(tree) && b in tree && k <= h <= tree[b].nHeight
    ensures var a := Path(tree, b)[h];
            && a in tree && tree[a].nHeight == h && Path(tree, a)[k] == Path(tree, b)[k]
            && Path(tree, b)[k] in tree && tree[Path(tree, b)[k]].nHeight == k
  {
    PathPrefix(tree, b, h);
    PathPrefix(tree, b, k);
    assert Path(tree, b)[..h + 1][k] == Path(tree, b)[k];
  }

  /** A block stands on a path only at its own height. */
  lemma OnPath(tree: Tree, b: Block, a: Block)
    requires WellFormed(tree) && b in tree && a in Path(tree, b)
    ensures a in tree && tree[a].nHeight <= tree[b].nHeight && Path(tree, b)[tree[a].nHeight] == a
  {
    var h :| 0 <= h < |Path(tree, b)| && Path(tree, b)[h] == a;
    PathPrefix(tree, b, h);
  }

  /** Two paths agree up to any block they share. */
  lemma SharedPrefix(tree: Tree, a: Block, b: Block, h: nat)
    requires WellFormed(tree) && a in tree && b in tree && h <= tree[a].nHeight && h <= tree[b].nHeight
    requires Path(tree, a)[h] == Path(tree, b)[h]
    ensures Path(tree, a)[..h + 1] == Path(tree, b)[..h + 1]
  {
    PathPrefix(tree, a, h);
    PathPrefix(tree, b, h);
  }

  /** f is the highest block that two paths share; Null if they share none. */
  ghost predicate LastShared(tree: Tree, p: seq<Block>, q: seq<Block>, f: Ptr) {
    match f
    case Null => forall x :: x in p ==> x !in q
    case At(b) => b in tree && b in p && b in q && forall x :: x in p && x in q ==> x in tree && tree[x].nHeight <= tree[b].nHeight
  }

  // ---------------------------------------------------------------- the chain object

  ghost function Ptrs(p: seq<Block>): (r: seq<Ptr>)
    ensures |r| == |p| && forall i :: 0 <= i < |p| ==> r[i] == At(p[i])
  {
    seq(|p|, i requires 0 <= i < |p| => At(p[i]))
  }

  class Chain {
    const tree: Tree
    var vChain: seq<Ptr>

    /** The chain is the ancestor path of its tip. */
    ghost predicate Valid()
      reads this
    {
      && WellFormed(tree)
      && (vChain != [] ==>
            var tip := vChain[|vChain| - 1];
            tip.At? && tip.block in tree && vChain == Ptrs(Path(tree, tip.block)))
    }

    /** The blocks of the chain from genesis to tip. */
    ghost function Blocks(): (p: seq<Block>)
      requires Valid()
      reads this
      ensures vChain == Ptrs(p)
    {
      if vChain == [] then [] else Path(tree, vChain[|vChain| - 1].block)
    }

    constructor (tree: Tree)
      requires WellFormed(tree)
      ensures this.tree == tree && Valid() && Blocks() == []
    {
      this.tree := tree;
      vChain := [];
    }

    function Genesis(): Ptr
      reads this
    {
      if |vChain| > 0 then vChain[0] else Null
    }

    function Tip(): Ptr
      reads this
    {
      if |vChain| > 0 then vChain[|vChain| - 1] else Null
    }

    function Height(): int
      reads this
    {
      |vChain| - 1
    }

    function Get(nHeight: int): Ptr
      reads this
    {
      if nHeight < 0 || nHeight >= |vChain| then Null else vChain[nHeight]
    }

    predicate Contains(b: Block)
      requires b in tree
      reads this
    {
      Get(tree[b].nHeight) == At(b)
    }

    lemma ContainsExact(b: Block)
      requires Valid() && b in tree
      ensures Contains(b) <==> b in Blocks()
    {
      if b in Blocks() {
        OnPath(tree, vChain[|vChain| - 1].block, b);
      }
    }

    static function Resized(v: seq<Ptr>, n: nat): (r: seq<Ptr>)
      ensures |r| == n
    {
      if n <= |v| then v[..n] else v + seq(n - |v|, _ => Null)
    }

    /** Make pindex the tip; the walk back stops at the first block that is already in place. */
    method SetTip(pindex: Ptr) returns (fork: Ptr)
      requires Valid() && (pindex.At? ==> pindex.block in tree)
      modifies this
      ensures Valid() && Tip() == pindex
      ensures Blocks() == if pindex.At? then Path(tree, pindex.block) else []
      ensures LastShared(tree, old(Blocks()), Blocks(), fork)
    {
      if pindex == Null {
        vChain := [];
        return Null;
      }
      ResizedKept(vChain, Blocks(), tree[pindex.block].nHeight + 1);
      fork := Overwrite(pindex.block, Blocks());
    }

    method Overwrite(b: Block, ghost was: seq<Block>) returns (cur: Ptr)
      requires IsPath(tree, was) && b in tree && Kept(Resized(vChain, tree[b].nHeight + 1), was)
      modifies this
      ensures vChain == Ptrs(Path(tree, b))
      ensures LastShared(tree, was, Path(tree, b), cur)
    {
      ghost var p := Path(tree, b);
      vChain := Resized(vChain, tree[b].nHeight + 1);
      ghost var base := vChain;
      cur := At(b);
      while cur != Null && vChain[tree[cur.block].nHeight] != cur
        invariant |vChain| == |p|
        invariant cur.At? ==> cur.block in tree && tree[cur.block].nHeight < |p| && p[tree[cur.block].nHeight] == cur.block
        invariant Replaced(vChain, base, p, Level(tree, cur))
        invariant Unshared(was, p, Level(tree, cur))
        decreases Level(tree, cur)
      {
        WalkStep(tree, b, was, cur.block, base, vChain);
        vChain := vChain[tree[cur.block].nHeight := cur];
        cur := tree[cur.block].prev;
      }
      WalkDone(tree, b, was, cur, base, vChain);
    }

    /** The number of blocks from height zero up to cur. */
    static ghost function Level(tree: Tree, cur: Ptr): nat
      requires cur.At? ==> cur.block in tree
    {
      if cur.At? then tree[cur.block].nHeight + 1 else 0
    }

    /** What resizing leaves of the old chain. */
    static ghost predicate Kept(base: seq<Ptr>, was: seq<Block>) {
      forall h :: 0 <= h < |base| ==> base[h] == if h < |was| then At(was[h]) else Null
    }

    static lemma ResizedKept(v: seq<Ptr>, was: seq<Block>, n: nat)
      requires v == Ptrs(was)
      ensures Kept(Resized(v, n), was)
    {
    }

    /** From height n on the path is in place, below it nothing has changed yet. */
    static ghost predicate Replaced(v: seq<Ptr>, base: seq<Ptr>, p: seq<Block>, n: nat) {
      && |v| == |base| == |p| && n <= |p|
      && (forall h :: n <= h < |p| ==> v[h] == At(p[h]))
      && (forall h :: 0 <= h < n ==> v[h] == base[h])
    }

    /** From height n on the old chain and the path differ. */
    static ghost predicate Unshared(was: seq<Block>, p: seq<Block>, n: nat) {
      forall h :: n <= h < |p| && h < |was| ==> was[h] != p[h]
    }

    static lemma WalkStep(tree: Tree, b: Block, was: seq<Block>, cur: Block, base: seq<Ptr>, v: seq<Ptr>)
      requires WellFormed(tree) && b in tree && cur in tree && tree[cur].nHeight <= tree[b].nHeight
      requires var p := Path(tree, b);
               && p[tree[cur].nHeight] == cur && |base| == |p|
               && Replaced(v, base, p, tree[cur].nHeight + 1) && Unshared(was, p, tree[cur].nHeight + 1)
               && v[tree[cur].nHeight] != At(cur)
               && Kept(base, was)
      ensures var p := Path(tree, b);
              var prev := tree[cur].prev;
              && (prev.At? ==> prev.block in tree && tree[prev.block].nHeight < |p| && p[tree[prev.block].nHeight] == prev.block)
              && Level(tree, prev) == tree[cur].nHeight
              && Replaced(v[tree[cur].nHeight := At(cur)], base, p, Level(tree, prev))
              && Unshared(was, p, Level(tree, prev))
    {
      var h := tree[cur].nHeight;
      if h > 0 {
        PathPrefix(tree, b, h);
        var prev := tree[cur].prev.block;
        assert Path(tree, cur)[h - 1] == Path(tree, prev)[h - 1] == prev;
      }
    }

    static ghost predicate IsPath(tree: Tree, p: seq<Block>) {
      WellFormed(tree) && (p != [] ==> p[|p| - 1] in tree && p == Path(tree, p[|p| - 1]))
    }

    /** Where the walk stops the old chain already holds the rest of the path. */
    static lemma WalkMeets(tree: Tree, b: Block, was: seq<Block>, h: nat)
      requires IsPath(tree, was) && b in tree && h < |was| && h <= tree[b].nHeight
      requires was[h] == Path(tree, b)[h]
      ensures forall k :: 0 <= k <= h ==> was[k] == Path(tree, b)[k]
    {
      var p := Path(tree, b);
      SharedPrefix(tree, was[|was| - 1], b, h);
      forall k | 0 <= k <= h ensures was[k] == p[k] {
        assert was[k] == was[..h + 1][k] && p[k] == p[..h + 1][k];
      }
    }

    /** Nothing above the place where the walk stops is shared. */
    static lemma WalkShared(tree: Tree, b: Block, was: seq<Block>, cur: Ptr)
      requires IsPath(tree, was) && b in tree && (cur.At? ==> cur.block in tree)
      requires Unshared(was, Path(tree, b), Level(tree, cur))
      requires cur.At? ==> cur.block in was && cur.block in Path(tree, b)
      ensures LastShared(tree, was, Path(tree, b), cur)
    {
      forall x | x in was && x in Path(tree, b) ensures x in tree && cur.At? && tree[x].nHeight <= tree[cur.block].nHeight {
        OnPath(tree, was[|was| - 1], x);
        OnPath(tree, b, x);
      }
    }

    static lemma WalkDone(tree: Tree, b: Block, was: seq<Block>, cur: Ptr, base: seq<Ptr>, v: seq<Ptr>)
      requires IsPath(tree, was) && b in tree
      requires cur.At? ==> cur.block in tree && tree[cur.block].nHeight <= tree[b].nHeight
      requires |base| == |Path(tree, b)|
      requires Kept(base, was)
      requires Replaced(v, base, Path(tree, b), Level(tree, cur)) && Unshared(was, Path(tree, b), Level(tree, cur))
      requires cur.At? ==> Path(tree, b)[tree[cur.block].nHeight] == cur.block && v[tree[cur.block].nHeight] == cur
      ensures v == Ptrs(Path(tree, b))
      ensures LastShared(tree, was, Path(tree, b), cur)
    {
      if cur.At? {
        WalkMeets(tree, b, was, tree[cur.block].nHeight);
      }
      WalkShared(tree, b, was, cur);
    }

    /** The last block of the chain that is an ancestor of pindex. */
    method FindFork(pindex: Ptr) returns (fork: Ptr)
      requires Valid() && (pindex.At? ==> pindex.block in tree)
      ensures LastShared(tree, Blocks(), if pindex.At? then Path(tree, pindex.block) else [], fork)
    {
      fork := pindex;
      ghost var p := if pindex.At? then Path(tree, pindex.block) else [];
      ghost var blocks := Blocks();
      while fork != Null && !Contains(fork.block)
        invariant fork.At? ==> fork.block in tree && Level(tree, fork) <= |p| && p[..Level(tree, fork)] == Path(tree, fork.block)
        invariant forall x :: x in p && x in blocks ==> x in p[..Level(tree, fork)]
        decreases Level(tree, fork)
      {
        ContainsExact(fork.block);
        Descend(tree, fork.block, p);
        fork := tree[fork.block].prev;
      }
      if fork.At? {
        ContainsExact(fork.block);
        Meets(tree, fork.block, p, blocks);
      }
    }

    static lemma Meets(tree: Tree, b: Block, p: seq<Block>, blocks: seq<Block>)
      requires WellFormed(tree) && b in tree && tree[b].nHeight < |p| && p[..tree[b].nHeight + 1] == Path(tree, b) && b in blocks
      requires forall x :: x in p && x in blocks ==> x in Path(tree, b)
      ensures LastShared(tree, blocks, p, At(b))
    {
      assert p[tree[b].nHeight] == p[..tree[b].nHeight + 1][tree[b].nHeight] == b;
      forall x | x in p && x in blocks ensures x in tree && tree[x].nHeight <= tree[b].nHeight {
        OnPath(tree, b, x);
      }
    }

    static lemma Descend(tree: Tree, b: Block, p: seq<Block>)
      requires WellFormed(tree) && b in tree && tree[b].nHeight < |p| && p[..tree[b].nHeight + 1] == Path(tree, b)
      ensures p[..tree[b].nHeight + 1] == p[..tree[b].nHeight] + [b]
      ensures tree[b].nHeight > 0 ==> p[..tree[b].nHeight] == Path(tree, tree[b].prev.block)
    {
      var h := tree[b].nHeight;
      assert p[..h + 1][h] == b && p[..h + 1][..h] == p[..h];
    }

    // ---------------------------------------------------------------- locators

    /** From cur back to the ancestor at nHeight, by height as soon as the chain is reached. */
    method StepBack(cur: Block, nHeight: nat) returns (b: Block)
      requires Valid() && cur in tree && nHeight <= tree[cur].nHeight
      ensures b == Path(tree, cur)[nHeight]
    {
      b := cur;
      while tree[b].nHeight > nHeight && !Contains(b)
        invariant b in tree && nHeight <= tree[b].nHeight <= tree[cur].nHeight
        invariant Path(tree, b)[nHeight] == Path(tree, cur)[nHeight]
        decreases tree[b].nHeight
      {
        b := tree[b].prev.block;
      }
      if tree[b].nHeight > nHeight {
        ContainsExact(b);
        SharedPrefix(tree, vChain[|vChain| - 1].block, b, tree[b].nHeight);
        assert Blocks()[..tree[b].nHeight + 1][nHeight] == Path(tree, b)[..tree[b].nHeight + 1][nHeight];
        b := Get(nHeight).block;
      }
    }

    /** The hashes of some ancestors of pindex, thinning out towards genesis. */
    method GetLocator(pindex: Ptr) returns (vHave: seq<Block>)
      requires Valid() && (pindex.At? ==> pindex.block in tree)
      ensures var from := if pindex == Null then Tip() else pindex;
              vHave == if from == Null then []
                       else Pick(Path(tree, from.block), Heights(tree[from.block].nHeight, 1, 0))
    {
      var from := if pindex == Null then Tip() else pindex;
      if from == Null {
        return [];
      }
      vHave := LocatorFrom(from.block);
    }

    method LocatorFrom(from: Block) returns (vHave: seq<Block>)
      requires Valid() && from in tree
      ensures vHave == Pick(Path(tree, from), Heights(tree[from].nHeight, 1, 0))
    {
      var nStep, cur := 1, from;
      ghost var p, all := Path(tree, from), Heights(tree[from].nHeight, 1, 0);
      vHave := [cur];
      while tree[cur].nHeight != 0
        invariant cur in tree && tree[cur].nHeight < |p| && p[tree[cur].nHeight] == cur
        invariant Partial(p, all, vHave, tree[cur].nHeight, nStep)
        decreases tree[cur].nHeight
      {
        cur, vHave, nStep := LocatorStep(from, cur, nStep, vHave, all);
      }
      PartialDone(p, all, vHave, nStep);
    }

    method LocatorStep(ghost from: Block, cur: Block, nStep: nat, vHave: seq<Block>, ghost all: seq<nat>)
      returns (next: Block, vHave': seq<Block>, nStep': nat)
      requires Valid() && from in tree && cur in tree && 0 < tree[cur].nHeight <= tree[from].nHeight
      requires Path(tree, from)[tree[cur].nHeight] == cur && Partial(Path(tree, from), all, vHave, tree[cur].nHeight, nStep)
      ensures next in tree && tree[next].nHeight < tree[cur].nHeight && Path(tree, from)[tree[next].nHeight] == next
      ensures Partial(Path(tree, from), all, vHave', tree[next].nHeight, nStep')
    {
      var nHeight := Below(tree[cur].nHeight, nStep);
      Ancestor(tree, from, tree[cur].nHeight, nHeight);
      PartialStep(Path(tree, from), all, vHave, tree[cur].nHeight, nStep);
      next := StepBack(cur, nHeight);
      vHave', nStep' := vHave + [next], NextStep(nStep, |vHave|);
    }

    /** The first block of a locator that stands in this chain, or else genesis. */
    method FindForkLocator(vHave: seq<Block>, mapBlockIndex: set<Block>) returns (fork: Ptr)
      requires Valid() && (forall b :: b in Blocks() ==> b in mapBlockIndex) && (forall b :: b in mapBlockIndex ==> b in tree)
      ensures var i := First(vHave, Blocks());
              fork == if i < |vHave| then At(vHave[i]) else Genesis()
    {
      for n := 0 to |vHave|
        invariant forall j :: 0 <= j < n ==> vHave[j] !in Blocks()
      {
        if vHave[n] in mapBlockIndex {
          ContainsExact(vHave[n]);
          if Contains(vHave[n]) {
            return At(vHave[n]);
          }
        }
      }
      fork := Genesis();
    }
  }

  /** A locator of b resolves on the chain of t to the fork or to a block nearer to it than the fork is to b. */
  lemma LocatorResolves(tree: Tree, b: Block, t: Block, f: Block)
    requires WellFormed(tree) && b in tree && t in tree && LastShared(tree, Path(tree, b), Path(tree, t), At(f))
    ensures var hs := Heights(tree[b].nHeight, 1, 0);
            var i := First(Pick(Path(tree, b), hs), Path(tree, t));
            && i < |hs| && hs[i] <= tree[f].nHeight <= tree[b].nHeight
            && (hs[i] == tree[f].nHeight || tree[f].nHeight - hs[i] < tree[b].nHeight - tree[f].nHeight)
            && (tree[b].nHeight - tree[f].nHeight <= 11 ==> hs[i] == tree[f].nHeight)
  {
    var p, q, top, h := Path(tree, b), Path(tree, t), tree[b].nHeight, tree[f].nHeight;
    OnPath(tree, b, f);
    OnPath(tree, t, f);
    SharedPrefix(tree, b, t, h);
    forall e | 0 <= e < |p| ensures p[e] in q <==> e <= h {
      PathPrefix(tree, b, e);
      if e <= h {
        assert p[..h + 1][e] == q[..h + 1][e];
      }
    }
    FirstIsHit(p, q, top, 1, 0, h);
    if h < top {
      HitNear(top, top, 1, 0, h);
      if top - h <= 11 {
        HitExact(top, top, h);
      }
    }
  }
}
