/** Linking the blocks that wait for their parents: all of them when the index has been loaded, or those that wait
    for one block that has just become known. */
module BlockLinks {

  /** Blocks are named by their hash; zero is the hash of no block. */
  type Hash = nat

  const VALID_TREE := 2
  const VALID_TRANSACTIONS := 3

  datatype Status = Status(valid: nat, failedValid: bool, failedChild: bool) {
    predicate Failed() {
      failedValid || failedChild
    }
  }

  datatype Index = Index(work: nat, nTx: nat, status: Status, pprev: Hash, nChainWork: nat, nChainTx: nat, fConnected: bool)

  /** All blocks are to be linked, or those under one parent. */
  datatype Call = AtLoad | Under(parent: Hash)

  /** What the linking starts from: the index, the parents of the blocks to link, the genesis block and the call. */
  datatype Input = Input(index: map<Hash, Index>, prev: map<Hash, Hash>, genesis: Hash, call: Call) {
    /** The parent of a block to start from, even if it is itself waiting, descends from no such block. */
    ghost predicate Valid() {
      && 0 !in index && (forall h :: h in prev ==> h in index)
      && (forall h, n :: h in prev && Starts(h) ==> !Rooted(prev[h], n))
    }

    /** A block that is looked at first. */
    predicate Starts(h: Hash)
      requires h in prev
    {
      match call
      case AtLoad => prev[h] == 0 || (prev[h] in index && index[prev[h]].fConnected)
      case Under(parent) => prev[h] == parent && (parent == 0 || parent in index)
    }

    /** A block to start from: of those without a parent only genesis. */
    predicate Root(h: Hash)
      requires h in prev
    {
      Starts(h) && (prev[h] == 0 ==> h == genesis)
    }

    /** h is n links above a root. */
    ghost predicate Rooted(h: Hash, n: nat)
      decreases n
    {
      h in prev && if n == 0 then Root(h) else prev[h] != 0 && Rooted(prev[h], n - 1)
    }

    /** What linking makes of a block. */
    ghost function Linked(h: Hash, n: nat): Index
      requires Valid() && Rooted(h, n)
      decreases n
    {
      if prev[h] == 0 then Started(index[h])
      else Attached(index[h], prev[h], if n == 0 then index[prev[h]] else Linked(prev[h], n - 1))
    }

    /** The blocks from h down to its root. */
    ghost function Path(h: Hash, n: nat): (p: seq<Hash>)
      requires Valid() && Rooted(h, n)
      ensures |p| == n + 1 && p[0] == h && forall i :: 0 <= i <= n ==> p[i] in index
      decreases n
    {
      if n == 0 then [h] else [h] + Path(prev[h], n - 1)
    }
  }

  function Started(e: Index): Index {
    e.(fConnected := true, nChainWork := e.work, status := Status(VALID_TRANSACTIONS, false, false))
  }

  function Attached(e: Index, hashPrev: Hash, parent: Index): Index {
    e.(pprev := hashPrev,
       nChainWork := parent.nChainWork + e.work,
       nChainTx := if e.nTx != 0 && parent.nChainTx != 0 then parent.nChainTx + e.nTx else e.nChainTx,
       status := if parent.status.Failed() then e.status.(failedChild := true) else e.status)
  }

  predicate Candidate(e: Index) {
    !e.status.Failed() && e.status.valid >= VALID_TREE
  }

  // ---------------------------------------------------------------- no cycles

  /** A rank that grows from every parent to its child, as the height of the blocks does. */
  ghost predicate Ranked(prev: map<Hash, Hash>, rank: Hash -> nat) {
    forall h :: h in prev ==> rank(prev[h]) < rank(h)
  }

  lemma {:induction false} RootedAbove(x: Input, rank: Hash -> nat, h: Hash, n: nat)
    requires x.call.Under? && Ranked(x.prev, rank) && x.Rooted(h, n)
    ensures rank(h) > rank(x.call.parent)
    decreases n
  {
    if n > 0 {
      RootedAbove(x, rank, x.prev[h], n - 1);
    }
  }

  /** At load connected blocks do not wait; under a parent it is enough that there are no cycles. */
  lemma InputValid(x: Input, rank: Hash -> nat)
    requires 0 !in x.index && forall h :: h in x.prev ==> h in x.index
    requires if x.call.AtLoad? then forall h :: h in x.prev ==> !x.index[h].fConnected else Ranked(x.prev, rank)
    ensures x.Valid()
  {
    forall h, n | h in x.prev && x.Starts(h) ensures !x.Rooted(x.prev[h], n) {
      if x.call.Under? && x.Rooted(x.call.parent, n) {
        RootedAbove(x, rank, x.call.parent, n);
      }
    }
  }

  // ---------------------------------------------------------------- what the links mean

  /** A block is some number of links above a root in at most one way. */
  lemma {:induction false} RootedOnce(x: Input, h: Hash, m: nat, n: nat)
    requires x.Valid() && x.Rooted(h, m) && x.Rooted(h, n)
    ensures m == n
    decreases m + n
  {
    if m > 0 && n > 0 {
      RootedOnce(x, x.prev[h], m - 1, n - 1);
    }
  }

  ghost function Total(index: map<Hash, Index>, p: seq<Hash>): nat
    requires forall i :: 0 <= i < |p| ==> p[i] in index
  {
    if p == [] then 0 else index[p[0]].work + Total(index, p[1..])
  }

  /** The work carried over from a connected parent of the root. */
  ghost function Carried(x: Input, root: Hash): nat
    requires x.Valid() && root in x.prev && x.Root(root)
  {
    if x.prev[root] == 0 then 0 else x.index[x.prev[root]].nChainWork
  }

  lemma {:induction false} PathEnds(x: Input, h: Hash, n: nat)
    requires x.Valid() && x.Rooted(h, n)
    ensures x.Path(h, n)[n] in x.prev && x.Root(x.Path(h, n)[n])
    decreases n
  {
    if n > 0 {
      PathEnds(x, x.prev[h], n - 1);
    }
  }

  /** The chain work is the sum of the work of the blocks on the way to the root. */
  lemma {:induction false} ChainWorkIsSum(x: Input, h: Hash, n: nat)
    requires x.Valid() && x.Rooted(h, n)
    ensures x.Path(h, n)[n] in x.prev && x.Root(x.Path(h, n)[n])
    ensures x.Linked(h, n).nChainWork == Total(x.index, x.Path(h, n)) + Carried(x, x.Path(h, n)[n])
    decreases n
  {
    PathEnds(x, h, n);
    if n == 0 {
      assert Total(x.index, [h]) == x.index[h].work + Total(x.index, [h][1..]);
    } else {
      ChainWorkIsSum(x, x.prev[h], n - 1);
      assert x.Path(h, n)[1..] == x.Path(x.prev[h], n - 1);
    }
  }

  /** A block whose own failure counts: one with a parent, so all but the genesis block. */
  ghost predicate Bad(x: Input, h: Hash) {
    h in x.prev && x.prev[h] != 0 && h in x.index && x.index[h].status.Failed()
  }

  /** A block on the way has failed, or the parent of the root. */
  ghost predicate Tainted(x: Input, h: Hash, n: nat)
    requires x.Valid() && x.Rooted(h, n)
  {
    || (exists i :: 0 <= i <= n && Bad(x, x.Path(h, n)[i]))
    || var root := x.Path(h, n)[n]; root in x.prev && x.prev[root] in x.index && x.index[x.prev[root]].status.Failed()
  }

  lemma TaintedStep(x: Input, h: Hash, n: nat)
    requires x.Valid() && x.Rooted(h, n) && n > 0
    ensures Tainted(x, h, n) <==> Bad(x, h) || Tainted(x, x.prev[h], n - 1)
  {
    var p, q := x.Path(h, n), x.Path(x.prev[h], n - 1);
    assert p == [h] + q;
    assert p[0] == h && p[n] == q[n - 1];
    if i :| 0 <= i <= n - 1 && Bad(x, q[i]) {
      assert p[i + 1] == q[i];
    }
    if i :| 0 <= i <= n && Bad(x, p[i]) {
      assert i > 0 ==> p[i] == q[i - 1];
    }
  }

  /** A block is marked failed exactly if it or a block it descends from has failed. */
  lemma {:induction false} FailureInherited(x: Input, h: Hash, n: nat)
    requires x.Valid() && x.Rooted(h, n)
    ensures x.Linked(h, n).status.Failed() <==> Tainted(x, h, n)
    decreases n
  {
    if n > 0 {
      FailureInherited(x, x.prev[h], n - 1);
      TaintedStep(x, h, n);
    } else {
      assert x.Path(h, 0)[0] == h;
    }
  }

  /** Without a transaction count at the roots' parents, no block gets one. */
  lemma {:induction false} ChainTxStays(x: Input, h: Hash, n: nat)
    requires x.Valid() && x.Rooted(h, n) && forall k :: k in x.index ==> x.index[k].nChainTx == 0
    ensures x.Linked(h, n).nChainTx == 0
    decreases n
  {
    if n > 0 {
      ChainTxStays(x, x.prev[h], n - 1);
    }
  }

  // ---------------------------------------------------------------- the links in the index

  /** A block that linking made from e under a parent: what it carries on from the parent, and which flag it gets. */
  ghost predicate Child(e: Index, e': Index, hashPrev: Hash, parent: Index) {
    && e'.pprev == hashPrev && e'.work == e.work && e'.nTx == e.nTx && e'.fConnected == e.fConnected
    && e'.nChainWork == e.work + parent.nChainWork
    && e'.nChainTx == (if e.nTx == 0 || parent.nChainTx == 0 then e.nChainTx else e.nTx + parent.nChainTx)
    && e'.status.valid == e.status.valid && e'.status.failedValid == e.status.failedValid
    && (e'.status.failedChild <==> e.status.failedChild || parent.status.failedValid || parent.status.failedChild)
  }

  /** The genesis block: it is connected and good whatever was noted before. */
  ghost predicate First(e: Index, e': Index) {
    && e'.pprev == e.pprev && e'.work == e.work && e'.nTx == e.nTx && e'.nChainTx == e.nChainTx
    && e'.fConnected && e'.nChainWork == e.work
    && e'.status.valid == 3 && !e'.status.failedValid && !e'.status.failedChild
  }

  /** In the index that linking leaves, a linked block names its parent and carries on what the parent has there. */
  lemma LinkedChild(x: Input, index: map<Hash, Index>, depth: map<Hash, nat>, h: Hash)
    requires x.Valid() && Done(x, index, depth) && Grounded(x, depth) && h in depth
    ensures LinkedIn(x, index, h)
  {
    var e := x.index[h];
    if x.prev[h] == 0 {
      assert index[h] == Started(e);
    } else {
      LinkedUnder(x, index, depth, h);
      AttachedChild(e, x.prev[h], index[x.prev[h]]);
    }
  }

  lemma AttachedChild(e: Index, hashPrev: Hash, parent: Index)
    ensures Child(e, Attached(e, hashPrev, parent), hashPrev, parent)
  {
  }

  /** A linked block is attached to its parent as the index has it. */
  lemma LinkedUnder(x: Input, index: map<Hash, Index>, depth: map<Hash, nat>, h: Hash)
    requires x.Valid() && Done(x, index, depth) && Grounded(x, depth) && h in depth && x.Rooted(h, depth[h]) && x.prev[h] != 0
    ensures x.prev[h] in index && index[h] == Attached(x.index[h], x.prev[h], index[x.prev[h]])
  {
    var g := x.prev[h];
    if depth[h] == 0 {
      assert g !in depth;
    } else {
      RootedOnce(x, g, depth[h] - 1, depth[g]);
      assert index[g] == x.Linked(g, depth[g]);
    }
  }

  /** A linked block as the index has it, beside its parent there. */
  ghost predicate LinkedIn(x: Input, index: map<Hash, Index>, h: Hash) {
    && h in x.prev && h in index && h in x.index
    && if x.prev[h] == 0 then First(x.index[h], index[h])
       else x.prev[h] in index && Child(x.index[h], index[h], x.prev[h], index[x.prev[h]])
  }

  lemma AllLinkedIn(x: Input, index: map<Hash, Index>, depth: map<Hash, nat>)
    requires x.Valid() && Done(x, index, depth) && Grounded(x, depth)
    ensures forall h :: h in depth ==> LinkedIn(x, index, h)
  {
    forall h | h in depth ensures LinkedIn(x, index, h) {
      LinkedChild(x, index, depth, h);
    }
  }

  /** The parents of linked blocks that are no roots are linked. */
  ghost predicate Grounded(x: Input, depth: map<Hash, nat>) {
    forall h :: h in depth && depth[h] > 0 ==> h in x.prev && x.prev[h] in depth
  }

  /** The blocks met by following the parent links of an index n times. */
  ghost function Walk(index: map<Hash, Index>, h: Hash, n: nat): seq<Hash>
    decreases n
  {
    if n == 0 || h !in index then [h] else [h] + Walk(index, index[h].pprev, n - 1)
  }

  /** Following the parent links of a linked block leads down its path to its root. */
  lemma {:induction false} WalkIsPath(x: Input, index: map<Hash, Index>, depth: map<Hash, nat>, h: Hash)
    requires x.Valid() && Done(x, index, depth) && Grounded(x, depth) && h in depth
    ensures x.Rooted(h, depth[h]) && Walk(index, h, depth[h]) == x.Path(h, depth[h])
    decreases depth[h]
  {
    if depth[h] > 0 {
      var g := x.prev[h];
      LinkedUnder(x, index, depth, h);
      RootedOnce(x, g, depth[h] - 1, depth[g]);
      WalkIsPath(x, index, depth, g);
    }
  }

  ghost function TotalTx(index: map<Hash, Index>, p: seq<Hash>): nat
    requires forall i :: 0 <= i < |p| ==> p[i] in index
  {
    if p == [] then 0 else index[p[0]].nTx + TotalTx(index, p[1..])
  }

  /** Under a counted parent, the transactions of a block whose path has no empty block are counted along the path. */
  lemma {:induction false} ChainTxIsSum(x: Input, h: Hash, n: nat)
    requires x.Valid() && x.Rooted(h, n) && forall i :: 0 <= i <= n ==> x.index[x.Path(h, n)[i]].nTx != 0
    requires var root := x.Path(h, n)[n];
             root in x.prev && x.prev[root] != 0 && x.prev[root] in x.index && x.index[x.prev[root]].nChainTx != 0
    ensures x.Linked(h, n).nChainTx == TotalTx(x.index, x.Path(h, n)) + x.index[x.prev[x.Path(h, n)[n]]].nChainTx
    decreases n
  {
    var p := x.Path(h, n);
    if n == 0 {
      assert TotalTx(x.index, [h]) == x.index[h].nTx + TotalTx(x.index, [h][1..]);
      assert p[0] == h;
    } else {
      var q := x.Path(x.prev[h], n - 1);
      assert p[1..] == q && p[0] == h && p[n] == q[n - 1];
      forall i | 0 <= i <= n - 1 ensures x.index[q[i]].nTx != 0 {
        assert q[i] == p[i + 1];
      }
      ChainTxIsSum(x, x.prev[h], n - 1);
    }
  }

  // ---------------------------------------------------------------- the work list

  ghost predicate Distinct<T(!new)>(s: seq<T>) {
    forall i, j :: 0 <= i < j < |s| ==> s[i] != s[j]
  }

  /** depth holds the blocks linked so far, each with its distance from its root. */
  ghost predicate Listed(x: Input, orphans: map<Hash, Hash>, todo: seq<Hash>, depth: map<Hash, nat>) {
    && Distinct(todo)
    && (forall h :: h in orphans ==> h in x.prev && orphans[h] == x.prev[h])
    && (forall h :: h in todo ==> h in orphans)
    && (forall h :: h in orphans ==> (h in todo <==> x.Starts(h) || x.prev[h] in depth))
    && (forall h :: h in depth ==> h in x.prev && h !in orphans)
    && (forall h :: h in x.prev && h !in orphans && h !in depth ==> x.Starts(h) && !x.Root(h))
    && (forall h :: h in depth && depth[h] > 0 ==> x.prev[h] in depth)
  }

  ghost predicate Done(x: Input, index: map<Hash, Index>, depth: map<Hash, nat>)
    requires x.Valid()
  {
    && (forall h :: h in index <==> h in x.index)
    && (forall h :: h in depth ==> h in index && x.Rooted(h, depth[h]) && index[h] == x.Linked(h, depth[h]))
    && (forall h :: h in index && h !in depth ==> index[h] == x.index[h])
  }

  /** The distance from its root of the block at the front of the work list. */
  ghost function Depth(x: Input, depth: map<Hash, nat>, h: Hash): nat
    requires h in x.prev && (x.Starts(h) || x.prev[h] in depth)
  {
    if x.Starts(h) then 0 else depth[x.prev[h]] + 1
  }

  lemma LinkedIs(x: Input, index: map<Hash, Index>, depth: map<Hash, nat>, h: Hash)
    requires x.Valid() && Done(x, index, depth) && h in x.prev && h !in depth
    requires forall k :: k in depth ==> k in x.prev
    requires x.Root(h) || (!x.Starts(h) && x.prev[h] in depth)
    ensures h in index && (x.prev[h] != 0 ==> x.prev[h] in index) && x.Rooted(h, Depth(x, depth, h))
    ensures x.Linked(h, Depth(x, depth, h)) ==
              if x.prev[h] == 0 then Started(index[h]) else Attached(index[h], x.prev[h], index[x.prev[h]])
  {
    if x.Root(h) {
      assert x.prev[h] !in depth;
    }
  }

  lemma DoneStep(x: Input, index: map<Hash, Index>, depth: map<Hash, nat>, h: Hash, n: nat)
    requires x.Valid() && Done(x, index, depth) && x.Rooted(h, n)
    ensures Done(x, index[h := x.Linked(h, n)], depth[h := n])
  {
  }

  lemma Queued(todo: seq<Hash>, kids: seq<Hash>)
    requires todo != [] && Distinct(todo) && Distinct(kids) && forall k :: k in kids ==> k !in todo
    ensures Distinct(todo[1..] + kids)
    ensures forall k :: k in todo[1..] + kids <==> (k in todo && k != todo[0]) || k in kids
  {
    assert todo == [todo[0]] + todo[1..];
    var s := todo[1..] + kids;
    forall i, j | 0 <= i < j < |s| ensures s[i] != s[j] {
      if i < |todo| - 1 {
        assert s[i] == todo[i + 1];
        if j >= |todo| - 1 {
          assert s[j] in kids;
        }
      }
    }
  }

  lemma Enlisting(x: Input, orphans: map<Hash, Hash>, todo: seq<Hash>, depth: map<Hash, nat>, n: nat, kids: seq<Hash>)
    requires x.Valid() && Listed(x, orphans, todo, depth) && todo != [] && todo[0] != 0 && Distinct(kids)
    requires x.Starts(todo[0]) ==> x.Root(todo[0])
    requires (n > 0 ==> x.prev[todo[0]] in depth) && x.Rooted(todo[0], n)
    requires forall k :: k in kids <==> k in orphans && k != todo[0] && orphans[k] == todo[0]
    ensures Listed(x, orphans - {todo[0]}, todo[1..] + kids, depth[todo[0] := n])
  {
    var h := todo[0];
    assert h in orphans;
    forall k | k in kids ensures k !in todo {
      assert k in orphans && x.prev[k] == h;
    }
    Queued(todo, kids);
  }

  lemma Skipping(x: Input, orphans: map<Hash, Hash>, todo: seq<Hash>, depth: map<Hash, nat>)
    requires Listed(x, orphans, todo, depth) && todo != [] && x.Starts(todo[0]) && !x.Root(todo[0])
    ensures Listed(x, orphans - {todo[0]}, todo[1..], depth)
  {
    assert todo[0] in orphans;
    Queued(todo, []);
    assert todo[1..] + [] == todo[1..];
  }

  /** When the work list is empty every block that is rooted has been linked. */
  lemma {:induction false} AllLinked(x: Input, orphans: map<Hash, Hash>, depth: map<Hash, nat>, h: Hash, n: nat)
    requires Listed(x, orphans, [], depth) && x.Rooted(h, n)
    ensures h in depth
    decreases n
  {
    if n > 0 {
      AllLinked(x, orphans, depth, x.prev[h], n - 1);
    }
  }

  // ---------------------------------------------------------------- the operation

  /** The blocks among those linked that the active chain may be chosen from. */
  ghost function Candidates(index: map<Hash, Index>, depth: map<Hash, nat>): set<Hash> {
    set h | h in depth && h in index && Candidate(index[h])
  }

  /** A linked block is a candidate exactly if nothing on its way has failed and its header was checked. */
  lemma CandidatesClean(x: Input, index: map<Hash, Index>, depth: map<Hash, nat>, h: Hash)
    requires x.Valid() && Done(x, index, depth) && h in depth
    ensures h in Candidates(index, depth) <==>
              !Tainted(x, h, depth[h]) && (x.prev[h] != 0 ==> x.index[h].status.valid >= 2)
  {
    FailureInherited(x, h, depth[h]);
  }

  lemma CandidatesStep(index: map<Hash, Index>, depth: map<Hash, nat>, h: Hash, e: Index, n: nat)
    requires h !in depth
    ensures Candidates(index[h := e], depth[h := n]) == Candidates(index, depth) + (if Candidate(e) then {h} else {})
  {
  }

  // ---------------------------------------------------------------- sequence numbers

  /** The blocks of a set have got the numbers after n0, parents before their children. */
  ghost predicate Numbered(prev: map<Hash, Hash>, cs: set<Hash>, sequence: map<Hash, nat>, n0: nat, n: nat) {
    && n == n0 + |cs|
    && (forall h :: h in cs ==> h in sequence && n0 < sequence[h] <= n)
    && (forall g, h :: g in cs && h in cs && g != h ==> sequence[g] != sequence[h])
    && (forall h :: h in cs && h in prev && prev[h] in cs ==> sequence[prev[h]] < sequence[h])
  }

  /** Blocks that are not numbered now keep what they had. */
  ghost predicate Unnumbered(cs: set<Hash>, sequence0: map<Hash, nat>, sequence: map<Hash, nat>) {
    && (forall h :: h in sequence0 ==> h in sequence)
    && (forall h :: h in sequence && h !in cs ==> h in sequence0 && sequence[h] == sequence0[h])
  }

  lemma NumberedStep(prev: map<Hash, Hash>, cs: set<Hash>, sequence0: map<Hash, nat>, sequence: map<Hash, nat>, n0: nat, n: nat, h: Hash)
    requires Numbered(prev, cs, sequence, n0, n) && Unnumbered(cs, sequence0, sequence) && h !in cs
    requires (forall k :: k in cs && k in prev ==> prev[k] != h) && (h in prev ==> prev[h] != h)
    ensures Numbered(prev, cs + {h}, sequence[h := n + 1], n0, n + 1) && Unnumbered(cs + {h}, sequence0, sequence[h := n + 1])
  {
  }

  /** No block linked so far has h as its parent. */
  ghost predicate Childless(x: Input, depth: map<Hash, nat>, h: Hash) {
    forall k :: k in depth && k in x.prev ==> x.prev[k] != h
  }

  lemma NotYetParent(x: Input, orphans: map<Hash, Hash>, todo: seq<Hash>, depth: map<Hash, nat>, index: map<Hash, Index>, h: Hash, n: nat)
    requires x.Valid() && Listed(x, orphans, todo, depth) && Done(x, index, depth) && h !in depth && x.Rooted(h, n)
    ensures Childless(x, depth, h)
  {
    forall k | k in depth && k in x.prev ensures x.prev[k] != h {
      assert x.Rooted(k, depth[k]);
    }
  }

  // ---------------------------------------------------------------- the best invalid block

  /** A block is linked under a parent that has failed. */
  ghost predicate UnderFailed(x: Input, h: Hash, n: nat)
    requires x.Valid() && x.Rooted(h, n)
  {
    x.prev[h] != 0 && if n == 0 then x.index[x.prev[h]].status.Failed() else x.Linked(x.prev[h], n - 1).status.Failed()
  }

  /** best is best0 or a block linked under a failed parent, and has the most work of all these. */
  ghost predicate BestOf(x: Input, index: map<Hash, Index>, depth: map<Hash, nat>, best0: Hash, best: Hash)
    requires x.Valid() && Done(x, index, depth)
  {
    && (best != 0 ==> best in index)
    && (best == best0 || (best in depth && UnderFailed(x, best, depth[best])))
    && (best0 != 0 ==> best != 0 && best0 in index && index[best].nChainWork >= index[best0].nChainWork)
    && (forall h :: h in depth && UnderFailed(x, h, depth[h]) ==> best != 0 && index[best].nChainWork >= index[h].nChainWork)
  }

  lemma BestStep(x: Input, index: map<Hash, Index>, depth: map<Hash, nat>, best0: Hash, best: Hash, h: Hash, n: nat)
    requires x.Valid() && Done(x, index, depth) && BestOf(x, index, depth, best0, best) && h !in depth && x.Rooted(h, n)
    requires h != 0 && best0 !in x.prev
    ensures var index', depth' := index[h := x.Linked(h, n)], depth[h := n];
            Done(x, index', depth') &&
            BestOf(x, index', depth', best0,
                   if UnderFailed(x, h, n) && (best == 0 || x.Linked(h, n).nChainWork > index[best].nChainWork) then h else best)
  {
    DoneStep(x, index, depth, h, n);
  }

  // ---------------------------------------------------------------- the operation

  /** What the operation has written so far. */
  datatype Found = Found(index: map<Hash, Index>, valid: set<Hash>, best: Hash, sequence: map<Hash, nat>, counter: nat)

  /** What has been written from f0 on, the blocks of depth having been linked. */
  ghost predicate FoundOk(x: Input, f0: Found, f: Found, depth: map<Hash, nat>)
    requires x.Valid()
  {
    && Done(x, f.index, depth) && BestOf(x, f.index, depth, f0.best, f.best)
    && NumbersOk(x.prev, Candidates(f.index, depth), f0, f)
  }

  /** How far the linking has come. */
  ghost predicate Progress(x: Input, f0: Found, f: Found, orphans: map<Hash, Hash>, todo: seq<Hash>, depth: map<Hash, nat>) {
    x.Valid() && f0.best !in x.prev && Listed(x, orphans, todo, depth) && FoundOk(x, f0, f, depth)
  }

  /** What the front of the work list becomes. */
  function Front(index: map<Hash, Index>, h: Hash, hashPrev: Hash): Index
    requires h in index && (hashPrev != 0 ==> hashPrev in index)
  {
    if hashPrev == 0 then Started(index[h]) else Attached(index[h], hashPrev, index[hashPrev])
  }

  /** What linking the front block writes. */
  function Written(f: Found, h: Hash, hashPrev: Hash): Found
    requires h in f.index && (hashPrev != 0 ==> hashPrev in f.index) && (f.best != 0 ==> f.best in f.index)
  {
    var e := Front(f.index, h, hashPrev);
    var worse := hashPrev != 0 && f.index[hashPrev].status.Failed() && (f.best == 0 || e.nChainWork > f.index[f.best].nChainWork);
    Found(f.index[h := e],
          (if Candidate(e) then f.valid + {h} else f.valid),
          (if worse then h else f.best),
          (if Candidate(e) then f.sequence[h := f.counter + 1] else f.sequence),
          if Candidate(e) then f.counter + 1 else f.counter)
  }

  /** The front block and its parent are known. */
  ghost predicate FrontOk(x: Input, f: Found, orphans: map<Hash, Hash>, h: Hash) {
    && h in orphans && h in x.prev && orphans[h] == x.prev[h] && h in f.index && h != 0
    && (orphans[h] != 0 ==> orphans[h] in f.index) && (f.best != 0 ==> f.best in f.index)
  }

  lemma FrontKnown(x: Input, f0: Found, f: Found, orphans: map<Hash, Hash>, todo: seq<Hash>, depth: map<Hash, nat>)
    requires Progress(x, f0, f, orphans, todo, depth) && todo != []
    ensures var h := todo[0];
            FrontOk(x, f, orphans, h) && (x.Starts(h) && !x.Root(h) <==> orphans[h] == 0 && h != x.genesis)
  {
    var h := todo[0];
    assert h in orphans;
    if x.prev[h] != 0 {
      LinkedIs(x, f.index, depth, h);
    }
  }

  /** The failure of the parent, as it was before or as linking left it. */
  lemma ParentFailed(x: Input, index: map<Hash, Index>, depth: map<Hash, nat>, h: Hash)
    requires x.Valid() && Done(x, index, depth) && h in x.prev && h !in depth
    requires forall k :: k in depth ==> k in x.prev
    requires x.Root(h) || (!x.Starts(h) && x.prev[h] in depth)
    requires x.prev[h] != 0 ==> x.prev[h] in index
    requires x.Rooted(h, Depth(x, depth, h))
    ensures UnderFailed(x, h, Depth(x, depth, h)) <==> x.prev[h] != 0 && index[x.prev[h]].status.Failed()
  {
    if x.Root(h) {
      assert x.prev[h] !in depth;
    }
  }

  /** The candidates and their numbers. */
  ghost predicate NumbersOk(prev: map<Hash, Hash>, cs: set<Hash>, f0: Found, f: Found) {
    f.valid == f0.valid + cs && Numbered(prev, cs, f.sequence, f0.counter, f.counter) && Unnumbered(cs, f0.sequence, f.sequence)
  }

  lemma NumbersStep(prev: map<Hash, Hash>, cs: set<Hash>, f0: Found, f: Found, f': Found, h: Hash)
    requires NumbersOk(prev, cs, f0, f) && h !in cs && (h in prev ==> prev[h] != h) && forall k :: k in cs && k in prev ==> prev[k] != h
    requires f'.valid == f.valid + {h} && f'.sequence == f.sequence[h := f.counter + 1] && f'.counter == f.counter + 1
    ensures NumbersOk(prev, cs + {h}, f0, f')
  {
    NumberedStep(prev, cs, f0.sequence, f.sequence, f0.counter, f.counter, h);
  }

  lemma CandidatesChildless(x: Input, index: map<Hash, Index>, depth: map<Hash, nat>, h: Hash)
    requires Childless(x, depth, h) && h !in depth
    ensures h !in Candidates(index, depth) && forall k :: k in Candidates(index, depth) && k in x.prev ==> x.prev[k] != h
  {
  }

  lemma NumbersNext(x: Input, f0: Found, f: Found, f': Found, cs: set<Hash>, cs': set<Hash>, h: Hash, e: Index)
    requires NumbersOk(x.prev, cs, f0, f) && h !in cs && h in x.prev && x.prev[h] != h
    requires forall k :: k in cs && k in x.prev ==> x.prev[k] != h
    requires cs' == cs + if Candidate(e) then {h} else {}
    requires f'.valid == (if Candidate(e) then f.valid + {h} else f.valid)
    requires f'.sequence == (if Candidate(e) then f.sequence[h := f.counter + 1] else f.sequence)
    requires f'.counter == if Candidate(e) then f.counter + 1 else f.counter
    ensures NumbersOk(x.prev, cs', f0, f')
  {
    if Candidate(e) {
      NumbersStep(x.prev, cs, f0, f, f', h);
    } else {
      assert cs' == cs;
    }
  }

  /** From f to f', h has been linked as e. */
  ghost predicate WrittenTo(f: Found, f': Found, h: Hash, e: Index, worst: bool) {
    && f'.index == f.index[h := e] && f'.best == (if worst then h else f.best)
    && f'.valid == (if Candidate(e) then f.valid + {h} else f.valid)
    && f'.sequence == (if Candidate(e) then f.sequence[h := f.counter + 1] else f.sequence)
    && f'.counter == if Candidate(e) then f.counter + 1 else f.counter
  }

  lemma WrittenIs(f: Found, f': Found, h: Hash, hashPrev: Hash, e: Index, failed: bool)
    requires h in f.index && (hashPrev != 0 ==> hashPrev in f.index) && (f.best != 0 ==> f.best in f.index)
    requires f' == Written(f, h, hashPrev) && e == Front(f.index, h, hashPrev)
    requires failed <==> hashPrev != 0 && f.index[hashPrev].status.Failed()
    ensures WrittenTo(f, f', h, e, failed && (f.best == 0 || e.nChainWork > f.index[f.best].nChainWork))
  {
  }

  lemma NumbersPart(x: Input, f0: Found, f: Found, f': Found, depth: map<Hash, nat>, h: Hash, n: nat, e: Index, worst: bool)
    requires NumbersOk(x.prev, Candidates(f.index, depth), f0, f) && WrittenTo(f, f', h, e, worst)
    requires h !in depth && h in x.prev && x.prev[h] != h && Childless(x, depth, h)
    ensures NumbersOk(x.prev, Candidates(f'.index, depth[h := n]), f0, f')
  {
    CandidatesStep(f.index, depth, h, e, n);
    CandidatesChildless(x, f.index, depth, h);
    NumbersNext(x, f0, f, f', Candidates(f.index, depth), Candidates(f'.index, depth[h := n]), h, e);
  }

  lemma FoundStep(x: Input, f0: Found, f: Found, f': Found, depth: map<Hash, nat>, h: Hash, n: nat, worst: bool)
    requires x.Valid() && f0.best !in x.prev && FoundOk(x, f0, f, depth)
    requires h != 0 && h !in depth && x.Rooted(h, n) && x.prev[h] != h && Childless(x, depth, h)
    requires worst <==> UnderFailed(x, h, n) && (f.best == 0 || x.Linked(h, n).nChainWork > f.index[f.best].nChainWork)
    requires WrittenTo(f, f', h, x.Linked(h, n), worst)
    ensures FoundOk(x, f0, f', depth[h := n])
  {
    BestStep(x, f.index, depth, f0.best, f.best, h, n);
    NumbersPart(x, f0, f, f', depth, h, n, x.Linked(h, n), worst);
  }

  /** A rooted block is not its own parent. */
  lemma OwnParent(x: Input, h: Hash, n: nat)
    requires x.Valid() && x.Rooted(h, n)
    ensures x.prev[h] != h
  {
    if n > 0 && x.Rooted(h, n - 1) {
      RootedOnce(x, h, n, n - 1);
    }
  }

  lemma Advance(x: Input, f0: Found, f: Found, f': Found, orphans: map<Hash, Hash>, orphans': map<Hash, Hash>,
                todo: seq<Hash>, todo': seq<Hash>, depth: map<Hash, nat>, kids: seq<Hash>)
    returns (depth': map<Hash, nat>)
    requires Progress(x, f0, f, orphans, todo, depth) && todo != [] && Distinct(kids)
    requires FrontOk(x, f, orphans, todo[0]) && (x.Starts(todo[0]) ==> x.Root(todo[0]))
    requires forall k :: k in kids <==> k in orphans && k != todo[0] && orphans[k] == todo[0]
    requires f' == Written(f, todo[0], orphans[todo[0]]) && orphans' == orphans - {todo[0]} && todo' == todo[1..] + kids
    ensures Progress(x, f0, f', orphans', todo', depth')
    ensures depth' != map[]
  {
    var h := todo[0];
    var n := Depth(x, depth, h);
    depth' := depth[h := n];
    assert h in depth';
    LinkedIs(x, f.index, depth, h);
    ParentFailed(x, f.index, depth, h);
    NotYetParent(x, orphans, todo, depth, f.index, h, n);
    OwnParent(x, h, n);
    var worst := UnderFailed(x, h, n) && (f.best == 0 || x.Linked(h, n).nChainWork > f.index[f.best].nChainWork);
    WrittenIs(f, f', h, x.prev[h], x.Linked(h, n), UnderFailed(x, h, n));
    FoundStep(x, f0, f, f', depth, h, n, worst);
    Enlisting(x, orphans, todo, depth, n, kids);
  }

  class BlockTree {
    const hashGenesisBlock: Hash
    var mapBlockIndex: map<Hash, Index>
    /** The blocks that wait for their parent, each with the hash of that parent. */
    var mapOrphanBlocksByPrev: map<Hash, Hash>
    var setBlockIndexValid: set<Hash>
    /** The failed block with the most work, or 0. */
    var pindexBestInvalid: Hash
    /** The sequence numbers given out, and how many. */
    var sequence: map<Hash, nat>
    var nBlockSequenceId: nat

    ghost predicate Valid()
      reads this
    {
      && 0 !in mapBlockIndex && (forall h :: h in mapOrphanBlocksByPrev ==> h in mapBlockIndex)
      && (pindexBestInvalid != 0 ==> pindexBestInvalid in mapBlockIndex)
    }

    function Now(): Found
      reads this
    {
      Found(mapBlockIndex, setBlockIndexValid, pindexBestInvalid, sequence, nBlockSequenceId)
    }

    /** What there is to link: at load the blocks not connected yet. */
    ghost function Start(call: Call): (x: Input)
      reads this
    {
      Input(mapBlockIndex,
            (if call.AtLoad? then map h | h in mapOrphanBlocksByPrev && h in mapBlockIndex && !mapBlockIndex[h].fConnected :: mapOrphanBlocksByPrev[h]
             else mapOrphanBlocksByPrev),
            hashGenesisBlock, call)
    }

    constructor (genesis: Hash, index: map<Hash, Index>, prev: map<Hash, Hash>)
      requires 0 !in index && forall h :: h in prev ==> h in index
      ensures hashGenesisBlock == genesis && mapBlockIndex == index && mapOrphanBlocksByPrev == prev
      ensures Now() == Found(index, {}, 0, map[], 0) && Valid()
    {
      hashGenesisBlock, mapBlockIndex, mapOrphanBlocksByPrev, setBlockIndexValid := genesis, index, prev, {};
      pindexBestInvalid, sequence, nBlockSequenceId := 0, map[], 0;
    }

    /** Link every block that hangs on the genesis block or on a connected block, or on the given parent. */
    method LinkOrphans(call: Call, ghost rank: Hash -> nat) returns (fWorkDone: bool, ghost depth: map<Hash, nat>)
      requires Valid() && pindexBestInvalid !in mapOrphanBlocksByPrev && (call.Under? ==> Ranked(mapOrphanBlocksByPrev, rank))
      modifies this
      ensures Valid() && (fWorkDone <==> depth != map[])
      ensures var x := old(Start(call));
              && x.Valid()
              && (forall h, n :: x.Rooted(h, n) <==> h in depth && depth[h] == n)
              && (forall h :: h in mapOrphanBlocksByPrev <==> h in x.prev && h !in depth && !x.Starts(h))
              && FoundOk(x, old(Now()), Now(), depth)
              && forall h :: h in depth ==> LinkedIn(x, mapBlockIndex, h)
    {
      ghost var x, f0 := Start(call), Now();
      InputValid(x, rank);
      var vTodo := FirstOrphans(call);
      depth := map[];
      Begin(x, f0, mapOrphanBlocksByPrev, vTodo);
      fWorkDone := false;
      while vTodo != []
        invariant Progress(x, f0, Now(), mapOrphanBlocksByPrev, vTodo, depth)
        invariant fWorkDone <==> depth != map[]
        decreases mapOrphanBlocksByPrev.Keys
      {
        var work;
        work, vTodo, depth := LinkFront(x, f0, vTodo, depth);
        fWorkDone := fWorkDone || work;
      }
      Finished(x, mapBlockIndex, mapOrphanBlocksByPrev, depth);
      AllLinkedIn(x, mapBlockIndex, depth);
    }

    /** List the blocks to start from. */
    method FirstOrphans(call: Call) returns (vTodo: seq<Hash>)
      requires Valid() && Start(call).Valid()
      modifies `mapOrphanBlocksByPrev
      ensures mapOrphanBlocksByPrev == old(Start(call)).prev
      ensures Listed(old(Start(call)), mapOrphanBlocksByPrev, vTodo, map[])
    {
      match call
      case AtLoad => vTodo := FirstAtLoad();
      case Under(parent) =>
        vTodo := [];
        if parent == 0 || parent in mapBlockIndex {
          vTodo := Children(parent);
        }
    }

    /** Forget the connected blocks and list those without a parent hash or under a connected parent. */
    method FirstAtLoad() returns (vTodo: seq<Hash>)
      requires Valid()
      modifies `mapOrphanBlocksByPrev
      ensures mapOrphanBlocksByPrev == old(Start(AtLoad)).prev
      ensures Listed(old(Start(AtLoad)), mapOrphanBlocksByPrev, vTodo, map[])
    {
      vTodo := [];
      var todo := mapOrphanBlocksByPrev.Keys;
      while todo != {}
        invariant Valid() && todo <= mapOrphanBlocksByPrev.Keys
        invariant forall h :: h in mapOrphanBlocksByPrev <==> h in old(mapOrphanBlocksByPrev) && (h in todo || !mapBlockIndex[h].fConnected)
        invariant forall h :: h in mapOrphanBlocksByPrev ==> mapOrphanBlocksByPrev[h] == old(mapOrphanBlocksByPrev)[h]
        invariant Distinct(vTodo) && forall h :: h in vTodo <==> h in mapOrphanBlocksByPrev && h !in todo && Starts(h)
        decreases todo
      {
        var h :| h in todo;
        todo := todo - {h};
        if mapBlockIndex[h].fConnected {
          mapOrphanBlocksByPrev := mapOrphanBlocksByPrev - {h};
        } else if Starts(h) {
          vTodo := vTodo + [h];
        }
      }
    }

    predicate Starts(h: Hash)
      requires h in mapOrphanBlocksByPrev
      reads this
    {
      var hashPrev := mapOrphanBlocksByPrev[h];
      hashPrev == 0 || (hashPrev in mapBlockIndex && mapBlockIndex[hashPrev].fConnected)
    }

    /** Take the first block of the work list, link it to its parent and list its children. */
    method LinkFront(ghost x: Input, ghost f0: Found, vTodo: seq<Hash>, ghost depth: map<Hash, nat>)
      returns (work: bool, todo: seq<Hash>, ghost depth': map<Hash, nat>)
      requires vTodo != [] && x.genesis == hashGenesisBlock
      requires Progress(x, f0, Now(), mapOrphanBlocksByPrev, vTodo, depth)
      modifies this
      ensures Progress(x, f0, Now(), mapOrphanBlocksByPrev, todo, depth')
      ensures mapOrphanBlocksByPrev.Keys < old(mapOrphanBlocksByPrev.Keys)
      ensures if work then depth' != map[] else depth' == depth
    {
      FrontKnown(x, f0, Now(), mapOrphanBlocksByPrev, vTodo, depth);
      var h := vTodo[0];
      var hashPrev := mapOrphanBlocksByPrev[h];
      if hashPrev == 0 && h != hashGenesisBlock {
        Skipping(x, mapOrphanBlocksByPrev, vTodo, depth);
        mapOrphanBlocksByPrev := mapOrphanBlocksByPrev - {h};
        return false, vTodo[1..], depth;
      }
      work := true;
      todo, depth' := LinkOne(x, f0, vTodo, depth);
    }

    /** Link the first block of the work list, which is genesis or has a parent. */
    method LinkOne(ghost x: Input, ghost f0: Found, vTodo: seq<Hash>, ghost depth: map<Hash, nat>)
      returns (todo: seq<Hash>, ghost depth': map<Hash, nat>)
      requires vTodo != [] && FrontOk(x, Now(), mapOrphanBlocksByPrev, vTodo[0]) && (x.Starts(vTodo[0]) ==> x.Root(vTodo[0]))
      requires Progress(x, f0, Now(), mapOrphanBlocksByPrev, vTodo, depth)
      modifies this
      ensures Progress(x, f0, Now(), mapOrphanBlocksByPrev, todo, depth')
      ensures mapOrphanBlocksByPrev.Keys < old(mapOrphanBlocksByPrev.Keys) && depth' != map[]
    {
      var h := vTodo[0];
      var hashPrev := mapOrphanBlocksByPrev[h];
      ghost var f, orphans := Now(), mapOrphanBlocksByPrev;
      mapOrphanBlocksByPrev := mapOrphanBlocksByPrev - {h};
      var kids := Children(h);
      Attach(h, hashPrev);
      todo := vTodo[1..] + kids;
      depth' := Advance(x, f0, f, Now(), orphans, mapOrphanBlocksByPrev, vTodo, todo, depth, kids);
    }

    /** Write what linking changes of a block, of the best invalid block and of the candidates. */
    method Attach(h: Hash, hashPrev: Hash)
      requires h in mapBlockIndex && (hashPrev != 0 ==> hashPrev in mapBlockIndex)
      requires pindexBestInvalid != 0 ==> pindexBestInvalid in mapBlockIndex
      modifies `mapBlockIndex, `setBlockIndexValid, `pindexBestInvalid, `sequence, `nBlockSequenceId
      ensures Now() == Written(old(Now()), h, hashPrev)
    {
      var e := Front(mapBlockIndex, h, hashPrev);
      if hashPrev != 0 && mapBlockIndex[hashPrev].status.Failed() {
        if pindexBestInvalid == 0 || e.nChainWork > mapBlockIndex[pindexBestInvalid].nChainWork {
          pindexBestInvalid := h;
        }
      }
      mapBlockIndex := mapBlockIndex[h := e];
      if Candidate(e) {
        nBlockSequenceId := nBlockSequenceId + 1;
        sequence := sequence[h := nBlockSequenceId];
        setBlockIndexValid := setBlockIndexValid + {h};
      }
    }

    /** The orphans that wait for a block. */
    method Children(hashBlock: Hash) returns (kids: seq<Hash>)
      ensures Distinct(kids)
      ensures forall k :: k in kids <==> k in mapOrphanBlocksByPrev && mapOrphanBlocksByPrev[k] == hashBlock
    {
      kids := [];
      var todo := mapOrphanBlocksByPrev.Keys;
      while todo != {}
        invariant todo <= mapOrphanBlocksByPrev.Keys && Distinct(kids)
        invariant forall k :: k in kids <==> k in mapOrphanBlocksByPrev && k !in todo && mapOrphanBlocksByPrev[k] == hashBlock
        decreases todo
      {
        var k :| k in todo;
        todo := todo - {k};
        if mapOrphanBlocksByPrev[k] == hashBlock {
          kids := kids + [k];
        }
      }
    }
  }

  lemma Begin(x: Input, f0: Found, orphans: map<Hash, Hash>, todo: seq<Hash>)
    requires x.index == f0.index && x.Valid() && (f0.best != 0 ==> f0.best in f0.index) && f0.best !in x.prev
    requires Listed(x, orphans, todo, map[])
    ensures Progress(x, f0, f0, orphans, todo, map[])
  {
    assert Candidates(f0.index, map[]) == {};
  }

  lemma Finished(x: Input, index: map<Hash, Index>, orphans: map<Hash, Hash>, depth: map<Hash, nat>)
    requires x.Valid() && Listed(x, orphans, [], depth) && Done(x, index, depth)
    ensures forall h, n :: x.Rooted(h, n) <==> h in depth && depth[h] == n
    ensures forall h :: h in orphans <==> h in x.prev && h !in depth && !x.Starts(h)
  {
    forall h, n ensures x.Rooted(h, n) <==> h in depth && depth[h] == n {
      if x.Rooted(h, n) {
        AllLinked(x, orphans, depth, h, n);
        RootedOnce(x, h, n, depth[h]);
      }
    }
  }
}
