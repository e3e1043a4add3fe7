/** The node that keeps the transaction index; each of its operations is a step of the state machine. */
module TxIndexNode {
  import opened TxIndex
  import opened TxIndexSteps

  /** The checks of a block on its own; others is the verdict of those that do not bear on the transaction index. */
  method CheckBlock(b: Block, others: bool) returns (ok: bool)
    ensures ok <==> others && BlockOk(b)
  {
    if !others {
      return false;
    }
    if b.vtx == [] || (!(b.vtx[0].inputs == 1 && b.vtx[0].nullInput) && b.nHeight != 0) || b.vtx[0].nLockHeight != b.nHeight {
      return false;
    }
    if b.nHeight != 0 {
      for i := 0 to |b.vtx|
        invariant forall j :: 0 <= j < i ==> b.vtx[j].inputs != 0
      {
        if b.vtx[i].inputs == 0 {
          return false;
        }
      }
    }
    ok := CheckUnique(b.vtx);
  }

  /** The set of txids is as large as the list of transactions. */
  method CheckUnique(vtx: seq<Tx>) returns (ok: bool)
    ensures ok <==> Unique(vtx)
  {
    var uniqueTx: set<Tx> := {};
    for i := 0 to |vtx|
      invariant forall tx :: tx in uniqueTx <==> tx in vtx[..i]
      invariant |uniqueTx| <= i && (|uniqueTx| == i <==> Unique(vtx[..i]))
    {
      UniqueSnoc(vtx, i);
      if vtx[i] in uniqueTx {
        assert uniqueTx + {vtx[i]} == uniqueTx;
      }
      uniqueTx := uniqueTx + {vtx[i]};
    }
    assert vtx[..|vtx|] == vtx;
    ok := |uniqueTx| == |vtx|;
  }

  lemma UniqueSnoc(vtx: seq<Tx>, i: nat)
    requires i < |vtx|
    ensures Unique(vtx[..i + 1]) <==> Unique(vtx[..i]) && vtx[i] !in vtx[..i]
    ensures forall tx :: tx in vtx[..i + 1] <==> tx in vtx[..i] || tx == vtx[i]
  {
    assert vtx[..i + 1] == vtx[..i] + [vtx[i]];
  }

  class Node {
    const MIN_HISTORY: nat
    const GENESIS: nat
    var active: seq<Block>
    var known: map<nat, Entry>
    var files: set<nat>
    var txIndex: map<Tx, TxPos>
    ghost var purged: int
    /** The height of the sync point, or -1 if there is none. */
    var sync: int

    ghost function Abstract(): State
      reads this
    {
      State(active, known, files, txIndex, purged, sync)
    }

    ghost function Laws(): Rules {
      Rules(MIN_HISTORY, GENESIS)
    }

    constructor (minHistory: nat, genesis: Block)
      requires minHistory < 0x4000_0000_0000_0000 && GenesisOk(genesis)
      ensures MIN_HISTORY == minHistory && GENESIS == genesis.hash
      ensures Abstract() == Fresh(genesis) && Safe(Laws(), Abstract())
    {
      MIN_HISTORY, GENESIS := minHistory, genesis.hash;
      active, known := [genesis], map[genesis.hash := Entry(genesis, 0, false, false, false)];
      files, txIndex, purged, sync := {}, map[], 0, -1;
      new;
      FreshSafe(Laws(), genesis);
    }

    function Height(): int
      reads this
    {
      |active| - 1
    }

    /** Take in the data of a block whose predecessor is known and store it in a file. */
    method AcceptBlock(b: Block, nFile: nat, others: bool) returns (ok: bool)
      requires Base(Laws(), Abstract()) && MayAccept(Laws(), Abstract(), b)
      modifies `known, `files
      ensures Step(Laws(), old(Abstract()), Accept(b, nFile, others), Abstract()) && Base(Laws(), Abstract())
      ensures ok <==> others && BlockOk(b) && (FullyStored(old(known), b.hash) || Passes(Laws(), old(Abstract()), b))
    {
      ok := CheckBlock(b, others);
      if ok && !(b.hash in known && known[b.hash].haveData && known[b.hash].scripts) {
        ok := b.hash in known || sync < 0 || b.nHeight > sync;
        if ok {
          ok := Finalized(b);
        }
        if ok {
          known := known[b.hash := Entry(b, nFile, true, false, b.hash in known && known[b.hash].scripts)];
          files := files + {nFile};
        }
      }
      StepOk(Laws(), old(Abstract()), Accept(b, nFile, others), Abstract());
    }

    method Finalized(b: Block) returns (ok: bool)
      ensures ok <==> Finals(MIN_HISTORY, b, Height())
    {
      for i := 0 to |b.vtx|
        invariant forall j :: 0 <= j < i ==> IsFinalTx(MIN_HISTORY, b.vtx[j], b.nHeight, Height())
      {
        if !IsFinalTx(MIN_HISTORY, b.vtx[i], b.nHeight, Height()) {
          return false;
        }
      }
      ok := true;
    }

    /** The account trie applies a known block if it can read it and finds nothing wrong with it. */
    method ApplyBlock(hash: nat, others: bool) returns (ok: bool)
      requires Base(Laws(), Abstract())
      modifies `known
      ensures Step(Laws(), old(Abstract()), Apply(hash, others), Abstract()) && Base(Laws(), Abstract())
      ensures ok <==> others && hash in old(known) && old(known)[hash].haveData
    {
      ok := hash in known && known[hash].haveData && others;
      if ok {
        known := known[hash := known[hash].(haveUndo := true, scripts := true)];
      }
      StepOk(Laws(), old(Abstract()), Apply(hash, others), Abstract());
    }

    /** Put a known block, read from disk, on top of the active chain. */
    method ConnectTip(hash: nat, others: bool) returns (ok: bool)
      requires Base(Laws(), Abstract()) && hash in known
      modifies `active, `txIndex, `sync
      ensures Step(Laws(), old(Abstract()), Connect(hash, others), Abstract()) && Base(Laws(), Abstract())
      ensures ok <==> others && CanConnect(old(Abstract()), hash)
    {
      ok := known[hash].haveData;
      if ok {
        ok := ConnectBlock(hash, others);
        if ok {
          active := active + [known[hash].block];
          if sync >= 0 && sync + MIN_HISTORY < Height() && Height() > MIN_HISTORY {
            sync := Height() - MIN_HISTORY;
          }
        }
      }
      StepOk(Laws(), old(Abstract()), Connect(hash, others), Abstract());
    }

    /** Check a block against the tip and the index, and write it to the index if it passes. */
    method ConnectBlock(hash: nat, others: bool) returns (ok: bool)
      requires Base(Laws(), Abstract()) && hash in known && known[hash].haveData
      modifies `txIndex
      ensures ok <==> others && CanConnect(old(Abstract()), hash)
      ensures var b := known[hash].block;
              txIndex == if ok then old(txIndex) + Positions(b, |b.vtx|) else old(txIndex)
    {
      assert EntryOk(MIN_HISTORY, GENESIS, known, hash);
      var block := known[hash].block;
      var check := CheckBlock(block, others);
      var hashActive := if active == [] then 0 else active[|active| - 1].hash;
      ok := check && block.prev == hashActive && block.prev in known;
      if ok {
        ok := ConnectTxs(block);
      }
    }

    /** Check the transactions against the index, and if they pass write them to it. */
    method ConnectTxs(block: Block) returns (ok: bool)
      requires block.hash != GENESIS && forall i :: 0 <= i < |block.vtx| ==> block.vtx[i].inputs != 0
      modifies `txIndex
      ensures ok <==> forall tx :: tx in block.vtx && Spends(tx) ==> tx !in old(txIndex)
      ensures txIndex == if ok then old(txIndex) + Positions(block, |block.vtx|) else old(txIndex)
    {
      var vPos;
      ok, vPos := CheckTxs(block);
      if ok {
        WriteTxIndex(vPos, block);
      }
    }

    /** No transaction that spends may be in the index already. */
    method CheckTxs(block: Block) returns (ok: bool, vPos: seq<(Tx, TxPos)>)
      requires block.hash != GENESIS && forall i :: 0 <= i < |block.vtx| ==> block.vtx[i].inputs != 0
      ensures ok <==> forall tx :: tx in block.vtx && Spends(tx) ==> tx !in txIndex
      ensures ok ==> |vPos| == |block.vtx| && forall j :: 0 <= j < |vPos| ==> vPos[j] == (block.vtx[j], TxPos(block.hash, j))
    {
      var isGenesis := block.hash == GENESIS;
      vPos := [];
      for i := 0 to |block.vtx|
        invariant |vPos| == i && forall j :: 0 <= j < i ==> vPos[j] == (block.vtx[j], TxPos(block.hash, j))
        invariant forall j :: 0 <= j < i && Spends(block.vtx[j]) ==> block.vtx[j] !in txIndex
      {
        var tx := block.vtx[i];
        if !isGenesis && !(tx.inputs == 1 && tx.nullInput) && tx in txIndex {
          return false, vPos;
        }
        vPos := vPos + [(tx, TxPos(block.hash, i))];
      }
      ok := true;
    }

    method WriteTxIndex(vPos: seq<(Tx, TxPos)>, ghost block: Block)
      requires |vPos| == |block.vtx| && forall j :: 0 <= j < |vPos| ==> vPos[j] == (block.vtx[j], TxPos(block.hash, j))
      modifies `txIndex
      ensures txIndex == old(txIndex) + Positions(block, |block.vtx|)
    {
      for i := 0 to |vPos|
        invariant txIndex == old(txIndex) + Positions(block, i)
      {
        Merged(old(txIndex), Positions(block, i), vPos[i].0, vPos[i].1);
        txIndex := txIndex[vPos[i].0 := vPos[i].1];
      }
    }

    static lemma Merged(m: map<Tx, TxPos>, n: map<Tx, TxPos>, tx: Tx, pos: TxPos)
      ensures (m + n)[tx := pos] == m + n[tx := pos]
    {
    }

    /** Take the tip, read from disk, off the active chain. */
    method DisconnectTip() returns (ok: bool)
      requires Base(Laws(), Abstract())
      modifies `active, `txIndex
      ensures Step(Laws(), old(Abstract()), Disconnect, Abstract()) && Base(Laws(), Abstract())
      ensures ok <==> CanDisconnect(old(Abstract()))
    {
      ok := false;
      if active != [] {
        var tip := active[|active| - 1].hash;
        if tip in known && known[tip].haveData {
          ok := DisconnectBlock(known[tip].block, tip);
          active := active[..|active| - 1];
        }
      }
      StepOk(Laws(), old(Abstract()), Disconnect, Abstract());
    }

    /** Erase the index entries of a block that is the tip. */
    method DisconnectBlock(block: Block, hash: nat) returns (ok: bool)
      modifies `txIndex
      ensures ok <==> active != [] && hash == active[|active| - 1].hash
      ensures txIndex == if ok then old(txIndex) - Txids(block) else old(txIndex)
    {
      ok := active != [] && hash == active[|active| - 1].hash;
      if ok {
        EraseTxIndex(block);
      }
    }

    method EraseTxIndex(block: Block)
      modifies `txIndex
      ensures txIndex == old(txIndex) - Txids(block)
    {
      for i := 0 to |block.vtx|
        invariant txIndex == old(txIndex) - (set tx | tx in block.vtx[..i])
      {
        txIndex := txIndex - {block.vtx[i]};
      }
      assert block.vtx[..|block.vtx|] == block.vtx;
    }

    /** A synchronised trie becomes the sync point once the chain is a history length above it. */
    method SetSyncPoint(height: nat) returns (ok: bool)
      requires Base(Laws(), Abstract())
      modifies `sync
      ensures Step(Laws(), old(Abstract()), Settle(height), Abstract()) && Base(Laws(), Abstract())
      ensures ok <==> Height() >= height + MIN_HISTORY
    {
      ok := Height() >= height + MIN_HISTORY;
      if ok {
        sync := height;
      }
      StepOk(Laws(), old(Abstract()), Settle(height), Abstract());
    }

    // ---------------------------------------------------------------- purging

    /** Drop the blocks that have left the view with a whole file, their index entries, and the files not needed. */
    method PurgeDB(readable: set<nat>) returns (ok: bool)
      requires Base(Laws(), Abstract())
      modifies `known, `files, `txIndex, `purged
      ensures Step(Laws(), old(Abstract()), Purge(readable), Abstract()) && Base(Laws(), Abstract())
      ensures ok <==> Height() > MIN_HISTORY
      ensures forall h :: h in known && OnDisk(known[h]) ==> known[h].nFile in files
    {
      ok := Height() > MIN_HISTORY;
      if ok {
        Discard(readable);
      }
      StepOk(Laws(), old(Abstract()), Purge(readable), Abstract());
    }

    method Discard(readable: set<nat>)
      modifies `known, `files, `txIndex, `purged
      ensures Abstract() == Purged(MIN_HISTORY, old(Abstract()), readable)
    {
      var setNeed := FindNeeded();
      var setDelete := FindDroppable(setNeed);
      Drop(setDelete, readable);
      files := files * setNeed;
      purged := if Height() > purged then Height() else purged;
    }

    /** The files of the blocks in view. */
    method FindNeeded() returns (setNeed: set<nat>)
      ensures forall f :: f in setNeed <==> Needed(MIN_HISTORY, known, Height(), f)
    {
      setNeed := {};
      var todo := known.Keys;
      while todo != {}
        invariant todo <= known.Keys
        invariant forall f :: f in setNeed ==> Needed(MIN_HISTORY, known, Height(), f)
        invariant forall h :: h in known && h !in todo && InView(MIN_HISTORY, known[h], Height()) && OnDisk(known[h]) ==>
                    known[h].nFile in setNeed
        decreases |todo|
      {
        var h :| h in todo;
        todo := todo - {h};
        if known[h].block.nHeight + MIN_HISTORY >= Height() && (known[h].haveData || known[h].haveUndo) {
          setNeed := setNeed + {known[h].nFile};
        }
      }
    }

    /** The blocks out of view whose file is not needed. */
    method FindDroppable(setNeed: set<nat>) returns (setDelete: set<nat>)
      requires forall f :: f in setNeed <==> Needed(MIN_HISTORY, known, Height(), f)
      ensures setDelete == Dropped(MIN_HISTORY, known, Height())
    {
      setDelete := {};
      var todo := known.Keys;
      while todo != {}
        invariant todo <= known.Keys
        invariant forall h :: h in setDelete <==> h !in todo && Droppable(MIN_HISTORY, known, Height(), h)
        decreases |todo|
      {
        var h :| h in todo;
        todo := todo - {h};
        var far := known[h].block.nHeight + MIN_HISTORY < Height();
        if far && (known[h].haveData || known[h].haveUndo) && known[h].nFile !in setNeed {
          setDelete := setDelete + {h};
        }
      }
    }

    /** Erase the transactions of the blocks that can be read, and clear the flags of all of them. */
    method Drop(setDelete: set<nat>, readable: set<nat>)
      requires setDelete <= known.Keys
      modifies `known, `txIndex
      ensures known == ClearedIn(old(known), setDelete)
      ensures txIndex == old(txIndex) - Gone(old(known), setDelete, readable)
    {
      var todo := setDelete;
      ghost var done := {};
      while todo != {}
        invariant todo !! done && todo + done == setDelete
        invariant known == ClearedIn(old(known), done)
        invariant txIndex == old(txIndex) - Gone(old(known), done, readable)
        decreases |todo|
      {
        var h :| h in todo;
        todo := todo - {h};
        DropStep(old(known), done, h, readable, old(txIndex));
        if h in readable {
          EraseTxIndex(known[h].block);
        }
        known := known[h := known[h].(haveData := false, haveUndo := false)];
        done := done + {h};
      }
    }
  }

  /** Perform an operation, if its caller may ask for it. */
  method Perform(node: Node, op: Op)
    requires Base(node.Laws(), node.Abstract())
    modifies node
    ensures Step(node.Laws(), old(node.Abstract()), op, node.Abstract()) && Base(node.Laws(), node.Abstract())
  {
    var ok;
    match op
    case Accept(b, nFile, others) =>
      if MayAcceptNow(node, b) {
        ok := node.AcceptBlock(b, nFile, others);
      }
    case Apply(hash, others) =>
      ok := node.ApplyBlock(hash, others);
    case Connect(hash, others) =>
      if hash in node.known {
        ok := node.ConnectTip(hash, others);
      }
    case Disconnect =>
      ok := node.DisconnectTip();
    case Settle(height) =>
      ok := node.SetSyncPoint(height);
    case Purge(readable) =>
      ok := node.PurgeDB(readable);
  }

  predicate MayAcceptNow(node: Node, b: Block)
    reads node
  {
    && |node.active| < 0x8000_0000 && b.nHeight < 0x8000_0000 && b.hash != 0
    && if b.hash in node.known then node.known[b.hash].block == b
       else b.prev in node.known && b.nHeight == node.known[b.prev].block.nHeight + 1 && b.hash != node.GENESIS
  }

  /** Whatever operations a fresh node performs are a run of the state machine. */
  method Run(minHistory: nat, genesis: Block, ops: seq<Op>) returns (node: Node, ghost trace: seq<State>)
    requires minHistory < 0x4000_0000_0000_0000 && GenesisOk(genesis)
    ensures fresh(node) && Runs(Rules(minHistory, genesis.hash), trace, ops)
    ensures trace[0] == Fresh(genesis) && trace[|ops|] == node.Abstract()
    ensures High(trace) ==> OnceOnly(node.active)
  {
    node := new Node(minHistory, genesis);
    trace := [node.Abstract()];
    for n := 0 to |ops|
      invariant fresh(node) && node.Laws() == Rules(minHistory, genesis.hash) && Base(node.Laws(), node.Abstract())
      invariant Runs(node.Laws(), trace, ops[..n]) && trace[0] == Fresh(genesis) && trace[n] == node.Abstract()
    {
      Perform(node, ops[n]);
      RunsThen(node.Laws(), trace, ops[..n], ops[n], node.Abstract());
      assert ops[..n] + [ops[n]] == ops[..n + 1];
      trace := trace + [node.Abstract()];
    }
    assert ops[..|ops|] == ops;
    if High(trace) {
      NeverTwice(minHistory, genesis, trace, ops, |ops|);
    }
  }
}
