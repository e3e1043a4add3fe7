/**
 * The transaction index beside the active chain: blocks are accepted, connected, disconnected, and old
 * data is purged. The window in which a transaction may be included keeps it from being included twice.
 */
module TxIndex {

  const TWO63 := 0x8000_0000_0000_0000
  const TWO64 := 0x1_0000_0000_0000_0000

  type U64 = x: nat | x < TWO64

  /** A transaction is named by the hash of all of it but its signatures, so the name fixes these fields. */
  datatype Tx = Tx(nonce: nat, nLockHeight: U64, inputs: nat, nullInput: bool)

  ghost predicate IsCoinBase(tx: Tx) {
    tx.inputs == 1 && tx.nullInput
  }

  /** Neither a coinbase nor the transaction of the genesis block, which alone has no input. */
  ghost predicate Spends(tx: Tx) {
    !IsCoinBase(tx) && tx.inputs != 0
  }

  /** The hash of a block fixes the rest of it. */
  datatype Block = Block(hash: nat, prev: nat, nHeight: nat, vtx: seq<Tx>)

  /** What the block index says about a block; scripts is set once the account trie has applied it. */
  datatype Entry = Entry(block: Block, nFile: nat, haveData: bool, haveUndo: bool, scripts: bool)

  datatype TxPos = TxPos(hashBlock: nat, nTxOffset: nat)

  // ---------------------------------------------------------------- the inclusion window

  function ToInt64(x: U64): int {
    if x < TWO63 then x else x - TWO64
  }

  predicate IsFinalTx(minHistory: nat, tx: Tx, nBlockHeight: int, chainHeight: int) {
    var h := if nBlockHeight == 0 then chainHeight else nBlockHeight;
    var height := if h < 0 then 0 else h;
    ToInt64(tx.nLockHeight) <= height && ToInt64((tx.nLockHeight + minHistory) % TWO64) >= height
  }

  /** The lock height read as a signed number. */
  ghost function LockHeight(tx: Tx): int {
    if tx.nLockHeight < 0x8000_0000_0000_0000 then tx.nLockHeight else tx.nLockHeight - 0x1_0000_0000_0000_0000
  }

  /** The heights at which a transaction may stand. */
  ghost predicate InWindow(minHistory: nat, tx: Tx, height: int) {
    LockHeight(tx) <= height <= LockHeight(tx) + minHistory
  }

  /** The wrap-around of the sum never matters: the two comparisons are the window. */
  lemma FinalWindow(minHistory: nat, tx: Tx, nBlockHeight: int, chainHeight: int)
    requires minHistory < 0x4000_0000_0000_0000 && nBlockHeight < 0x8000_0000 && chainHeight < 0x8000_0000
    ensures var h := if nBlockHeight == 0 then chainHeight else nBlockHeight;
            IsFinalTx(minHistory, tx, nBlockHeight, chainHeight) <==> InWindow(minHistory, tx, if h < 0 then 0 else h)
  {
    var sum := tx.nLockHeight + minHistory;
    if sum >= TWO64 {
      assert sum % TWO64 == sum - TWO64;
    }
  }

  /** Too old to be included at a height or above it. */
  ghost predicate Expired(minHistory: nat, tx: Tx, height: int) {
    LockHeight(tx) + minHistory < height
  }

  // ---------------------------------------------------------------- invariants

  ghost predicate Unique(vtx: seq<Tx>) {
    forall i, j :: 0 <= i < j < |vtx| ==> vtx[i] != vtx[j]
  }

  /** What is asked of a block on its own. */
  ghost predicate BlockOk(b: Block) {
    && b.vtx != [] && b.vtx[0].nLockHeight == b.nHeight && Unique(b.vtx)
    && (b.nHeight != 0 ==> IsCoinBase(b.vtx[0]) && forall i :: 0 <= i < |b.vtx| ==> b.vtx[i].inputs != 0)
  }

  ghost predicate AllFinal(minHistory: nat, b: Block) {
    forall tx :: tx in b.vtx ==> InWindow(minHistory, tx, b.nHeight)
  }

  ghost predicate EntryOk(minHistory: nat, genesis: nat, known: map<nat, Entry>, h: nat)
    requires h in known
  {
    var b := known[h].block;
    && b.hash == h && BlockOk(b) && AllFinal(minHistory, b)
    && (b.nHeight == 0 <==> h == genesis)
    && (h == genesis ==> b.prev == 0)
    && (h != genesis ==> b.prev in known && b.nHeight == known[b.prev].block.nHeight + 1)
  }

  ghost predicate KnownOk(minHistory: nat, genesis: nat, known: map<nat, Entry>) {
    0 !in known && forall h {:trigger EntryOk(minHistory, genesis, known, h)} :: h in known ==> EntryOk(minHistory, genesis, known, h)
  }

  /** Blocks that claim to be on disk are in a file that is there. */
  ghost predicate FilesOk(known: map<nat, Entry>, files: set<nat>) {
    forall h :: h in known && (known[h].haveData || known[h].haveUndo) ==> known[h].nFile in files
  }

  ghost predicate ActiveOk(known: map<nat, Entry>, active: seq<Block>) {
    forall k :: 0 <= k < |active| ==>
      active[k].hash in known && known[active[k].hash].block == active[k] && active[k].nHeight == k
  }

  ghost predicate Stands(active: seq<Block>, tx: Tx, pos: TxPos) {
    exists k :: 0 <= k < |active| && active[k].hash == pos.hashBlock
                && pos.nTxOffset < |active[k].vtx| && active[k].vtx[pos.nTxOffset] == tx
  }

  /** Every index entry gives the place of its transaction in an active block. */
  ghost predicate Sound(active: seq<Block>, txIndex: map<Tx, TxPos>) {
    forall tx :: tx in txIndex ==> Stands(active, tx, txIndex[tx])
  }

  /** tx is one of the transactions of the block at height k that were checked against the index. */
  ghost predicate Holds(active: seq<Block>, k: nat, tx: Tx) {
    k < |active| && tx in active[k].vtx && Spends(tx)
  }

  /** Every active transaction that could be included again is in the index. */
  ghost predicate Complete(minHistory: nat, active: seq<Block>, txIndex: map<Tx, TxPos>, purged: int) {
    forall k, tx :: Holds(active, k, tx) ==> tx in txIndex || Expired(minHistory, tx, purged)
  }

  /** No checked transaction is in two active blocks. */
  ghost predicate NoReplay(active: seq<Block>) {
    forall j, k, tx :: Holds(active, j, tx) && Holds(active, k, tx) ==> j == k
  }

  /** Nothing but a coinbase that is not the first transaction of its block is in two active blocks. */
  lemma NoTwice(minHistory: nat, genesis: nat, known: map<nat, Entry>, active: seq<Block>, j: nat, i: nat, k: nat, l: nat)
    requires KnownOk(minHistory, genesis, known) && ActiveOk(known, active) && NoReplay(active)
    requires j < |active| && k < |active| && i < |active[j].vtx| && l < |active[k].vtx|
    requires active[j].vtx[i] == active[k].vtx[l] && (!IsCoinBase(active[j].vtx[i]) || (i == 0 && l == 0))
    ensures j == k && i == l
  {
    var tx := active[j].vtx[i];
    assert EntryOk(minHistory, genesis, known, active[j].hash);
    assert EntryOk(minHistory, genesis, known, active[k].hash);
    if Spends(tx) {
      assert Holds(active, j, tx) && Holds(active, k, tx);
    }
  }

  // ---------------------------------------------------------------- what each step does to the index

  ghost function Positions(b: Block, n: nat): (m: map<Tx, TxPos>)
    requires n <= |b.vtx|
    ensures forall tx :: tx in m <==> tx in b.vtx[..n]
    ensures forall tx :: tx in m ==> m[tx].hashBlock == b.hash && m[tx].nTxOffset < n && b.vtx[m[tx].nTxOffset] == tx
  {
    if n == 0 then map[] else Positions(b, n - 1)[b.vtx[n - 1] := TxPos(b.hash, n - 1)]
  }

  ghost function Txids(b: Block): set<Tx> {
    set tx | tx in b.vtx
  }

  lemma ConnectedSound(active: seq<Block>, txIndex: map<Tx, TxPos>, b: Block)
    requires Sound(active, txIndex)
    ensures Sound(active + [b], txIndex + Positions(b, |b.vtx|))
  {
    var active' := active + [b];
    forall tx | tx in txIndex + Positions(b, |b.vtx|)
      ensures Stands(active', tx, (txIndex + Positions(b, |b.vtx|))[tx])
    {
      if tx in Positions(b, |b.vtx|) {
        assert active'[|active|] == b;
      } else {
        var k :| 0 <= k < |active| && active[k].hash == txIndex[tx].hashBlock
                 && txIndex[tx].nTxOffset < |active[k].vtx| && active[k].vtx[txIndex[tx].nTxOffset] == tx;
        assert active'[k] == active[k];
      }
    }
  }

  lemma HoldsPrefix(active: seq<Block>, b: Block, k: nat, tx: Tx)
    ensures Holds(active + [b], k, tx) <==> (if k == |active| then tx in b.vtx && Spends(tx) else Holds(active, k, tx))
  {
  }

  /** Connecting at or above the height of every purge so far repeats nothing. */
  lemma ConnectedOk(minHistory: nat, active: seq<Block>, txIndex: map<Tx, TxPos>, purged: int, b: Block)
    requires Complete(minHistory, active, txIndex, purged) && NoReplay(active)
    requires AllFinal(minHistory, b) && b.nHeight >= purged
    requires forall tx :: tx in b.vtx && Spends(tx) ==> tx !in txIndex
    ensures Complete(minHistory, active + [b], txIndex + Positions(b, |b.vtx|), purged)
    ensures NoReplay(active + [b])
  {
    var active', txIndex' := active + [b], txIndex + Positions(b, |b.vtx|);
    assert b.vtx[..|b.vtx|] == b.vtx;
    forall k, tx | Holds(active', k, tx) ensures tx in txIndex' || Expired(minHistory, tx, purged) {
      HoldsPrefix(active, b, k, tx);
    }
    forall j, k, tx | Holds(active', j, tx) && Holds(active', k, tx) ensures j == k {
      HoldsPrefix(active, b, j, tx);
      HoldsPrefix(active, b, k, tx);
    }
  }

  lemma DisconnectedSound(active: seq<Block>, txIndex: map<Tx, TxPos>)
    requires Sound(active, txIndex) && active != []
    ensures Sound(active[..|active| - 1], txIndex - Txids(active[|active| - 1]))
  {
    var n := |active| - 1;
    var active', txIndex' := active[..n], txIndex - Txids(active[n]);
    forall tx | tx in txIndex' ensures Stands(active', tx, txIndex'[tx]) {
      var k :| 0 <= k < |active| && active[k].hash == txIndex[tx].hashBlock
               && txIndex[tx].nTxOffset < |active[k].vtx| && active[k].vtx[txIndex[tx].nTxOffset] == tx;
      assert k != n;
      assert active'[k] == active[k];
    }
  }

  lemma DisconnectedOk(minHistory: nat, active: seq<Block>, txIndex: map<Tx, TxPos>, purged: int)
    requires active != [] && Complete(minHistory, active, txIndex, purged) && NoReplay(active)
    ensures Complete(minHistory, active[..|active| - 1], txIndex - Txids(active[|active| - 1]), purged)
    ensures NoReplay(active[..|active| - 1])
  {
    var n := |active| - 1;
    var active' := active[..n];
    assert active == active' + [active[n]];
    forall k, tx | Holds(active', k, tx)
      ensures Holds(active, k, tx) && tx !in active[n].vtx
    {
      HoldsPrefix(active', active[n], k, tx);
      HoldsPrefix(active', active[n], n, tx);
    }
  }

  /** Purging at height t erases only what is expired from t on. */
  lemma PurgedOk(minHistory: nat, active: seq<Block>, txIndex: map<Tx, TxPos>, purged: int, t: int, gone: set<Tx>)
    requires Complete(minHistory, active, txIndex, purged) && Sound(active, txIndex)
    requires forall tx :: tx in gone ==> Expired(minHistory, tx, t)
    ensures Complete(minHistory, active, txIndex - gone, if t > purged then t else purged)
    ensures Sound(active, txIndex - gone)
  {
  }
}
