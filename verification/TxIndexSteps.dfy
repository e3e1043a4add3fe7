/** The transaction index beside the active chain as a state machine, and every run of it. */
module TxIndexSteps {
  import opened TxIndex

  // ---------------------------------------------------------------- what a purge drops

  /** A block that a purge at a tip height must keep, with the rest of its file. */
  ghost predicate InView(minHistory: nat, e: Entry, tip: int) {
    e.block.nHeight + minHistory >= tip
  }

  ghost predicate OnDisk(e: Entry) {
    e.haveData || e.haveUndo
  }

  ghost predicate Needed(minHistory: nat, known: map<nat, Entry>, tip: int, f: nat) {
    exists h :: h in known && InView(minHistory, known[h], tip) && OnDisk(known[h]) && known[h].nFile == f
  }

  /** A block that a purge at a tip height drops. */
  ghost predicate Droppable(minHistory: nat, known: map<nat, Entry>, tip: int, h: nat) {
    && h in known && !InView(minHistory, known[h], tip) && OnDisk(known[h])
    && !Needed(minHistory, known, tip, known[h].nFile)
  }

  ghost function Dropped(minHistory: nat, known: map<nat, Entry>, tip: int): (drop: set<nat>)
    ensures drop <= known.Keys
  {
    set h | h in known && Droppable(minHistory, known, tip, h)
  }

  ghost function Cleared(e: Entry): Entry {
    e.(haveData := false, haveUndo := false)
  }

  /** The transactions of those blocks of a set that can be read back. */
  ghost function Gone(known: map<nat, Entry>, drop: set<nat>, readable: set<nat>): (r: set<Tx>)
    requires drop <= known.Keys
  {
    set h, tx | h in drop && h in readable && tx in known[h].block.vtx :: tx
  }

  ghost function ClearedIn(known: map<nat, Entry>, drop: set<nat>): map<nat, Entry> {
    map h | h in known :: if h in drop then Cleared(known[h]) else known[h]
  }

  lemma DropStep(known: map<nat, Entry>, done: set<nat>, h: nat, readable: set<nat>, txIndex: map<Tx, TxPos>)
    requires done <= known.Keys && h in known && h !in done
    ensures ClearedIn(known, done)[h := Cleared(known[h])] == ClearedIn(known, done + {h})
    ensures var left := txIndex - Gone(known, done, readable);
            txIndex - Gone(known, done + {h}, readable) == if h in readable then left - Txids(known[h].block) else left
  {
    assert Gone(known, done + {h}, readable) ==
           Gone(known, done, readable) + (if h in readable then Txids(known[h].block) else {});
  }

  /** A dropped block lies below the view, so its transactions are expired. */
  lemma GoneExpired(minHistory: nat, genesis: nat, known: map<nat, Entry>, tip: int, readable: set<nat>)
    requires KnownOk(minHistory, genesis, known)
    ensures forall tx :: tx in Gone(known, Dropped(minHistory, known, tip), readable) ==> Expired(minHistory, tx, tip)
  {
    forall h | h in Dropped(minHistory, known, tip) ensures EntryOk(minHistory, genesis, known, h) {
    }
  }

  /** What is left on disk is in a needed file. */
  lemma FilesLeft(minHistory: nat, known: map<nat, Entry>, files: set<nat>, tip: int)
    requires FilesOk(known, files)
    ensures FilesOk(ClearedIn(known, Dropped(minHistory, known, tip)),
                    set f | f in files && Needed(minHistory, known, tip, f))
  {
  }

  lemma FlagsOnly(minHistory: nat, genesis: nat, known: map<nat, Entry>, drop: set<nat>, active: seq<Block>)
    requires KnownOk(minHistory, genesis, known) && ActiveOk(known, active)
    ensures KnownOk(minHistory, genesis, ClearedIn(known, drop)) && ActiveOk(ClearedIn(known, drop), active)
  {
    var known' := ClearedIn(known, drop);
    forall h | h in known' ensures EntryOk(minHistory, genesis, known', h) {
      assert EntryOk(minHistory, genesis, known, h);
    }
  }

  // ---------------------------------------------------------------- what each step keeps

  ghost predicate BaseOk(minHistory: nat, genesis: nat, known: map<nat, Entry>, files: set<nat>,
      active: seq<Block>, txIndex: map<Tx, TxPos>)
  {
    && minHistory < 0x4000_0000_0000_0000
    && KnownOk(minHistory, genesis, known) && ActiveOk(known, active)
    && FilesOk(known, files) && Sound(active, txIndex)
  }

  ghost predicate ReplayOk(minHistory: nat, active: seq<Block>, txIndex: map<Tx, TxPos>, purged: int) {
    Complete(minHistory, active, txIndex, purged) && NoReplay(active)
  }

  lemma DisconnectOk(minHistory: nat, genesis: nat, known: map<nat, Entry>, files: set<nat>,
      active: seq<Block>, txIndex: map<Tx, TxPos>, purged: int)
    requires BaseOk(minHistory, genesis, known, files, active, txIndex) && active != []
    ensures var n := |active| - 1;
            BaseOk(minHistory, genesis, known, files, active[..n], txIndex - Txids(active[n]))
    ensures ReplayOk(minHistory, active, txIndex, purged) ==>
              var n := |active| - 1; ReplayOk(minHistory, active[..n], txIndex - Txids(active[n]), purged)
  {
    DisconnectedSound(active, txIndex);
    if ReplayOk(minHistory, active, txIndex, purged) {
      DisconnectedOk(minHistory, active, txIndex, purged);
    }
  }

  lemma ConnectOk(minHistory: nat, genesis: nat, known: map<nat, Entry>, files: set<nat>,
      active: seq<Block>, txIndex: map<Tx, TxPos>, purged: int, hash: nat)
    requires BaseOk(minHistory, genesis, known, files, active, txIndex)
    requires hash in known && active != [] && known[hash].block.prev == active[|active| - 1].hash
    requires forall tx :: tx in known[hash].block.vtx && Spends(tx) ==> tx !in txIndex
    ensures var b := known[hash].block;
            BaseOk(minHistory, genesis, known, files, active + [b], txIndex + Positions(b, |b.vtx|))
    ensures var b := known[hash].block;
            ReplayOk(minHistory, active, txIndex, purged) && b.nHeight >= purged ==>
              ReplayOk(minHistory, active + [b], txIndex + Positions(b, |b.vtx|), purged)
  {
    var b := known[hash].block;
    assert EntryOk(minHistory, genesis, known, hash);
    ConnectedSound(active, txIndex, b);
    if ReplayOk(minHistory, active, txIndex, purged) && b.nHeight >= purged {
      ConnectedOk(minHistory, active, txIndex, purged, b);
    }
  }

  lemma PurgeOk(minHistory: nat, genesis: nat, known: map<nat, Entry>, files: set<nat>,
      active: seq<Block>, txIndex: map<Tx, TxPos>, purged: int, tip: int, readable: set<nat>)
    requires BaseOk(minHistory, genesis, known, files, active, txIndex)
    ensures var drop := Dropped(minHistory, known, tip);
            BaseOk(minHistory, genesis, ClearedIn(known, drop), (set f | f in files && Needed(minHistory, known, tip, f)),
                   active, txIndex - Gone(known, drop, readable))
    ensures ReplayOk(minHistory, active, txIndex, purged) ==>
              var drop := Dropped(minHistory, known, tip);
              ReplayOk(minHistory, active, txIndex - Gone(known, drop, readable), if tip > purged then tip else purged)
  {
    var drop := Dropped(minHistory, known, tip);
    GoneExpired(minHistory, genesis, known, tip, readable);
    FilesLeft(minHistory, known, files, tip);
    FlagsOnly(minHistory, genesis, known, drop, active);
    if ReplayOk(minHistory, active, txIndex, purged) {
      PurgedOk(minHistory, active, txIndex, purged, tip, Gone(known, drop, readable));
    }
  }

  lemma EntryAdded(minHistory: nat, genesis: nat, known: map<nat, Entry>, files: set<nat>, e: Entry)
    requires KnownOk(minHistory, genesis, known) && FilesOk(known, files) && e.block.hash != 0
    requires var b := e.block;
             if b.hash in known then known[b.hash].block == b
             else && b.prev in known && b.nHeight == known[b.prev].block.nHeight + 1 && b.hash != genesis
                  && BlockOk(b) && AllFinal(minHistory, b)
    ensures KnownOk(minHistory, genesis, known[e.block.hash := e])
    ensures FilesOk(known[e.block.hash := e], files + {e.nFile})
  {
    var known' := known[e.block.hash := e];
    forall h | h in known' ensures EntryOk(minHistory, genesis, known', h) {
      if h in known {
        assert EntryOk(minHistory, genesis, known, h);
      }
    }
  }

  /** At heights above zero a block is final exactly if its transactions are in their window. */
  lemma FinalsWindow(minHistory: nat, b: Block, height: int)
    requires minHistory < 0x4000_0000_0000_0000 && 0 < b.nHeight < 0x8000_0000 && height < 0x8000_0000
    ensures Finals(minHistory, b, height) <==> AllFinal(minHistory, b)
  {
    forall i | 0 <= i < |b.vtx|
      ensures IsFinalTx(minHistory, b.vtx[i], b.nHeight, height) <==> InWindow(minHistory, b.vtx[i], b.nHeight)
    {
      FinalWindow(minHistory, b.vtx[i], b.nHeight, height);
    }
  }

  // ---------------------------------------------------------------- states and steps

  /** The history length and the hash of the genesis block. */
  datatype Rules = Rules(minHistory: nat, genesis: nat)

  /** purged is the greatest height of the tip at any purge so far, sync the height of the sync point or -1. */
  datatype State = State(active: seq<Block>, known: map<nat, Entry>, files: set<nat>, txIndex: map<Tx, TxPos>,
                         purged: int, sync: int)

  /** others is the verdict of all the checks that this model leaves out. */
  datatype Op =
    | Accept(block: Block, nFile: nat, others: bool)
    | Apply(hash: nat, others: bool)
    | Connect(hash: nat, others: bool)
    | Disconnect
    | Settle(height: nat)
    | Purge(readable: set<nat>)

  /** The parent is known and the hash is the block's own. */
  ghost predicate MayAccept(r: Rules, s: State, b: Block) {
    && |s.active| < 0x8000_0000 && b.nHeight < 0x8000_0000 && b.hash != 0
    && if b.hash in s.known then s.known[b.hash].block == b
       else b.prev in s.known && b.nHeight == s.known[b.prev].block.nHeight + 1 && b.hash != r.genesis
  }

  ghost predicate Finals(minHistory: nat, b: Block, height: int) {
    forall i :: 0 <= i < |b.vtx| ==> IsFinalTx(minHistory, b.vtx[i], b.nHeight, height)
  }

  /** There is nothing left to store of a block. */
  ghost predicate FullyStored(known: map<nat, Entry>, hash: nat) {
    hash in known && known[hash].haveData && known[hash].scripts
  }

  /** New blocks must lie above the sync point. */
  ghost predicate AboveSync(s: State, b: Block) {
    b.hash in s.known || s.sync < 0 || b.nHeight > s.sync
  }

  ghost function EntryFor(known: map<nat, Entry>, b: Block, nFile: nat): Entry {
    Entry(b, nFile, true, false, b.hash in known && known[b.hash].scripts)
  }

  ghost function Stored(s: State, b: Block, nFile: nat): State {
    s.(known := s.known[b.hash := EntryFor(s.known, b, nFile)], files := s.files + {nFile})
  }

  ghost predicate Passes(r: Rules, s: State, b: Block) {
    BlockOk(b) && AboveSync(s, b) && Finals(r.minHistory, b, |s.active| - 1)
  }

  ghost function Accepted(r: Rules, s: State, b: Block, nFile: nat, others: bool): State {
    if MayAccept(r, s, b) && others && !FullyStored(s.known, b.hash) && Passes(r, s, b) then Stored(s, b, nFile) else s
  }

  /** The account trie applies a block, whose data it reads, and writes its undo data beside them; it refuses one
      whose transactions do not apply or do not lead to the root the block names. */
  ghost function Applied(s: State, hash: nat, others: bool): State {
    if others && hash in s.known && s.known[hash].haveData
    then s.(known := s.known[hash := s.known[hash].(haveUndo := true, scripts := true)])
    else s
  }

  /** A block whose data are there, on the tip, none of whose spends is in the index. */
  ghost predicate CanConnect(s: State, hash: nat) {
    && hash in s.known && s.known[hash].haveData
    && s.active != [] && s.known[hash].block.prev == s.active[|s.active| - 1].hash
    && forall tx :: tx in s.known[hash].block.vtx && Spends(tx) ==> tx !in s.txIndex
  }

  /** A sync point follows the tip at the distance of the history length. */
  ghost function Followed(minHistory: nat, sync: int, height: int): int {
    if 0 <= sync && sync + minHistory < height && minHistory < height then height - minHistory else sync
  }

  /** A sync point is the height at which it was set, or the tip less the history length if that is higher. */
  lemma FollowedLaw(minHistory: nat, sync: int, height: int)
    ensures sync < 0 ==> Followed(minHistory, sync, height) == sync
    ensures sync >= 0 ==> Followed(minHistory, sync, height) == if height - minHistory > sync then height - minHistory else sync
  {
  }

  ghost function Connected(minHistory: nat, s: State, hash: nat): State
    requires hash in s.known
  {
    var b := s.known[hash].block;
    s.(active := s.active + [b], txIndex := s.txIndex + Positions(b, |b.vtx|), sync := Followed(minHistory, s.sync, |s.active|))
  }

  /** The data of the tip are there. */
  ghost predicate CanDisconnect(s: State) {
    s.active != [] && var tip := s.active[|s.active| - 1].hash; tip in s.known && s.known[tip].haveData
  }

  ghost function Disconnected(s: State): State
    requires s.active != []
  {
    var n := |s.active| - 1;
    s.(active := s.active[..n], txIndex := s.txIndex - Txids(s.active[n]))
  }

  ghost function Purged(minHistory: nat, s: State, readable: set<nat>): State {
    var tip := |s.active| - 1;
    var drop := Dropped(minHistory, s.known, tip);
    State(s.active, ClearedIn(s.known, drop), (set f | f in s.files && Needed(minHistory, s.known, tip, f)),
          s.txIndex - Gone(s.known, drop, readable), (if tip > s.purged then tip else s.purged), s.sync)
  }

  /** A file that holds something of a block at or above a height. */
  ghost predicate HoldsFrom(known: map<nat, Entry>, f: nat, height: int) {
    exists h :: h in known && known[h].nFile == f && (known[h].haveData || known[h].haveUndo) && known[h].block.nHeight >= height
  }

  /** A purge erases the files that hold nothing of a block within the history length of the tip: their blocks have
      no data any more, and the transactions of those that could be read leave the index. */
  lemma PurgeLaw(minHistory: nat, s: State, readable: set<nat>)
    ensures var s', from := Purged(minHistory, s, readable), |s.active| - 1 - minHistory;
            && s'.active == s.active && s'.sync == s.sync && s'.known.Keys == s.known.Keys
            && (forall f :: f in s'.files <==> f in s.files && HoldsFrom(s.known, f, from))
            && (forall h :: h in s.known ==>
                  s'.known[h] == (if HoldsFrom(s.known, s.known[h].nFile, from) then s.known[h]
                                  else s.known[h].(haveData := false, haveUndo := false)))
            && (forall tx :: tx in s'.txIndex <==>
                  tx in s.txIndex && !exists h :: Erases(s.known, from, readable, h, tx))
            && forall tx :: tx in s'.txIndex ==> s'.txIndex[tx] == s.txIndex[tx]
  {
    var tip, from := |s.active| - 1, |s.active| - 1 - minHistory;
    forall f ensures HoldsFrom(s.known, f, from) <==> Needed(minHistory, s.known, tip, f) {
      NeededFrom(minHistory, s.known, tip, f);
    }
    forall tx ensures tx in Gone(s.known, Dropped(minHistory, s.known, tip), readable) <==>
                      exists h :: Erases(s.known, from, readable, h, tx) {
      GoneErased(minHistory, s.known, tip, from, readable, tx);
    }
  }

  lemma GoneErased(minHistory: nat, known: map<nat, Entry>, tip: int, from: int, readable: set<nat>, tx: Tx)
    requires from == tip - minHistory
    ensures tx in Gone(known, Dropped(minHistory, known, tip), readable) <==> exists h :: Erases(known, from, readable, h, tx)
  {
    if tx in Gone(known, Dropped(minHistory, known, tip), readable) {
      var h :| h in Dropped(minHistory, known, tip) && h in readable && tx in known[h].block.vtx;
      NeededFrom(minHistory, known, tip, known[h].nFile);
      assert Erases(known, from, readable, h, tx);
    }
    if h :| Erases(known, from, readable, h, tx) {
      NeededFrom(minHistory, known, tip, known[h].nFile);
      assert h in Dropped(minHistory, known, tip);
    }
  }

  lemma NeededFrom(minHistory: nat, known: map<nat, Entry>, tip: int, f: nat)
    ensures HoldsFrom(known, f, tip - minHistory) <==> Needed(minHistory, known, tip, f)
  {
  }

  /** Block h goes with its file, could be read before, and has the transaction. */
  ghost predicate Erases(known: map<nat, Entry>, from: int, readable: set<nat>, h: nat, tx: Tx) {
    && h in known && h in readable && tx in known[h].block.vtx && (known[h].haveData || known[h].haveUndo)
    && !HoldsFrom(known, known[h].nFile, from)
  }

  ghost function After(r: Rules, s: State, op: Op): State {
    match op
    case Accept(b, nFile, others) => Accepted(r, s, b, nFile, others)
    case Apply(hash, others) => Applied(s, hash, others)
    case Connect(hash, others) => if others && CanConnect(s, hash) then Connected(r.minHistory, s, hash) else s
    case Disconnect => if CanDisconnect(s) then Disconnected(s) else s
    case Settle(height) => if height + r.minHistory <= |s.active| - 1 then s.(sync := height) else s
    case Purge(readable) => if |s.active| - 1 > r.minHistory then Purged(r.minHistory, s, readable) else s
  }

  ghost predicate Step(r: Rules, s: State, op: Op, s': State) {
    s' == After(r, s, op)
  }

  ghost predicate Base(r: Rules, s: State) {
    BaseOk(r.minHistory, r.genesis, s.known, s.files, s.active, s.txIndex)
  }

  ghost predicate Safe(r: Rules, s: State) {
    Base(r, s) && ReplayOk(r.minHistory, s.active, s.txIndex, s.purged)
  }

  /** A block is put on the active chain at the height of an earlier purge or above it. */
  ghost predicate HighStep(s: State, s': State) {
    |s'.active| > |s.active| ==> |s.active| >= s.purged
  }

  lemma AcceptStep(r: Rules, s: State, b: Block, nFile: nat, others: bool)
    requires Base(r, s)
    ensures var s' := Accepted(r, s, b, nFile, others); Base(r, s') && (Safe(r, s) ==> Safe(r, s'))
  {
    if MayAccept(r, s, b) && others && !FullyStored(s.known, b.hash) && Passes(r, s, b) {
      if b.hash !in s.known {
        FinalsWindow(r.minHistory, b, |s.active| - 1);
      }
      EntryAdded(r.minHistory, r.genesis, s.known, s.files, EntryFor(s.known, b, nFile));
    }
  }

  lemma ApplyStep(r: Rules, s: State, hash: nat, others: bool)
    requires Base(r, s)
    ensures var s' := Applied(s, hash, others); Base(r, s') && (Safe(r, s) ==> Safe(r, s'))
  {
    if others && hash in s.known && s.known[hash].haveData {
      assert EntryOk(r.minHistory, r.genesis, s.known, hash);
      var e := s.known[hash].(haveUndo := true, scripts := true);
      EntryAdded(r.minHistory, r.genesis, s.known, s.files, e);
      assert s.files + {e.nFile} == s.files;
    }
  }

  lemma ConnectStep(r: Rules, s: State, hash: nat)
    requires Base(r, s) && CanConnect(s, hash)
    ensures Base(r, Connected(r.minHistory, s, hash))
    ensures Safe(r, s) && |s.active| >= s.purged ==> Safe(r, Connected(r.minHistory, s, hash))
  {
    assert EntryOk(r.minHistory, r.genesis, s.known, hash);
    ConnectOk(r.minHistory, r.genesis, s.known, s.files, s.active, s.txIndex, s.purged, hash);
  }

  lemma DisconnectStep(r: Rules, s: State)
    requires Base(r, s) && CanDisconnect(s)
    ensures Base(r, Disconnected(s)) && (Safe(r, s) ==> Safe(r, Disconnected(s)))
  {
    DisconnectOk(r.minHistory, r.genesis, s.known, s.files, s.active, s.txIndex, s.purged);
  }

  lemma PurgeStep(r: Rules, s: State, readable: set<nat>)
    requires Base(r, s)
    ensures var s' := Purged(r.minHistory, s, readable); Base(r, s') && (Safe(r, s) ==> Safe(r, s'))
  {
    PurgeOk(r.minHistory, r.genesis, s.known, s.files, s.active, s.txIndex, s.purged, |s.active| - 1, readable);
  }

  /** Every step keeps the index sound, and a high one keeps it complete and repeats nothing. */
  lemma StepOk(r: Rules, s: State, op: Op, s': State)
    requires Base(r, s) && Step(r, s, op, s')
    ensures Base(r, s')
    ensures Safe(r, s) && HighStep(s, s') ==> Safe(r, s')
  {
    match op
    case Accept(b, nFile, others) =>
      AcceptStep(r, s, b, nFile, others);
    case Apply(hash, others) =>
      ApplyStep(r, s, hash, others);
    case Connect(hash, others) =>
      if others && CanConnect(s, hash) {
        ConnectStep(r, s, hash);
      }
    case Disconnect =>
      if CanDisconnect(s) {
        DisconnectStep(r, s);
      }
    case Settle(height) =>
    case Purge(readable) =>
      PurgeStep(r, s, readable);
  }

  // ---------------------------------------------------------------- runs

  /** The genesis block of a chain: one transaction without inputs. */
  predicate GenesisOk(b: Block) {
    && b.hash != 0 && b.prev == 0 && b.nHeight == 0
    && |b.vtx| == 1 && b.vtx[0].inputs == 0 && b.vtx[0].nLockHeight == 0
  }

  /** A fresh node: the genesis block is the active chain without having been connected, and there is no sync point. */
  function Fresh(genesis: Block): State {
    State([genesis], map[genesis.hash := Entry(genesis, 0, false, false, false)], {}, map[], 0, -1)
  }

  /** trace[k] is the state before operation k. */
  ghost predicate Runs(r: Rules, trace: seq<State>, ops: seq<Op>) {
    |trace| == |ops| + 1 && forall k :: 0 <= k < |ops| ==> Step(r, trace[k], ops[k], trace[k + 1])
  }

  lemma RunsThen(r: Rules, trace: seq<State>, ops: seq<Op>, op: Op, s': State)
    requires Runs(r, trace, ops) && Step(r, trace[|ops|], op, s')
    ensures Runs(r, trace + [s'], ops + [op])
  {
  }

  ghost predicate High(trace: seq<State>) {
    forall k :: 0 <= k < |trace| - 1 ==> HighStep(trace[k], trace[k + 1])
  }

  /** No transaction other than a coinbase stands in two places of the active chain. */
  ghost predicate OnceOnly(active: seq<Block>) {
    forall j, i, k, l ::
      0 <= j < |active| && 0 <= k < |active| && 0 <= i < |active[j].vtx| && 0 <= l < |active[k].vtx| ==>
        active[j].vtx[i] == active[k].vtx[l] && !IsCoinBase(active[j].vtx[i]) ==> j == k && i == l
  }

  lemma SafeOnce(r: Rules, s: State)
    requires Safe(r, s)
    ensures OnceOnly(s.active)
  {
    var active := s.active;
    forall j, i, k, l | 0 <= j < |active| && 0 <= k < |active| && 0 <= i < |active[j].vtx| && 0 <= l < |active[k].vtx|
      ensures active[j].vtx[i] == active[k].vtx[l] && !IsCoinBase(active[j].vtx[i]) ==> j == k && i == l
    {
      if active[j].vtx[i] == active[k].vtx[l] && !IsCoinBase(active[j].vtx[i]) {
        NoTwice(r.minHistory, r.genesis, s.known, active, j, i, k, l);
      }
    }
  }

  lemma FreshSafe(r: Rules, genesis: Block)
    requires r.minHistory < 0x4000_0000_0000_0000 && r.genesis == genesis.hash && GenesisOk(genesis)
    ensures Safe(r, Fresh(genesis))
  {
  }

  lemma {:induction false} RunSafe(r: Rules, trace: seq<State>, ops: seq<Op>, k: nat)
    requires Runs(r, trace, ops) && High(trace) && Safe(r, trace[0]) && k < |trace|
    ensures Safe(r, trace[k])
  {
    if k > 0 {
      RunSafe(r, trace, ops, k - 1);
      assert HighStep(trace[k - 1], trace[k - 1 + 1]);
      StepOk(r, trace[k - 1], ops[k - 1], trace[k]);
    }
  }

  /**
   * In every run from a fresh node in which no block is connected below the height of an earlier purge, no
   * transaction but a coinbase is ever in two places of the active chain, and the index stays sound and complete.
   */
  lemma NeverTwice(minHistory: nat, genesis: Block, trace: seq<State>, ops: seq<Op>, k: nat)
    requires minHistory < 0x4000_0000_0000_0000 && GenesisOk(genesis)
    requires Runs(Rules(minHistory, genesis.hash), trace, ops) && trace[0] == Fresh(genesis) && High(trace)
    requires k < |trace|
    ensures OnceOnly(trace[k].active) && Safe(Rules(minHistory, genesis.hash), trace[k])
  {
    var r := Rules(minHistory, genesis.hash);
    FreshSafe(r, genesis);
    RunSafe(r, trace, ops, k);
    SafeOnce(r, trace[k]);
  }

  /** In particular if the tip never falls more than one below its greatest height at a purge. */
  lemma TipHigh(trace: seq<State>)
    requires forall k :: 0 <= k < |trace| ==> |trace[k].active| >= trace[k].purged
    ensures High(trace)
  {
  }
}
