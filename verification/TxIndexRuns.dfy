/** The bound on the height of connects cannot be weakened: runs that include a payment twice. */
module TxIndexRuns {
  import opened TxIndex
  import opened TxIndexSteps

  /**
   * A payment is made at height h, the purge comes at height t, and the payment is made again at height H by a
   * rival of the block there. The window of the payment reaches H but not t.
   */
  datatype Plan = Plan(minHistory: nat, h: nat, t: nat, H: nat) {
    predicate Ok() {
      1 <= minHistory && 1 <= h < H < t < 0x7fff_ffff && H <= h + minHistory < t
    }

    function Laws(): Rules {
      Rules(minHistory, 1)
    }
  }

  function CoinBase(nonce: nat, height: nat): Tx
    requires height < TWO64
  {
    Tx(nonce, height, 1, true)
  }

  function Payment(p: Plan): Tx
    requires p.Ok()
  {
    Tx(1, p.h, 1, false)
  }

  /** The chain: only the block at height h has a payment. */
  function Plain(p: Plan, k: nat): Block
    requires p.Ok() && k <= p.t
  {
    if k == 0 then Block(1, 0, 0, [Tx(0, 0, 0, false)])
    else Block(k + 1, k, k, if k == p.h then [CoinBase(0, k), Payment(p)] else [CoinBase(0, k)])
  }

  /** The block that makes the payment again. */
  function Rival(p: Plan): Block
    requires p.Ok()
  {
    Block(p.t + 2, p.H, p.H, [CoinBase(7, p.H), Payment(p)])
  }

  /** The first file ends with the block of the payment, all others are in the second. */
  function EntryAt(p: Plan, hash: nat): Entry
    requires p.Ok() && 1 <= hash <= p.t + 2
  {
    if hash == p.t + 2 then Entry(Rival(p), 1, true, false, false)
    else Entry(Plain(p, hash - 1), (if hash - 1 <= p.h then 0 else 1), hash > 1, false, false)
  }

  lemma PlainOk(p: Plan, k: nat, height: int)
    requires p.Ok() && 1 <= k <= p.t && height < 0x8000_0000
    ensures BlockOk(Plain(p, k)) && Finals(p.minHistory, Plain(p, k), height)
    ensures forall tx :: tx in Plain(p, k).vtx && Spends(tx) ==> tx == Payment(p) && k == p.h
    ensures Payment(p) in Plain(p, k).vtx <==> k == p.h
  {
    var b := Plain(p, k);
    assert forall tx :: tx in b.vtx ==> tx == CoinBase(0, k) || (k == p.h && tx == Payment(p));
    assert k == p.h ==> b.vtx[1] == Payment(p);
    FinalsWindow(p.minHistory, b, height);
  }

  lemma RivalOk(p: Plan, height: int)
    requires p.Ok() && height < 0x8000_0000
    ensures BlockOk(Rival(p)) && Finals(p.minHistory, Rival(p), height)
    ensures forall tx :: tx in Rival(p).vtx && Spends(tx) ==> tx == Payment(p)
  {
    FinalsWindow(p.minHistory, Rival(p), height);
  }

  // ---------------------------------------------------------------- extending a run

  /** A run from the fresh node of this chain, all of whose connects are high. */
  ghost predicate Begun(p: Plan, trace: seq<State>, ops: seq<Op>)
    requires p.Ok()
  {
    Runs(p.Laws(), trace, ops) && trace[0] == Fresh(Plain(p, 0)) && High(trace)
  }

  lemma Then(p: Plan, trace: seq<State>, ops: seq<Op>, op: Op, s': State)
    requires p.Ok() && Begun(p, trace, ops)
    requires Step(p.Laws(), trace[|ops|], op, s') && HighStep(trace[|ops|], s')
    ensures Begun(p, trace + [s'], ops + [op])
  {
    RunsThen(p.Laws(), trace, ops, op, s');
    var trace' := trace + [s'];
    forall k | 0 <= k < |trace'| - 1 ensures HighStep(trace'[k], trace'[k + 1]) {
      if k < |trace| - 1 {
        assert HighStep(trace[k], trace[k + 1]);
      }
    }
  }

  // ---------------------------------------------------------------- growing the chain

  ghost predicate Chained(p: Plan, active: seq<Block>)
    requires p.Ok()
  {
    |active| <= p.t + 1 && forall k :: 0 <= k < |active| ==> active[k] == Plain(p, k)
  }

  /** The blocks known at height k, the rival among them or not. */
  ghost predicate Grown(p: Plan, k: nat, rival: bool, known: map<nat, Entry>)
    requires p.Ok() && k <= p.t
  {
    && (forall hash :: hash in known <==> 1 <= hash <= k + 1 || (rival && hash == p.t + 2))
    && (forall hash :: hash in known ==> known[hash] == EntryAt(p, hash))
  }

  /** The tip is at height k; a sync point, if there is one, has followed it. */
  ghost predicate Stage(p: Plan, k: nat, synced: bool, rival: bool, s: State)
    requires p.Ok() && k <= p.t
  {
    && |s.active| == k + 1 && Chained(p, s.active) && Grown(p, k, rival, s.known) && s.purged == 0
    && s.sync == (if synced then k - p.minHistory else -1) && (synced ==> k >= p.minHistory)
    && (k < p.h ==> Payment(p) !in s.txIndex)
  }

  lemma Longer(p: Plan, k: nat, rival: bool, known: map<nat, Entry>, active: seq<Block>)
    requires p.Ok() && 1 <= k <= p.t && |active| == k && Grown(p, k - 1, rival, known) && Chained(p, active)
    ensures k + 1 !in known && k in known && known[k].block == active[k - 1] && active[k - 1].hash == k && active[k - 1].nHeight == k - 1
    ensures Grown(p, k, rival, known[k + 1 := EntryAt(p, k + 1)]) && Chained(p, active + [Plain(p, k)])
  {
  }

  /** The next block is accepted. */
  lemma AcceptNext(p: Plan, k: nat, synced: bool, rival: bool, s: State) returns (s': State)
    requires p.Ok() && 1 <= k <= p.t && Stage(p, k - 1, synced, rival, s)
    ensures Step(p.Laws(), s, Accept(Plain(p, k), EntryAt(p, k + 1).nFile, true), s') && HighStep(s, s')
    ensures s' == s.(known := s'.known, files := s'.files) && Grown(p, k, rival, s'.known)
  {
    PlainOk(p, k, |s.active| - 1);
    Longer(p, k, rival, s.known, s.active);
    s' := Stored(s, Plain(p, k), EntryAt(p, k + 1).nFile);
    assert MayAccept(p.Laws(), s, Plain(p, k));
  }

  /** And then connected. */
  lemma ConnectNext(p: Plan, k: nat, synced: bool, rival: bool, s: State) returns (s': State)
    requires p.Ok() && 1 <= k <= p.t && Grown(p, k, rival, s.known)
    requires |s.active| == k && Chained(p, s.active) && s.purged == 0 && (k <= p.h ==> Payment(p) !in s.txIndex)
    requires s.sync == (if synced then k - 1 - p.minHistory else -1) && (synced ==> k - 1 >= p.minHistory)
    ensures Step(p.Laws(), s, Connect(k + 1, true), s') && HighStep(s, s') && Stage(p, k, synced, rival, s')
  {
    NextFits(p, k, rival, s);
    s' := Connected(p.minHistory, s, k + 1);
    NextIndex(p, k, s.txIndex);
    assert s.known[k + 1] == EntryAt(p, k + 1);
  }

  lemma NextFits(p: Plan, k: nat, rival: bool, s: State)
    requires p.Ok() && 1 <= k <= p.t && Grown(p, k, rival, s.known)
    requires |s.active| == k && Chained(p, s.active) && (k <= p.h ==> Payment(p) !in s.txIndex)
    ensures CanConnect(s, k + 1) && Chained(p, s.active + [Plain(p, k)])
  {
    PlainOk(p, k, 0);
    assert s.active[k - 1] == Plain(p, k - 1);
    assert s.known[k + 1] == EntryAt(p, k + 1);
  }

  lemma NextIndex(p: Plan, k: nat, txIndex: map<Tx, TxPos>)
    requires p.Ok() && 1 <= k <= p.t && (k <= p.h ==> Payment(p) !in txIndex)
    ensures var b := Plain(p, k); k < p.h ==> Payment(p) !in txIndex + Positions(b, |b.vtx|)
  {
    PlainOk(p, k, 0);
    var b := Plain(p, k);
    assert b.vtx[..|b.vtx|] == b.vtx;
  }

  /** The sync point is set when the chain is a history length long. */
  lemma SettleStep(p: Plan, rival: bool, s: State) returns (s': State)
    requires p.Ok() && Stage(p, p.minHistory, false, rival, s)
    ensures Step(p.Laws(), s, Settle(0), s') && HighStep(s, s') && Stage(p, p.minHistory, true, rival, s')
  {
    s' := s.(sync := 0);
  }

  /** The rival is accepted while it is as high as the tip. */
  lemma RivalStep(p: Plan, synced: bool, s: State) returns (s': State)
    requires p.Ok() && Stage(p, p.H, synced, false, s)
    ensures Step(p.Laws(), s, Accept(Rival(p), 1, true), s') && HighStep(s, s') && Stage(p, p.H, synced, true, s')
  {
    RivalOk(p, |s.active| - 1);
    s' := Stored(s, Rival(p), 1);
    assert s.known[p.H] == EntryAt(p, p.H);
    assert MayAccept(p.Laws(), s, Rival(p));
  }

  /** The chain grows to height k. */
  lemma {:induction false} Grow(p: Plan, k: nat) returns (trace: seq<State>, ops: seq<Op>)
    requires p.Ok() && k <= p.t
    ensures Begun(p, trace, ops) && Stage(p, k, k >= p.minHistory, k >= p.H, trace[|ops|])
  {
    if k == 0 {
      trace, ops := [Fresh(Plain(p, 0))], [];
    } else {
      trace, ops := Grow(p, k - 1);
      trace, ops := Extend(p, k, k - 1 >= p.minHistory, k - 1 >= p.H, trace, ops);
      if k == p.minHistory {
        var s := SettleStep(p, k - 1 >= p.H, trace[|ops|]);
        Then(p, trace, ops, Settle(0), s);
        trace, ops := trace + [s], ops + [Settle(0)];
      }
      if k == p.H {
        var s := RivalStep(p, k >= p.minHistory, trace[|ops|]);
        Then(p, trace, ops, Accept(Rival(p), 1, true), s);
        trace, ops := trace + [s], ops + [Accept(Rival(p), 1, true)];
      }
    }
  }

  lemma Extend(p: Plan, k: nat, synced: bool, rival: bool, trace: seq<State>, ops: seq<Op>)
    returns (trace': seq<State>, ops': seq<Op>)
    requires p.Ok() && 1 <= k <= p.t && Begun(p, trace, ops) && Stage(p, k - 1, synced, rival, trace[|ops|])
    ensures Begun(p, trace', ops') && Stage(p, k, synced, rival, trace'[|ops'|])
  {
    var accept := Accept(Plain(p, k), EntryAt(p, k + 1).nFile, true);
    var s1 := AcceptNext(p, k, synced, rival, trace[|ops|]);
    Then(p, trace, ops, accept, s1);
    trace', ops' := trace + [s1], ops + [accept];
    var s2 := ConnectNext(p, k, synced, rival, s1);
    Then(p, trace', ops', Connect(k + 1, true), s2);
    trace', ops' := trace' + [s2], ops' + [Connect(k + 1, true)];
  }

  // ---------------------------------------------------------------- purging and going back

  /** The blocks above the payment are still on disk after the purge. */
  ghost predicate Left(p: Plan, known: map<nat, Entry>)
    requires p.Ok()
  {
    forall hash :: p.h + 1 < hash <= p.t + 2 ==> hash in known && known[hash] == EntryAt(p, hash)
  }

  /** The second file is needed and the first is not. */
  lemma FilesSplit(p: Plan, known: map<nat, Entry>)
    requires p.Ok() && Grown(p, p.t, true, known)
    ensures Left(p, ClearedIn(known, Dropped(p.minHistory, known, p.t)))
    ensures p.h + 1 in Dropped(p.minHistory, known, p.t) && known[p.h + 1].block == Plain(p, p.h)
  {
    assert known[p.t + 1] == EntryAt(p, p.t + 1);
    assert Needed(p.minHistory, known, p.t, 1);
    assert known[p.h + 1] == EntryAt(p, p.h + 1);
    forall hash | hash in known && known[hash].nFile == 0 ensures !InView(p.minHistory, known[hash], p.t) {
      assert known[hash] == EntryAt(p, hash);
    }
  }

  lemma PaymentGone(p: Plan, known: map<nat, Entry>, drop: set<nat>)
    requires p.Ok() && drop <= known.Keys && p.h + 1 in drop && known[p.h + 1].block == Plain(p, p.h)
    ensures Payment(p) in Gone(known, drop, known.Keys)
  {
    PlainOk(p, p.h, 0);
  }

  /** After the purge at height t, with n blocks left. */
  ghost predicate Cut(p: Plan, n: nat, s: State)
    requires p.Ok()
  {
    && |s.active| == n && Chained(p, s.active) && s.purged == p.t && s.sync == p.t - p.minHistory
    && Left(p, s.known) && Payment(p) !in s.txIndex
  }

  /** The purge erases the payment, with the file of its block. */
  lemma PurgeStep(p: Plan, s: State) returns (s': State)
    requires p.Ok() && Stage(p, p.t, true, true, s)
    ensures Step(p.Laws(), s, Purge(s.known.Keys), s') && HighStep(s, s') && Cut(p, p.t + 1, s')
  {
    s' := Purged(p.minHistory, s, s.known.Keys);
    Erased(p, s.known, s.txIndex);
  }

  lemma Erased(p: Plan, known: map<nat, Entry>, txIndex: map<Tx, TxPos>)
    requires p.Ok() && Grown(p, p.t, true, known)
    ensures var drop := Dropped(p.minHistory, known, p.t);
            Left(p, ClearedIn(known, drop)) && Payment(p) !in txIndex - Gone(known, drop, known.Keys)
  {
    FilesSplit(p, known);
    PaymentGone(p, known, Dropped(p.minHistory, known, p.t));
  }

  /** The blocks down to height H can be read and taken off. */
  lemma DisconnectStep(p: Plan, n: nat, s: State) returns (s': State)
    requires p.Ok() && p.H < n <= p.t + 1 && Cut(p, n, s)
    ensures Step(p.Laws(), s, Disconnect, s') && HighStep(s, s') && Cut(p, n - 1, s')
  {
    assert s.active[n - 1] == Plain(p, n - 1);
    assert s.known[n] == EntryAt(p, n);
    s' := Disconnected(s);
  }

  lemma {:induction false} Rewind(p: Plan, trace: seq<State>, ops: seq<Op>, n: nat)
    returns (trace': seq<State>, ops': seq<Op>)
    requires p.Ok() && p.H <= n <= p.t + 1 && Begun(p, trace, ops) && Cut(p, n, trace[|ops|])
    ensures Begun(p, trace', ops') && Cut(p, p.H, trace'[|ops'|])
    decreases n
  {
    trace', ops' := trace, ops;
    if n > p.H {
      var s := DisconnectStep(p, n, trace[|ops|]);
      Then(p, trace, ops, Disconnect, s);
      trace', ops' := Rewind(p, trace + [s], ops + [Disconnect], n - 1);
    }
  }

  /** The chain has been grown, purged and cut back to height H. */
  lemma Ready(p: Plan) returns (trace: seq<State>, ops: seq<Op>)
    requires p.Ok()
    ensures Begun(p, trace, ops) && Cut(p, p.H, trace[|ops|])
  {
    trace, ops := Grow(p, p.t);
    var s0 := trace[|ops|];
    var s := PurgeStep(p, s0);
    Then(p, trace, ops, Purge(s0.known.Keys), s);
    trace, ops := Rewind(p, trace + [s], ops + [Purge(s0.known.Keys)], p.t + 1);
  }

  // ---------------------------------------------------------------- including the payment again

  lemma AgainStep(p: Plan, s: State) returns (s': State)
    requires p.Ok() && Cut(p, p.H, s)
    ensures Step(p.Laws(), s, Connect(p.t + 2, true), s') && s'.active == s.active + [Rival(p)]
  {
    RivalOk(p, 0);
    assert s.active[p.H - 1] == Plain(p, p.H - 1);
    assert s.known[p.t + 2] == EntryAt(p, p.t + 2);
    assert CanConnect(s, p.t + 2);
    s' := Connected(p.minHistory, s, p.t + 2);
  }

  /**
   * For every history length, every height t of a purge and every lower height H from two on, there is a run
   * from a fresh node whose connects are all high except the last, which is at height H and includes a payment
   * for the second time. Every block it connects or disconnects is on disk at that moment, and the sync point
   * has followed the tip throughout.
   */
  lemma Replay(minHistory: nat, t: nat, H: nat) returns (genesis: Block, trace: seq<State>, ops: seq<Op>)
    requires 1 <= minHistory && minHistory + 2 <= t < 0x7fff_ffff && 2 <= H < t
    ensures GenesisOk(genesis) && ops != []
    ensures Runs(Rules(minHistory, genesis.hash), trace, ops) && trace[0] == Fresh(genesis)
    ensures High(trace[..|ops|]) && trace[|ops| - 1].purged == t && trace[|ops| - 1].sync == t - minHistory
    ensures |trace[|ops| - 1].active| == H && |trace[|ops|].active| == H + 1
    ensures !OnceOnly(trace[|ops|].active)
  {
    var p := Plan(minHistory, if H > minHistory then H - minHistory else 1, t, H);
    genesis := Plain(p, 0);
    trace, ops := Ready(p);
    var s := trace[|ops|];
    var s' := AgainStep(p, s);
    RunsThen(p.Laws(), trace, ops, Connect(t + 2, true), s');
    assert (trace + [s'])[..|ops| + 1] == trace;
    trace, ops := trace + [s'], ops + [Connect(t + 2, true)];
    Twice(p, s.active);
  }

  lemma Twice(p: Plan, active: seq<Block>)
    requires p.Ok() && |active| == p.H && Chained(p, active)
    ensures !OnceOnly(active + [Rival(p)])
  {
    var longer := active + [Rival(p)];
    assert longer[p.h] == Plain(p, p.h) && longer[p.h].vtx[1] == Payment(p);
    assert longer[p.H] == Rival(p) && longer[p.h].vtx[1] == longer[p.H].vtx[1] && !IsCoinBase(longer[p.h].vtx[1]);
  }
}
