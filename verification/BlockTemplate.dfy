/** Filling a block template from the memory pool. */
module BlockTemplate {

  const MAX_BLOCK_SIZE := 1000000
  const TWO32 := 0x1_0000_0000
  const TWO64 := 0x1_0000_0000_0000_0000

  type Account = nat

  datatype In = In(pubKey: Account, nValue: nat)
  datatype Out = Out(pubKey: Account, nValue: nat)
  datatype Tx = Tx(id: nat, vin: seq<In>, vout: seq<Out>, nSize: nat, fSetLimit: bool)

  /** The account state at the tip. */
  datatype View = View(balances: map<Account, nat>, limits: map<Account, nat>)

  /** What the rest of the node says of transactions: may be included at all, pay enough, have good signatures. */
  datatype Policy = Policy(eligible: set<nat>, paying: set<nat>, signed: set<nat>)

  /** What may be drawn from an account. */
  function Available(view: View, a: Account): nat {
    if a !in view.balances then 0
    else
      var limit := if a in view.limits then view.limits[a] else 0;
      if view.balances[a] > limit then limit else view.balances[a]
  }

  function ValueIn(vin: seq<In>): nat {
    if vin == [] then 0 else ValueIn(vin[..|vin| - 1]) + vin[|vin| - 1].nValue
  }

  function ValueOut(vout: seq<Out>): nat {
    if vout == [] then 0 else ValueOut(vout[..|vout| - 1]) + vout[|vout| - 1].nValue
  }

  /** The value of inputs or outputs is the sum of their values. */
  lemma {:induction false} ValuesAdd(vin: seq<In>, vin': seq<In>, vout: seq<Out>, vout': seq<Out>)
    ensures ValueIn(vin + vin') == ValueIn(vin) + ValueIn(vin') && ValueOut(vout + vout') == ValueOut(vout) + ValueOut(vout')
    ensures |vin| == 1 ==> ValueIn(vin) == vin[0].nValue
    ensures |vout| == 1 ==> ValueOut(vout) == vout[0].nValue
    decreases |vin'| + |vout'|
  {
    if vin' == [] && vout' == [] {
      assert vin + vin' == vin && vout + vout' == vout;
    } else if vin' == [] {
      var n := |vout'| - 1;
      ValuesAdd(vin, vin', vout, vout'[..n]);
      assert (vout + vout')[..|vout| + n] == vout + vout'[..n];
    } else {
      var n := |vin'| - 1;
      ValuesAdd(vin, vin'[..n], vout, vout');
      assert (vin + vin')[..|vin| + n] == vin + vin'[..n];
    }
  }

  /** What inputs draw from an account. */
  ghost function Drawn(vin: seq<In>, a: Account): nat {
    if vin == [] then 0
    else Drawn(vin[..|vin| - 1], a) + if vin[|vin| - 1].pubKey == a then vin[|vin| - 1].nValue else 0
  }

  /** What transactions draw from an account. */
  ghost function DrawnAll(txs: seq<Tx>, a: Account): nat {
    if txs == [] then 0 else DrawnAll(txs[..|txs| - 1], a) + Drawn(txs[|txs| - 1].vin, a)
  }

  ghost function TotalSize(txs: seq<Tx>): nat {
    if txs == [] then 0 else TotalSize(txs[..|txs| - 1]) + txs[|txs| - 1].nSize
  }

  ghost function Sum(fees: seq<int>): int {
    if fees == [] then 0 else Sum(fees[..|fees| - 1]) + fees[|fees| - 1]
  }

  // ---------------------------------------------------------------- candidates

  /** What is left of each account that has been drawn from. */
  ghost predicate Within(view: View, left: map<Account, nat>, cand: seq<Tx>, part: seq<In>) {
    forall a :: if a in left then left[a] + DrawnAll(cand, a) + Drawn(part, a) <= Available(view, a)
                else DrawnAll(cand, a) + Drawn(part, a) == 0
  }

  /** An account can pay a sum: it has that much, and its limit is not below. */
  ghost predicate Covers(view: View, a: Account, sum: nat) {
    sum > 0 ==> a in view.balances && a in view.limits && sum <= view.balances[a] && sum <= view.limits[a]
  }

  lemma AvailableCovers(view: View, a: Account, sum: nat)
    ensures Covers(view, a, sum) <==> sum <= Available(view, a)
  {
  }

  /** No account has less left than these transactions and inputs would leave. */
  ghost predicate Spared(view: View, left: map<Account, nat>, txs: seq<Tx>, part: seq<In>) {
    forall a :: a in left ==> left[a] + DrawnAll(txs, a) + Drawn(part, a) >= Available(view, a)
  }

  /** After these transactions some input cannot be paid any more. */
  ghost predicate Short(view: View, txs: seq<Tx>, vin: seq<In>) {
    exists i :: 0 <= i < |vin| && ShortAt(view, txs, vin, i)
  }

  ghost predicate ShortAt(view: View, txs: seq<Tx>, vin: seq<In>, i: nat)
    requires i < |vin|
  {
    var a := vin[i].pubKey;
    a !in view.balances || !Covers(view, a, DrawnAll(txs, a) + Drawn(vin[..i + 1], a))
  }

  /** Deduct the inputs of a transaction one by one; what was deducted before a failing input stays deducted. */
  method Deduct(view: View, left0: map<Account, nat>, vin: seq<In>, ghost cand: seq<Tx>, ghost before: seq<Tx>)
    returns (missing: bool, left: map<Account, nat>)
    requires Within(view, left0, cand, []) && Spared(view, left0, before, [])
    ensures Within(view, left, cand, if missing then [] else vin) && Spared(view, left, before, vin)
    ensures missing ==> Short(view, before, vin)
  {
    missing, left := false, left0;
    for i := 0 to |vin|
      invariant Within(view, left, cand, vin[..i]) && Spared(view, left, before, vin[..i])
    {
      var txin := vin[i];
      DrawnSnoc(vin, i);
      if txin.pubKey in left {
        var balance := left[txin.pubKey];
        if balance < txin.nValue {
          ShortHere(view, left, before, vin, i);
          return true, left;
        }
        left := left[txin.pubKey := balance - txin.nValue];
      } else {
        if txin.pubKey !in view.balances {
          ShortHere(view, left, before, vin, i);
          return true, left;
        }
        var balance := Available(view, txin.pubKey);
        if balance < txin.nValue {
          ShortHere(view, left, before, vin, i);
          return true, left;
        }
        left := left[txin.pubKey := balance - txin.nValue];
      }
    }
    assert vin[..|vin|] == vin;
  }

  lemma ShortHere(view: View, left: map<Account, nat>, before: seq<Tx>, vin: seq<In>, i: nat)
    requires i < |vin| && Spared(view, left, before, vin[..i])
    requires var a := vin[i].pubKey;
             if a in left then left[a] < vin[i].nValue else a !in view.balances || Available(view, a) < vin[i].nValue
    ensures Short(view, before, vin) && Spared(view, left, before, vin)
  {
    var a := vin[i].pubKey;
    DrawnSnoc(vin, i);
    DrawnPart(vin, i);
    AvailableCovers(view, a, DrawnAll(before, a) + Drawn(vin[..i + 1], a));
    assert ShortAt(view, before, vin, i);
  }

  lemma DrawnSnoc(vin: seq<In>, i: nat)
    requires i < |vin|
    ensures forall a :: Drawn(vin[..i + 1], a) == Drawn(vin[..i], a) + if vin[i].pubKey == a then vin[i].nValue else 0
  {
    assert vin[..i + 1][..i] == vin[..i];
  }

  /** The first inputs draw no more than all of them. */
  lemma {:induction false} DrawnPart(vin: seq<In>, i: nat)
    requires i <= |vin|
    ensures forall a :: Drawn(vin[..i], a) <= Drawn(vin, a)
    decreases |vin|
  {
    if i == |vin| {
      assert vin[..i] == vin;
    } else {
      DrawnPart(vin[..|vin| - 1], i);
      assert vin[..|vin| - 1][..i] == vin[..i];
    }
  }

  /** Every output to a new account is worth at least the fee. */
  ghost predicate CanCreate(view: View, tx: Tx) {
    forall i :: 0 <= i < |tx.vout| && tx.vout[i].pubKey !in view.balances ==>
      tx.vout[i].nValue >= (ValueIn(tx.vin) - ValueOut(tx.vout)) % TWO64
  }

  method CheckCreate(view: View, tx: Tx) returns (can: bool)
    ensures can <==> CanCreate(view, tx)
  {
    for i := 0 to |tx.vout|
      invariant forall j :: 0 <= j < i && tx.vout[j].pubKey !in view.balances ==>
                  tx.vout[j].nValue >= (ValueIn(tx.vin) - ValueOut(tx.vout)) % TWO64
    {
      if tx.vout[i].pubKey !in view.balances && tx.vout[i].nValue < (ValueIn(tx.vin) - ValueOut(tx.vout)) % TWO64 {
        return false;
      }
    }
    can := true;
  }

  /** The accounts can pay for all of the transactions together. */
  ghost predicate Affordable(view: View, txs: seq<Tx>) {
    forall a :: Covers(view, a, DrawnAll(txs, a))
  }

  ghost predicate Chosen(view: View, policy: Policy, txs: seq<Tx>) {
    forall i :: 0 <= i < |txs| ==> txs[i].id in policy.eligible && CanCreate(view, txs[i])
  }

  /** The eligible transactions of the pool, in its order. */
  ghost function Eligible(policy: Policy, pool: seq<Tx>): seq<Tx> {
    if pool == [] then []
    else
      var n := |pool| - 1;
      Eligible(policy, pool[..n]) + if pool[n].id in policy.eligible then [pool[n]] else []
  }

  /** Those of the pool that are taken, in its order. */
  ghost function Picked(pool: seq<Tx>, taken: seq<bool>): seq<Tx>
    requires |taken| == |pool|
  {
    if pool == [] then []
    else
      var n := |pool| - 1;
      Picked(pool[..n], taken[..n]) + if taken[n] then [pool[n]] else []
  }

  /** Transaction i of the pool may be in a block by itself. */
  ghost predicate Suitable(view: View, policy: Policy, tx: Tx) {
    tx.id in policy.eligible && CanCreate(view, tx)
  }

  /** Only suitable transactions are taken, and one is left only if the eligible ones before it may have used up
      what it draws from. */
  ghost predicate TakenOk(view: View, policy: Policy, pool: seq<Tx>, taken: seq<bool>) {
    && |taken| == |pool|
    && (forall i :: 0 <= i < |pool| && taken[i] ==> Suitable(view, policy, pool[i]))
    && (forall i :: 0 <= i < |pool| && !taken[i] && Suitable(view, policy, pool[i]) ==>
          Short(view, Eligible(policy, pool[..i]), pool[i].vin))
  }

  /** Choose the transactions of the pool that the accounts can pay for together. */
  method Candidates(mempool: seq<Tx>, view: View, policy: Policy) returns (cand: seq<Tx>, ghost taken: seq<bool>)
    ensures Affordable(view, cand) && multiset(cand) <= multiset(mempool) && Chosen(view, policy, cand)
    ensures TakenOk(view, policy, mempool, taken) && cand == Picked(mempool, taken)
  {
    cand, taken := [], [];
    var left := map[];
    for i := 0 to |mempool|
      invariant Within(view, left, cand, []) && Spared(view, left, Eligible(policy, mempool[..i]), [])
      invariant TakenOk(view, policy, mempool[..i], taken) && cand == Picked(mempool[..i], taken)
    {
      var take;
      take, left := TakeOne(view, policy, left, mempool[i], cand, Eligible(policy, mempool[..i]));
      EligibleNext(policy, mempool, i);
      TakenNext(view, policy, mempool, i, taken, take);
      taken := taken + [take];
      if take {
        cand := cand + [mempool[i]];
      }
    }
    assert mempool[..|mempool|] == mempool;
    assert forall a :: Drawn([], a) == 0;
    PickedOk(view, policy, mempool, taken);
  }

  /** Whether one transaction of the pool goes on the heap, and what that leaves of the accounts. */
  method TakeOne(view: View, policy: Policy, left0: map<Account, nat>, tx: Tx, ghost cand: seq<Tx>, ghost before: seq<Tx>)
    returns (take: bool, left: map<Account, nat>)
    requires Within(view, left0, cand, []) && Spared(view, left0, before, [])
    ensures Within(view, left, if take then cand + [tx] else cand, [])
    ensures Spared(view, left, if tx.id in policy.eligible then before + [tx] else before, [])
    ensures take ==> Suitable(view, policy, tx)
    ensures !take && Suitable(view, policy, tx) ==> Short(view, before, tx.vin)
  {
    take, left := false, left0;
    if tx.id in policy.eligible {
      var missing;
      missing, left := Deduct(view, left, tx.vin, cand, before);
      SparedNext(view, left, before, tx);
      if !missing {
        Taken(view, left, cand, tx);
        take := CheckCreate(view, tx);
      }
    }
  }

  lemma SparedNext(view: View, left: map<Account, nat>, before: seq<Tx>, tx: Tx)
    requires Spared(view, left, before, tx.vin)
    ensures Spared(view, left, before + [tx], [])
  {
    assert (before + [tx])[..|before|] == before;
  }

  lemma EligibleNext(policy: Policy, pool: seq<Tx>, i: nat)
    requires i < |pool|
    ensures Eligible(policy, pool[..i + 1]) ==
            if pool[i].id in policy.eligible then Eligible(policy, pool[..i]) + [pool[i]] else Eligible(policy, pool[..i])
  {
    assert pool[..i + 1][..i] == pool[..i];
    assert Eligible(policy, pool[..i]) + [] == Eligible(policy, pool[..i]);
  }

  lemma TakenNext(view: View, policy: Policy, pool: seq<Tx>, i: nat, taken: seq<bool>, take: bool)
    requires i < |pool| && TakenOk(view, policy, pool[..i], taken) && (take ==> Suitable(view, policy, pool[i]))
    requires !take && Suitable(view, policy, pool[i]) ==> Short(view, Eligible(policy, pool[..i]), pool[i].vin)
    ensures TakenOk(view, policy, pool[..i + 1], taken + [take])
    ensures Picked(pool[..i + 1], taken + [take]) ==
            if take then Picked(pool[..i], taken) + [pool[i]] else Picked(pool[..i], taken)
  {
    var p, t := pool[..i + 1], taken + [take];
    assert p[..i] == pool[..i] && t[..i] == taken;
    assert Picked(pool[..i], taken) + [] == Picked(pool[..i], taken);
    forall k | 0 <= k < i + 1 && !t[k] && Suitable(view, policy, p[k])
      ensures Short(view, Eligible(policy, p[..k]), p[k].vin)
    {
      assert p[..k] == pool[..i][..k] == pool[..k];
    }
  }

  lemma {:induction false} PickedOk(view: View, policy: Policy, pool: seq<Tx>, taken: seq<bool>)
    requires |taken| == |pool| && forall i :: 0 <= i < |pool| && taken[i] ==> Suitable(view, policy, pool[i])
    ensures multiset(Picked(pool, taken)) <= multiset(pool) && Chosen(view, policy, Picked(pool, taken))
    decreases |pool|
  {
    if pool != [] {
      var n := |pool| - 1;
      var init := Picked(pool[..n], taken[..n]);
      PickedOk(view, policy, pool[..n], taken[..n]);
      assert pool == pool[..n] + [pool[n]];
      if taken[n] {
        ChosenNext(view, policy, init, pool[n]);
      } else {
        assert init + [] == init;
      }
    }
  }

  lemma ChosenNext(view: View, policy: Policy, txs: seq<Tx>, tx: Tx)
    requires Chosen(view, policy, txs) && Suitable(view, policy, tx)
    ensures Chosen(view, policy, txs + [tx])
  {
  }

  /** The suitable transactions of the pool, in its order. */
  ghost function SuitableOf(view: View, policy: Policy, pool: seq<Tx>): seq<Tx> {
    if pool == [] then []
    else
      var n := |pool| - 1;
      SuitableOf(view, policy, pool[..n]) + if Suitable(view, policy, pool[n]) then [pool[n]] else []
  }

  /** The accounts can pay for all eligible transactions together, and every one they draw from exists. */
  ghost predicate Ample(view: View, policy: Policy, pool: seq<Tx>) {
    && Affordable(view, Eligible(policy, pool))
    && forall i, j :: 0 <= i < |pool| && 0 <= j < |pool[i].vin| && pool[i].id in policy.eligible ==>
         pool[i].vin[j].pubKey in view.balances
  }

  /** What the eligible transactions before one and some of its inputs draw, all of them draw. */
  lemma {:induction false} DrawnBefore(policy: Policy, pool: seq<Tx>, i: nat, j: nat, a: Account)
    requires i < |pool| && j <= |pool[i].vin| && pool[i].id in policy.eligible
    ensures DrawnAll(Eligible(policy, pool[..i]), a) + Drawn(pool[i].vin[..j], a) <= DrawnAll(Eligible(policy, pool), a)
    decreases |pool|
  {
    var n := |pool| - 1;
    var init := Eligible(policy, pool[..n]);
    assert Eligible(policy, pool) == if pool[n].id in policy.eligible then init + [pool[n]] else init;
    DrawnAllSnoc(init, pool[n], a);
    if i < n {
      assert pool[..n][..i] == pool[..i];
      DrawnBefore(policy, pool[..n], i, j, a);
    } else {
      DrawnPart(pool[n].vin, j);
    }
  }

  lemma NeverShort(view: View, policy: Policy, pool: seq<Tx>, i: nat)
    requires Ample(view, policy, pool) && i < |pool| && pool[i].id in policy.eligible
    ensures !Short(view, Eligible(policy, pool[..i]), pool[i].vin)
  {
    forall j | 0 <= j < |pool[i].vin| ensures !ShortAt(view, Eligible(policy, pool[..i]), pool[i].vin, j) {
      var a := pool[i].vin[j].pubKey;
      DrawnBefore(policy, pool, i, j + 1, a);
      assert Covers(view, a, DrawnAll(Eligible(policy, pool), a));
    }
  }

  /** If the accounts can pay for everything eligible, exactly the suitable transactions are taken. */
  lemma AllTaken(view: View, policy: Policy, pool: seq<Tx>, taken: seq<bool>)
    requires TakenOk(view, policy, pool, taken) && Ample(view, policy, pool)
    ensures Picked(pool, taken) == SuitableOf(view, policy, pool)
  {
    forall i | 0 <= i < |pool| ensures taken[i] <==> Suitable(view, policy, pool[i]) {
      if Suitable(view, policy, pool[i]) {
        NeverShort(view, policy, pool, i);
      }
    }
    PickedSuitable(view, policy, pool, taken);
  }

  lemma {:induction false} PickedSuitable(view: View, policy: Policy, pool: seq<Tx>, taken: seq<bool>)
    requires |taken| == |pool| && forall i :: 0 <= i < |pool| ==> (taken[i] <==> Suitable(view, policy, pool[i]))
    ensures Picked(pool, taken) == SuitableOf(view, policy, pool)
    decreases |pool|
  {
    if pool != [] {
      var n := |pool| - 1;
      PickedSuitable(view, policy, pool[..n], taken[..n]);
    }
  }

  lemma {:induction false} PickedIn(pool: seq<Tx>, taken: seq<bool>, i: nat)
    requires |taken| == |pool| && i < |pool| && taken[i]
    ensures pool[i] in Picked(pool, taken)
    decreases |pool|
  {
    if i < |pool| - 1 {
      PickedIn(pool[..|pool| - 1], taken[..|pool| - 1], i);
    }
  }

  lemma Taken(view: View, left: map<Account, nat>, cand: seq<Tx>, tx: Tx)
    requires Within(view, left, cand, tx.vin)
    ensures Within(view, left, cand, []) && Within(view, left, cand + [tx], [])
  {
    assert (cand + [tx])[..|cand|] == cand;
  }

  // ---------------------------------------------------------------- filling the block

  /** The cap in bytes: the size field is narrowed to 32 bits and kept between 1000 and 1000 below the maximum. */
  function Cap(nextMaxSize: nat): nat {
    var size := nextMaxSize % TWO32;
    var top := if size < MAX_BLOCK_SIZE - 1000 then size else MAX_BLOCK_SIZE - 1000;
    if top < 1000 then 1000 else top
  }

  /** The cap follows the size that the chain allows, in 32 bits, from 1000 to 999000. */
  lemma CapExactly(nextMaxSize: nat)
    ensures 1000 <= Cap(nextMaxSize) <= 999000
    ensures 1000 <= nextMaxSize <= 999000 ==> Cap(nextMaxSize) == nextMaxSize
    ensures nextMaxSize < 1000 ==> Cap(nextMaxSize) == 1000
    ensures 999000 < nextMaxSize < 0x1_0000_0000 ==> Cap(nextMaxSize) == 999000
    ensures Cap(nextMaxSize + 0x1_0000_0000) == Cap(nextMaxSize)
  {
  }

  function Accounts(tx: Tx): set<Account> {
    set i | 0 <= i < |tx.vin| :: tx.vin[i].pubKey
  }

  /** A transaction that sets a limit comes after no transaction that draws from the account. */
  ghost predicate LimitsFirst(txs: seq<Tx>) {
    forall i, j :: 0 <= i < j < |txs| && txs[j].fSetLimit && txs[j].vin != [] ==> txs[j].vin[0].pubKey !in Accounts(txs[i])
  }

  ghost predicate Passed(policy: Policy, tx: Tx) {
    tx.id in policy.paying && tx.id in policy.signed && ValueIn(tx.vin) >= ValueOut(tx.vout)
  }

  /**
   * Whether the transaction taken off the heap goes into the block. A limit is kept out after a spend of its
   * account; a spend is not kept out after a limit. A limit is remembered even if it then fails to go in.
   */
  method Consider(tx: Tx, nBlockSize: nat, nBlockMaxSize: nat, policy: Policy, setTxOps: set<Account>, limits: set<Account>)
    returns (add: bool, setLimits: set<Account>)
    requires tx.vin != []
    ensures add <==> Open(policy, nBlockMaxSize, nBlockSize, setTxOps, limits, tx) && Passed(policy, tx)
    ensures setLimits == if tx.fSetLimit && Open(policy, nBlockMaxSize, nBlockSize, setTxOps, limits, tx)
                         then limits + {tx.vin[0].pubKey} else limits
  {
    add, setLimits := false, limits;
    if nBlockSize + tx.nSize >= nBlockMaxSize || tx.id !in policy.paying {
      return;
    }
    if tx.fSetLimit {
      if tx.vin[0].pubKey in setTxOps || tx.vin[0].pubKey in setLimits {
        return;
      }
      setLimits := setLimits + {tx.vin[0].pubKey};
    }
    add := ValueIn(tx.vin) >= ValueOut(tx.vout) && tx.id in policy.signed;
  }

  /** The block has room for the transaction, which pays enough and, if it sets a limit, is the first on its account. */
  ghost predicate Open(policy: Policy, max: nat, nBlockSize: nat, setTxOps: set<Account>, setLimits: set<Account>, tx: Tx) {
    && nBlockSize + tx.nSize < max && tx.id in policy.paying
    && (tx.fSetLimit && tx.vin != [] ==> tx.vin[0].pubKey !in setTxOps && tx.vin[0].pubKey !in setLimits)
  }

  ghost predicate FeesOf(txs: seq<Tx>, fees: seq<int>) {
    |fees| == |txs| && forall i :: 0 <= i < |txs| ==> fees[i] == ValueIn(txs[i].vin) - ValueOut(txs[i].vout) >= 0
  }

  /** The block so far: its transactions, their fees, and the running totals. */
  datatype Filling = Filling(txs: seq<Tx>, fees: seq<int>, nBlockSize: nat, nFees: int,
                             setTxOps: set<Account>, setLimits: set<Account>)

  function Added(f: Filling, tx: Tx): Filling {
    var nTxFees := ValueIn(tx.vin) - ValueOut(tx.vout);
    Filling(f.txs + [tx], f.fees + [nTxFees], f.nBlockSize + tx.nSize, f.nFees + nTxFees,
            f.setTxOps + Accounts(tx), f.setLimits)
  }

  ghost predicate Filled(policy: Policy, nBlockMaxSize: nat, f: Filling) {
    && f.nBlockSize == 1000 + TotalSize(f.txs) && (f.txs != [] ==> f.nBlockSize < nBlockMaxSize)
    && FeesOf(f.txs, f.fees) && f.nFees == Sum(f.fees)
    && (forall i :: 0 <= i < |f.txs| ==> Passed(policy, f.txs[i]) && Accounts(f.txs[i]) <= f.setTxOps)
    && LimitsFirst(f.txs)
  }

  lemma AddedOk(policy: Policy, max: nat, f: Filling, tx: Tx)
    requires Filled(policy, max, f) && Passed(policy, tx) && f.nBlockSize + tx.nSize < max && tx.vin != []
    requires tx.fSetLimit ==> tx.vin[0].pubKey !in f.setTxOps
    ensures Filled(policy, max, Added(f, tx))
  {
    var fee := ValueIn(tx.vin) - ValueOut(tx.vout);
    assert (f.txs + [tx])[..|f.txs|] == f.txs && (f.fees + [fee])[..|f.fees|] == f.fees;
  }

  /** Part of the candidates is in the block, part is still on the heap. */
  ghost predicate Shared(cand: seq<Tx>, txs: seq<Tx>, heap: seq<Tx>) {
    && multiset(txs) + multiset(heap) <= multiset(cand)
    && forall a :: DrawnAll(txs, a) + DrawnAll(heap, a) <= DrawnAll(cand, a)
  }

  lemma {:induction false} DrawnAllSum(x: seq<Tx>, y: seq<Tx>, a: Account)
    ensures DrawnAll(x + y, a) == DrawnAll(x, a) + DrawnAll(y, a)
    decreases |y|
  {
    if y == [] {
      assert x + y == x;
    } else {
      assert (x + y)[..|x + y| - 1] == x + y[..|y| - 1];
      DrawnAllSum(x, y[..|y| - 1], a);
    }
  }

  lemma DrawnAllSnoc(x: seq<Tx>, tx: Tx, a: Account)
    ensures DrawnAll(x + [tx], a) == DrawnAll(x, a) + Drawn(tx.vin, a)
  {
    assert (x + [tx])[..|x|] == x;
  }

  /** Taking a transaction off the heap, and putting it into the block or not. */
  lemma Popped(cand: seq<Tx>, txs: seq<Tx>, heap: seq<Tx>, k: nat)
    requires Shared(cand, txs, heap) && k < |heap|
    ensures var rest := heap[..k] + heap[k + 1..];
            Shared(cand, txs, rest) && Shared(cand, txs + [heap[k]], rest)
  {
    var rest := heap[..k] + heap[k + 1..];
    assert heap == heap[..k] + [heap[k]] + heap[k + 1..];
    forall a ensures DrawnAll(heap, a) == DrawnAll(rest, a) + Drawn(heap[k].vin, a)
             ensures DrawnAll(txs + [heap[k]], a) == DrawnAll(txs, a) + Drawn(heap[k].vin, a) {
      DrawnAllSum(heap[..k] + [heap[k]], heap[k + 1..], a);
      DrawnAllSnoc(heap[..k], heap[k], a);
      DrawnAllSum(heap[..k], heap[k + 1..], a);
      DrawnAllSnoc(txs, heap[k], a);
    }
  }

  lemma SharedOk(view: View, policy: Policy, cand: seq<Tx>, txs: seq<Tx>)
    requires Shared(cand, txs, []) && Affordable(view, cand) && Chosen(view, policy, cand)
    ensures Affordable(view, txs) && Chosen(view, policy, txs) && multiset(txs) <= multiset(cand)
  {
    forall a ensures Covers(view, a, DrawnAll(txs, a)) {
      assert DrawnAll(txs, a) + DrawnAll([], a) <= DrawnAll(cand, a) && Covers(view, a, DrawnAll(cand, a));
    }
    forall i | 0 <= i < |txs| ensures txs[i] in cand {
      assert txs[i] in multiset(txs) && txs[i] in multiset(cand);
    }
  }

  lemma FromPool(pool: seq<Tx>, txs: seq<Tx>)
    requires multiset(txs) <= multiset(pool) && forall tx :: tx in pool ==> tx.vin != []
    ensures forall tx :: tx in txs ==> tx.vin != []
  {
    forall tx | tx in txs ensures tx in pool {
      assert tx in multiset(txs) && tx in multiset(pool);
    }
  }

  // ---------------------------------------------------------------- the order off the heap

  const EMPTY := Filling([], [], 1000, 0, {}, {})

  ghost function Considered(policy: Policy, max: nat, f: Filling, tx: Tx): Filling {
    if tx.vin == [] || !Open(policy, max, f.nBlockSize, f.setTxOps, f.setLimits, tx) then f
    else
      var f' := if tx.fSetLimit then f.(setLimits := f.setLimits + {tx.vin[0].pubKey}) else f;
      if Passed(policy, tx) then Added(f', tx) else f'
  }

  /** The block that results if the transactions come off the heap in the given order. */
  ghost function FillAll(policy: Policy, max: nat, order: seq<Tx>): Filling {
    if order == [] then EMPTY
    else Considered(policy, max, FillAll(policy, max, order[..|order| - 1]), order[|order| - 1])
  }

  lemma FillSnoc(policy: Policy, max: nat, order: seq<Tx>, tx: Tx)
    ensures FillAll(policy, max, order + [tx]) == Considered(policy, max, FillAll(policy, max, order), tx)
  {
    assert (order + [tx])[..|order|] == order;
  }

  lemma ConsideredOk(policy: Policy, max: nat, f: Filling, tx: Tx)
    requires Filled(policy, max, f)
    ensures Filled(policy, max, Considered(policy, max, f, tx))
  {
    if tx.vin != [] && Open(policy, max, f.nBlockSize, f.setTxOps, f.setLimits, tx) {
      var f' := if tx.fSetLimit then f.(setLimits := f.setLimits + {tx.vin[0].pubKey}) else f;
      if Passed(policy, tx) {
        AddedOk(policy, max, f', tx);
      }
    }
  }

  lemma {:induction false} FillOk(policy: Policy, max: nat, order: seq<Tx>)
    ensures var f := FillAll(policy, max, order);
            Filled(policy, max, f) && forall tx :: tx in f.txs ==> tx in order && tx.vin != []
    decreases |order|
  {
    if order != [] {
      var n := |order| - 1;
      FillOk(policy, max, order[..n]);
      ConsideredOk(policy, max, FillAll(policy, max, order[..n]), order[n]);
    }
  }

  /** What is in the block stays there. */
  lemma {:induction false} FillPrefix(policy: Policy, max: nat, p: seq<Tx>, q: seq<Tx>)
    ensures FillAll(policy, max, p).txs <= FillAll(policy, max, p + q).txs
    decreases |q|
  {
    if q == [] {
      assert p + q == p;
    } else {
      var n := |q| - 1;
      FillPrefix(policy, max, p, q[..n]);
      assert p + q == (p + q[..n]) + [q[n]];
      FillSnoc(policy, max, p + q[..n], q[n]);
    }
  }

  /** A transaction that passes and sets no limit stays out only if it does not fit beside what is in the block. */
  lemma {:induction false} LeftOut(policy: Policy, max: nat, order: seq<Tx>, tx: Tx)
    requires tx in order && tx.vin != [] && Passed(policy, tx) && !tx.fSetLimit && tx !in FillAll(policy, max, order).txs
    ensures FillAll(policy, max, order).nBlockSize + tx.nSize >= max
    decreases |order|
  {
    var n := |order| - 1;
    if tx in order[..n] {
      LeftOut(policy, max, order[..n], tx);
    }
  }

  /** If all pass, none sets a limit and all fit, all get in. */
  lemma {:induction false} AllIn(policy: Policy, max: nat, order: seq<Tx>)
    requires forall i :: 0 <= i < |order| ==> order[i].vin != [] && Passed(policy, order[i]) && !order[i].fSetLimit
    requires 1000 + TotalSize(order) < max
    ensures FillAll(policy, max, order).txs == order && FillAll(policy, max, order).nBlockSize == 1000 + TotalSize(order)
    decreases |order|
  {
    if order != [] {
      var n := |order| - 1;
      AllIn(policy, max, order[..n]);
      assert order == order[..n] + [order[n]];
    }
  }

  lemma {:induction false} SizeSum(x: seq<Tx>, y: seq<Tx>)
    ensures TotalSize(x + y) == TotalSize(x) + TotalSize(y)
    decreases |y|
  {
    if y == [] {
      assert x + y == x;
    } else {
      assert (x + y)[..|x + y| - 1] == x + y[..|y| - 1];
      SizeSum(x, y[..|y| - 1]);
    }
  }

  /** The size does not depend on the order. */
  lemma {:induction false} SizeOfOrder(x: seq<Tx>, y: seq<Tx>)
    requires multiset(x) == multiset(y)
    ensures TotalSize(x) == TotalSize(y)
    decreases |x|
  {
    if x == [] {
      assert |multiset(y)| == 0;
    } else {
      var n := |x| - 1;
      assert x[n] in multiset(x) && x[n] in multiset(y);
      var k :| 0 <= k < |y| && y[k] == x[n];
      SizeWithout(y, k);
      SizeWithout(x, n);
      assert x[..n] + x[n + 1..] == x[..n];
      SizeOfOrder(x[..n], y[..k] + y[k + 1..]);
    }
  }

  lemma SizeWithout(y: seq<Tx>, k: nat)
    requires k < |y|
    ensures TotalSize(y) == TotalSize(y[..k] + y[k + 1..]) + y[k].nSize
    ensures multiset(y[..k] + y[k + 1..]) == multiset(y) - multiset{y[k]}
  {
    Split(y, k);
    SizeMiddle(y[..k], y[k], y[k + 1..]);
  }

  lemma Split<T>(y: seq<T>, k: nat)
    requires k < |y|
    ensures y == y[..k] + [y[k]] + y[k + 1..]
  {
  }

  lemma SizeMiddle(p: seq<Tx>, tx: Tx, q: seq<Tx>)
    ensures TotalSize(p + [tx] + q) == TotalSize(p + q) + tx.nSize
    ensures multiset(p + q) == multiset(p + [tx] + q) - multiset{tx}
  {
    SizeSum(p + [tx], q);
    SizeSum(p, q);
    assert (p + [tx])[..|p|] == p;
  }

  // ---------------------------------------------------------------- limits and withdrawals

  /** Two transactions that must not be in one block: both set the limit of an account, or one sets it and the
      other draws from the account. */
  ghost predicate Overlap(a: Tx, b: Tx) {
    || (a.fSetLimit && b.fSetLimit && a.vin != [] && b.vin != [] && a.vin[0].pubKey == b.vin[0].pubKey)
    || LimitOf(a, b) || LimitOf(b, a)
  }

  /** One transaction sets the limit of an account that the other draws from. */
  ghost predicate LimitOf(a: Tx, b: Tx) {
    a.fSetLimit && a.vin != [] && !b.fSetLimit && a.vin[0].pubKey in Accounts(b)
  }

  ghost predicate NoOverlap(txs: seq<Tx>) {
    forall i, j :: 0 <= i < j < |txs| ==> !Overlap(txs[i], txs[j])
  }

  /** The rule for a whole block, checked with the set of limits and the set of withdrawals so far. */
  method CheckLimits(vtx: seq<Tx>) returns (ok: bool)
    requires forall i :: 0 <= i < |vtx| ==> vtx[i].vin != []
    ensures ok <==> NoOverlap(vtx)
  {
    var setLimit: set<Account>, setWD: set<Account> := {}, {};
    for n := 0 to |vtx|
      invariant NoOverlap(vtx[..n]) && setLimit == LimitsIn(vtx[..n]) && setWD == DrawsIn(vtx[..n])
    {
      var tx := vtx[n];
      assert vtx[..n + 1] == vtx[..n] + [tx];
      OverlapSnoc(vtx[..n], tx);
      var overlap;
      if tx.fSetLimit {
        overlap := tx.vin[0].pubKey in setLimit || tx.vin[0].pubKey in setWD;
        setLimit := setLimit + {tx.vin[0].pubKey};
      } else {
        overlap, setWD := Withdraw(tx, setLimit, setWD);
      }
      if overlap {
        OverlapStays(vtx, n + 1);
        return false;
      }
    }
    assert vtx[..|vtx|] == vtx;
    ok := true;
  }

  /** The inputs of a transaction that draws, against the limits so far. */
  method Withdraw(tx: Tx, setLimit: set<Account>, withdrawn: set<Account>) returns (overlap: bool, setWD: set<Account>)
    ensures overlap <==> Accounts(tx) * setLimit != {}
    ensures !overlap ==> setWD == withdrawn + Accounts(tx)
  {
    setWD := withdrawn;
    for i := 0 to |tx.vin|
      invariant forall j :: 0 <= j < i ==> tx.vin[j].pubKey !in setLimit
      invariant setWD == withdrawn + set j | 0 <= j < i :: tx.vin[j].pubKey
    {
      if tx.vin[i].pubKey in setLimit {
        assert tx.vin[i].pubKey in Accounts(tx) * setLimit;
        return true, setWD;
      }
      setWD := setWD + {tx.vin[i].pubKey};
    }
    overlap := false;
  }

  ghost function LimitsIn(txs: seq<Tx>): set<Account> {
    set i | 0 <= i < |txs| && txs[i].fSetLimit && txs[i].vin != [] :: txs[i].vin[0].pubKey
  }

  ghost function DrawsIn(txs: seq<Tx>): set<Account> {
    set i, j | 0 <= i < |txs| && !txs[i].fSetLimit && 0 <= j < |txs[i].vin| :: txs[i].vin[j].pubKey
  }

  /** The sets say whether one more transaction overlaps with those before it. */
  lemma OverlapSnoc(txs: seq<Tx>, tx: Tx)
    requires tx.vin != []
    ensures LimitsIn(txs + [tx]) == LimitsIn(txs) + if tx.fSetLimit then {tx.vin[0].pubKey} else {}
    ensures DrawsIn(txs + [tx]) == DrawsIn(txs) + if tx.fSetLimit then {} else Accounts(tx)
    ensures NoOverlap(txs + [tx]) <==>
            && NoOverlap(txs)
            && if tx.fSetLimit then tx.vin[0].pubKey !in LimitsIn(txs) + DrawsIn(txs) else Accounts(tx) * LimitsIn(txs) == {}
  {
    LimitsSnoc(txs, tx);
    DrawsSnoc(txs, tx);
    NewOverlap(txs, tx);
    NoOverlapSnoc(txs, tx);
  }

  lemma LimitsSnoc(txs: seq<Tx>, tx: Tx)
    requires tx.vin != []
    ensures LimitsIn(txs + [tx]) == LimitsIn(txs) + if tx.fSetLimit then {tx.vin[0].pubKey} else {}
  {
    var all := txs + [tx];
    forall a | a in LimitsIn(txs) ensures a in LimitsIn(all) {
      var i :| 0 <= i < |txs| && txs[i].fSetLimit && txs[i].vin != [] && txs[i].vin[0].pubKey == a;
      assert all[i] == txs[i];
    }
    assert tx.fSetLimit ==> all[|txs|].vin[0].pubKey in LimitsIn(all);
  }

  lemma DrawsSnoc(txs: seq<Tx>, tx: Tx)
    ensures DrawsIn(txs + [tx]) == DrawsIn(txs) + if tx.fSetLimit then {} else Accounts(tx)
  {
    var all := txs + [tx];
    forall a | a in DrawsIn(txs) ensures a in DrawsIn(all) {
      var i, j :| 0 <= i < |txs| && !txs[i].fSetLimit && 0 <= j < |txs[i].vin| && txs[i].vin[j].pubKey == a;
      assert all[i].vin[j].pubKey == a;
    }
    forall a | !tx.fSetLimit && a in Accounts(tx) ensures a in DrawsIn(all) {
      var j :| 0 <= j < |tx.vin| && tx.vin[j].pubKey == a;
      assert all[|txs|].vin[j].pubKey == a;
    }
  }

  lemma NewOverlap(txs: seq<Tx>, tx: Tx)
    requires tx.vin != []
    ensures (exists i :: 0 <= i < |txs| && Overlap(txs[i], tx)) <==>
            if tx.fSetLimit then tx.vin[0].pubKey in LimitsIn(txs) + DrawsIn(txs) else Accounts(tx) * LimitsIn(txs) != {}
  {
    if i :| 0 <= i < |txs| && Overlap(txs[i], tx) {
      if tx.fSetLimit && !txs[i].fSetLimit {
        var j :| 0 <= j < |txs[i].vin| && txs[i].vin[j].pubKey == tx.vin[0].pubKey;
        assert txs[i].vin[j].pubKey in DrawsIn(txs);
      } else {
        assert txs[i].vin[0].pubKey in LimitsIn(txs);
        assert !tx.fSetLimit ==> txs[i].vin[0].pubKey in Accounts(tx) * LimitsIn(txs);
      }
    }
  }

  lemma NoOverlapSnoc(txs: seq<Tx>, tx: Tx)
    ensures NoOverlap(txs + [tx]) <==> NoOverlap(txs) && !exists i :: 0 <= i < |txs| && Overlap(txs[i], tx)
  {
    var all := txs + [tx];
    assert forall i :: 0 <= i < |txs| ==> all[i] == txs[i];
    assert all[|txs|] == tx;
  }

  lemma OverlapStays(txs: seq<Tx>, n: nat)
    requires n <= |txs| && !NoOverlap(txs[..n])
    ensures !NoOverlap(txs)
  {
  }

  /** Two candidates that may both get into the block, one setting the limit of an account and one drawing from it. */
  ghost predicate Conflict(policy: Policy, max: nat, cand: seq<Tx>) {
    exists a, b :: a in cand && b in cand && Fit(policy, max, a, b) && LimitOf(a, b)
  }

  ghost predicate Fit(policy: Policy, max: nat, a: Tx, b: Tx) {
    Passed(policy, a) && Passed(policy, b) && 1000 + a.nSize + b.nSize < max
  }

  lemma {:induction false} SizeOfTwo(txs: seq<Tx>, i: nat, j: nat)
    requires i < j < |txs|
    ensures TotalSize(txs) >= txs[i].nSize + txs[j].nSize
  {
    var n := |txs| - 1;
    if j < n {
      SizeOfTwo(txs[..n], i, j);
    } else {
      SizeOfOne(txs[..n], i);
    }
  }

  lemma {:induction false} SizeOfOne(txs: seq<Tx>, i: nat)
    requires i < |txs|
    ensures TotalSize(txs) >= txs[i].nSize
  {
    if i < |txs| - 1 {
      SizeOfOne(txs[..|txs| - 1], i);
    }
  }

  /** An overlap in the block comes from candidates in conflict. */
  lemma OverlapConflict(policy: Policy, max: nat, cand: seq<Tx>, order: seq<Tx>)
    requires multiset(order) == multiset(cand) && !NoOverlap(FillAll(policy, max, order).txs)
    ensures Conflict(policy, max, cand)
  {
    var f := FillAll(policy, max, order);
    FillOk(policy, max, order);
    var i, j :| 0 <= i < j < |f.txs| && Overlap(f.txs[i], f.txs[j]);
    var a, b := f.txs[i], f.txs[j];
    assert a in order && b in order && a in multiset(order) && b in multiset(order);
    assert a.vin[0].pubKey in Accounts(a);
    SizeOfTwo(f.txs, i, j);
    assert Fit(policy, max, a, b) && LimitOf(a, b);
  }

  /** Candidates in conflict overlap if they come off the heap first, the limit before the draw. */
  lemma ConflictOverlap(policy: Policy, max: nat, cand: seq<Tx>) returns (order: seq<Tx>)
    requires Conflict(policy, max, cand)
    ensures multiset(order) == multiset(cand) && !NoOverlap(FillAll(policy, max, order).txs)
  {
    var a, b :| a in cand && b in cand && Fit(policy, max, a, b) && LimitOf(a, b);
    var rest := Others(cand, a, b);
    order := [a, b] + rest;
    BothIn(policy, max, a, b);
    FillPrefix(policy, max, [a, b], rest);
    var txs := FillAll(policy, max, order).txs;
    assert txs[0] == a && txs[1] == b && Overlap(txs[0], txs[1]);
  }

  lemma BothIn(policy: Policy, max: nat, a: Tx, b: Tx)
    requires Fit(policy, max, a, b) && LimitOf(a, b)
    ensures FillAll(policy, max, [a, b]).txs == [a, b]
  {
    FillSnoc(policy, max, [], a);
    FillSnoc(policy, max, [a], b);
    assert [] + [a] == [a] && [a] + [b] == [a, b];
    assert FillAll(policy, max, [a]).txs == [a];
  }

  lemma Others(cand: seq<Tx>, a: Tx, b: Tx) returns (rest: seq<Tx>)
    requires a in cand && b in cand && a != b
    ensures multiset([a, b] + rest) == multiset(cand)
  {
    var without := WithoutOne(cand, a);
    assert b in multiset([a] + without) && b in without;
    rest := WithoutOne(without, b);
    assert multiset([a, b] + rest) == multiset([a]) + multiset([b] + rest);
  }

  lemma WithoutOne(s: seq<Tx>, x: Tx) returns (rest: seq<Tx>)
    requires x in s
    ensures multiset([x] + rest) == multiset(s)
  {
    var k :| 0 <= k < |s| && s[k] == x;
    rest := s[..k] + s[k + 1..];
    assert s == s[..k] + [s[k]] + s[k + 1..];
  }

  /** Filling alone keeps the rule for limits and withdrawals, whatever the order, exactly if no candidates conflict. */
  lemma FillRule(policy: Policy, max: nat, cand: seq<Tx>)
    ensures (forall order :: multiset(order) == multiset(cand) ==> NoOverlap(FillAll(policy, max, order).txs)) <==>
            !Conflict(policy, max, cand)
  {
    if Conflict(policy, max, cand) {
      var order := ConflictOverlap(policy, max, cand);
      assert !NoOverlap(FillAll(policy, max, order).txs);
    } else {
      forall order | multiset(order) == multiset(cand) ensures NoOverlap(FillAll(policy, max, order).txs) {
        if !NoOverlap(FillAll(policy, max, order).txs) {
          OverlapConflict(policy, max, cand, order);
        }
      }
    }
  }

  // ---------------------------------------------------------------- the template

  /** Add one transaction to the block if it passes. */
  method FillOne(policy: Policy, nBlockMaxSize: nat, tx: Tx, f0: Filling) returns (f: Filling)
    requires tx.vin != []
    ensures f == Considered(policy, nBlockMaxSize, f0, tx)
  {
    var add, setLimits := Consider(tx, f0.nBlockSize, nBlockMaxSize, policy, f0.setTxOps, f0.setLimits);
    f := f0.(setLimits := setLimits);
    if add {
      f := Added(f, tx);
    }
  }

  /** The candidates have come off the heap in some order as far as they are no longer on it. */
  ghost predicate Underway(policy: Policy, max: nat, cand: seq<Tx>, f: Filling, order: seq<Tx>, heap: seq<Tx>) {
    && multiset(order) + multiset(heap) == multiset(cand) && f == FillAll(policy, max, order)
    && Shared(cand, f.txs, heap) && forall i :: 0 <= i < |heap| ==> heap[i].vin != []
  }

  lemma Onward(policy: Policy, max: nat, cand: seq<Tx>, f: Filling, g: Filling, order: seq<Tx>, heap: seq<Tx>, k: nat)
    requires Underway(policy, max, cand, f, order, heap) && k < |heap|
    requires g == FillAll(policy, max, order + [heap[k]]) && (g.txs == f.txs || g.txs == f.txs + [heap[k]])
    ensures Underway(policy, max, cand, g, order + [heap[k]], heap[..k] + heap[k + 1..])
  {
    Moved(order, heap, k);
    Popped(cand, f.txs, heap, k);
  }

  /** At most the transaction itself is added. */
  lemma AddsOne(policy: Policy, max: nat, f: Filling, tx: Tx)
    ensures var g := Considered(policy, max, f, tx); g.txs == f.txs || g.txs == f.txs + [tx]
  {
  }

  lemma Moved(order: seq<Tx>, heap: seq<Tx>, k: nat)
    requires k < |heap|
    ensures multiset(order + [heap[k]]) + multiset(heap[..k] + heap[k + 1..]) == multiset(order) + multiset(heap)
  {
    assert heap == heap[..k] + [heap[k]] + heap[k + 1..];
  }

  /** Fill the block with candidates, taken off the heap in any order. */
  method Fill(cand: seq<Tx>, policy: Policy, nBlockMaxSize: nat) returns (f: Filling, ghost order: seq<Tx>)
    requires forall tx :: tx in cand ==> tx.vin != []
    ensures multiset(order) == multiset(cand) && f == FillAll(policy, nBlockMaxSize, order)
    ensures Filled(policy, nBlockMaxSize, f) && Shared(cand, f.txs, [])
  {
    var heap := cand;
    f, order := EMPTY, [];
    while heap != []
      invariant Underway(policy, nBlockMaxSize, cand, f, order, heap)
      decreases |heap|
    {
      var k :| 0 <= k < |heap|;
      var f' := FillOne(policy, nBlockMaxSize, heap[k], f);
      FillSnoc(policy, nBlockMaxSize, order, heap[k]);
      AddsOne(policy, nBlockMaxSize, f, heap[k]);
      Onward(policy, nBlockMaxSize, cand, f, f', order, heap, k);
      f := f';
      order, heap := order + [heap[k]], heap[..k] + heap[k + 1..];
    }
    FillOk(policy, nBlockMaxSize, order);
  }

  /** A transaction of the pool that passes and sets no limit is in the block, unless the eligible ones before it
      may have used up what it draws from, or it does not fit beside what is in the block. */
  ghost predicate Complete(view: View, policy: Policy, max: nat, pool: seq<Tx>, txs: seq<Tx>) {
    forall i :: 0 <= i < |pool| && Suitable(view, policy, pool[i]) && Passed(policy, pool[i]) && !pool[i].fSetLimit ==>
      || pool[i] in txs || 1000 + TotalSize(txs) + pool[i].nSize >= max
      || Short(view, Eligible(policy, pool[..i]), pool[i].vin)
  }

  /** The accounts can pay for everything eligible, and all that is suitable passes, sets no limit and fits. */
  ghost predicate Roomy(view: View, policy: Policy, max: nat, pool: seq<Tx>) {
    && Ample(view, policy, pool)
    && var all := SuitableOf(view, policy, pool);
       1000 + TotalSize(all) < max && forall i :: 0 <= i < |all| ==> Passed(policy, all[i]) && !all[i].fSetLimit
  }

  lemma FilledComplete(view: View, policy: Policy, max: nat, pool: seq<Tx>, taken: seq<bool>, cand: seq<Tx>, order: seq<Tx>, f: Filling)
    requires TakenOk(view, policy, pool, taken) && cand == Picked(pool, taken) && multiset(order) == multiset(cand)
    requires f == FillAll(policy, max, order) && Filled(policy, max, f) && forall tx :: tx in pool ==> tx.vin != []
    ensures Complete(view, policy, max, pool, f.txs)
  {
    forall i | 0 <= i < |pool| && taken[i] && pool[i] !in f.txs && Passed(policy, pool[i]) && !pool[i].fSetLimit
      ensures 1000 + TotalSize(f.txs) + pool[i].nSize >= max
    {
      PickedIn(pool, taken, i);
      assert pool[i] in multiset(order);
      LeftOut(policy, max, order, pool[i]);
    }
  }

  lemma FilledRoomy(view: View, policy: Policy, max: nat, pool: seq<Tx>, taken: seq<bool>, cand: seq<Tx>, order: seq<Tx>)
    requires TakenOk(view, policy, pool, taken) && cand == Picked(pool, taken) && multiset(order) == multiset(cand)
    requires Roomy(view, policy, max, pool) && forall tx :: tx in cand ==> tx.vin != []
    ensures multiset(FillAll(policy, max, order).txs) == multiset(SuitableOf(view, policy, pool))
  {
    AllTaken(view, policy, pool, taken);
    SizeOfOrder(order, cand);
    forall i | 0 <= i < |order| ensures order[i] in cand {
      assert order[i] in multiset(order) && order[i] in multiset(cand);
    }
    AllIn(policy, max, order);
  }

  /** The transactions of the template without the coinbase. */
  method Choose(mempool: seq<Tx>, view: View, policy: Policy, nBlockMaxSize: nat) returns (f: Filling)
    requires forall tx :: tx in mempool ==> tx.vin != []
    ensures Filled(policy, nBlockMaxSize, f)
    ensures multiset(f.txs) <= multiset(mempool) && Affordable(view, f.txs) && Chosen(view, policy, f.txs)
    ensures Complete(view, policy, nBlockMaxSize, mempool, f.txs)
    ensures Roomy(view, policy, nBlockMaxSize, mempool) ==> multiset(f.txs) == multiset(SuitableOf(view, policy, mempool))
  {
    ghost var taken;
    var cand;
    cand, taken := Candidates(mempool, view, policy);
    FromPool(mempool, cand);
    ghost var order;
    f, order := Fill(cand, policy, nBlockMaxSize);
    SharedOk(view, policy, cand, f.txs);
    FilledComplete(view, policy, nBlockMaxSize, mempool, taken, cand, order, f);
    if Roomy(view, policy, nBlockMaxSize, mempool) {
      FilledRoomy(view, policy, nBlockMaxSize, mempool, taken, cand, order);
    }
  }

  const COIN := 10_000_000_000
  const CENT := 100_000_000
  const MAX_MONEY := 1_844_674_407 * COIN

  /** What a block pays its miner: a fixed share of the coinbase account, and the fees. */
  function GetBlockValue(coinbase: nat, nFees: nat): nat {
    coinbase * (243 * COIN + 10 * CENT) / MAX_MONEY + nFees
  }

  /** The share is never more than there is. */
  lemma BlockValueBound(coinbase: nat, nFees: nat)
    ensures nFees <= GetBlockValue(coinbase, nFees) <= coinbase + nFees
    ensures coinbase > 0 ==> GetBlockValue(coinbase, nFees) < coinbase + nFees
    ensures var share := GetBlockValue(coinbase, nFees) - nFees;
            share * 18446744070000000000 <= coinbase * 2431000000000 < (share + 1) * 18446744070000000000
  {
  }

  /** The first transaction: it draws from the coinbase account, which is number zero, and pays the miner. */
  function CoinBase(id: nat, nSize: nat, pubKey: Account, value: nat): Tx {
    Tx(id, [In(0, value)], [Out(pubKey, value)], nSize, false)
  }

  function BalanceOf(view: View, a: Account): nat {
    if a in view.balances then view.balances[a] else 0
  }

  /**
   * A template: the coinbase first, with the negated fees of all the others. It is handed out only if a trial
   * connect accepts it; connects is what that says of everything but limits and withdrawals.
   */
  method CreateNewBlock(mempool: seq<Tx>, view: View, policy: Policy, nextMaxSize: nat, pubKey: Account, id: nat, nSize: nat, connects: bool)
    returns (ok: bool, vtx: seq<Tx>, vTxFees: seq<int>, ghost txs: seq<Tx>, ghost fees: seq<int>)
    requires forall tx :: tx in mempool ==> tx.vin != []
    ensures Sum(fees) >= 0
    ensures var value := GetBlockValue(if 0 in view.balances then view.balances[0] else 0, Sum(fees));
            vtx == [Tx(id, [In(0, value)], [Out(pubKey, value)], nSize, false)] + txs
    ensures vTxFees == [-Sum(fees)] + fees && FeesOf(txs, fees) && Sum(vTxFees) == 0
    ensures multiset(txs) <= multiset(mempool) && Affordable(view, txs) && Chosen(view, policy, txs)
    ensures txs != [] ==> 1000 + TotalSize(txs) < Cap(nextMaxSize)
    ensures Complete(view, policy, Cap(nextMaxSize), mempool, txs)
    ensures Roomy(view, policy, Cap(nextMaxSize), mempool) ==> multiset(txs) == multiset(SuitableOf(view, policy, mempool))
    ensures LimitsFirst(txs) && forall i :: 0 <= i < |txs| ==> Passed(policy, txs[i])
    ensures ok <==> connects && NoOverlap(vtx)
  {
    var f := Choose(mempool, view, policy, Cap(nextMaxSize));
    txs, fees := f.txs, f.fees;
    vtx, vTxFees := Assemble(f, view, pubKey, id, nSize);
    FromPool(mempool, f.txs);
    ok := Connects(vtx, connects);
  }

  /** Put the coinbase in front. */
  method Assemble(f: Filling, view: View, pubKey: Account, id: nat, nSize: nat) returns (vtx: seq<Tx>, vTxFees: seq<int>)
    requires FeesOf(f.txs, f.fees) && f.nFees == Sum(f.fees)
    ensures Sum(f.fees) >= 0
    ensures var value := GetBlockValue(if 0 in view.balances then view.balances[0] else 0, Sum(f.fees));
            vtx == [Tx(id, [In(0, value)], [Out(pubKey, value)], nSize, false)] + f.txs
    ensures vTxFees == [-Sum(f.fees)] + f.fees && Sum(vTxFees) == 0
  {
    Balanced(f.fees, f.nFees);
    FeesPositive(f.txs, f.fees);
    var coinbase := CoinBase(id, nSize, pubKey, GetBlockValue(BalanceOf(view, 0), f.nFees));
    vtx, vTxFees := [coinbase] + f.txs, [-f.nFees] + f.fees;
  }

  lemma {:induction false} FeesPositive(txs: seq<Tx>, fees: seq<int>)
    requires FeesOf(txs, fees)
    ensures Sum(fees) >= 0
    decreases |fees|
  {
    if fees != [] {
      FeesPositive(txs[..|txs| - 1], fees[..|fees| - 1]);
    }
  }

  /** The trial connect. */
  method Connects(vtx: seq<Tx>, connects: bool) returns (ok: bool)
    requires forall tx :: tx in vtx ==> tx.vin != []
    ensures ok <==> connects && NoOverlap(vtx)
  {
    ok := CheckLimits(vtx);
    ok := ok && connects;
  }

  lemma Balanced(fees: seq<int>, nFees: int)
    requires nFees == Sum(fees)
    ensures Sum([-nFees] + fees) == 0
  {
    SumCons(-nFees, fees);
  }

  lemma {:induction false} SumCons(x: int, fees: seq<int>)
    ensures Sum([x] + fees) == x + Sum(fees)
    decreases |fees|
  {
    if fees == [] {
      assert [x] + fees == [x] && [x][..0] == [];
    } else {
      assert ([x] + fees)[..|fees|] == [x] + fees[..|fees| - 1];
      SumCons(x, fees[..|fees| - 1]);
    }
  }
}
