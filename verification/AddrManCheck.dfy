/** The manager's own consistency check, and that a consistent state passes it. */
module AddrManCheck {
  import opened AddrManState
  import opened AddrManSteps

  /** All entries of all buckets, with repetitions. */
  ghost function Listing(vv: seq<seq<nat>>): multiset<nat> {
    if vv == [] then multiset{} else Listing(vv[..|vv| - 1]) + multiset(vv[|vv| - 1])
  }

  /** The code of the first demand one entry fails, or zero. */
  function InfoCode(n: nat, i: Info, addr: map<NetAddr, nat>, vRandom: seq<nat>): int {
    if i.fInTried && i.nLastSuccess == 0 then -1
    else if i.fInTried && i.nRefCount != 0 then -2
    else if !i.fInTried && (i.nRefCount < 0 || i.nRefCount > NEW_BUCKETS_PER_ADDRESS) then -3
    else if !i.fInTried && i.nRefCount == 0 then -4
    else if (if i.service.net in addr then addr[i.service.net] else 0) != n then -5
    else if i.nRandomPos < 0 || i.nRandomPos >= |vRandom| || vRandom[i.nRandomPos] != n then -14
    else if i.nLastTry < 0 then -6
    else if i.nLastSuccess < 0 then -8
    else 0
  }

  ghost function Owed(m: map<nat, int>, n: nat): int { if n in m then m[n] else 0 }

  ghost function Refs(info: map<nat, Info>): map<nat, int> {
    map n | n in NewIds(info) :: info[n].nRefCount
  }

  /** The tried buckets list every tried entry exactly once and nothing else; the new buckets list every new
      entry as often as it is referenced and nothing else. */
  ghost predicate CheckPasses(s: State) {
    && |s.vRandom| == s.nTried + s.nNew
    && (forall n :: n in s.mapInfo ==> InfoCode(n, s.mapInfo[n], s.mapAddr, s.vRandom) == 0)
    && |TriedIds(s.mapInfo)| == s.nTried && |NewIds(s.mapInfo)| == s.nNew
    && Listing(s.vvTried) == multiset(TriedIds(s.mapInfo))
    && (forall n :: Owed(Refs(s.mapInfo), n) == |BucketsOf(s.vvNew, n)|)
  }

  /** What has been gathered when the entries in rest are still to come. */
  ghost predicate Gathered(info: map<nat, Info>, rest: set<nat>, setTried: set<nat>, mapNew: map<nat, int>) {
    && setTried == TriedIds(info) - rest
    && mapNew.Keys == NewIds(info) - rest
    && forall n :: n in mapNew ==> mapNew[n] == info[n].nRefCount
  }

  lemma GatheredAll(info: map<nat, Info>, setTried: set<nat>, mapNew: map<nat, int>)
    requires Gathered(info, {}, setTried, mapNew)
    ensures setTried == TriedIds(info) && mapNew == Refs(info)
  {
    assert mapNew.Keys == Refs(info).Keys;
  }

  method CheckInfos(info: map<nat, Info>, addr: map<NetAddr, nat>, vRandom: seq<nat>)
    returns (code: int, setTried: set<nat>, mapNew: map<nat, int>)
    ensures code == 0 <==> forall n :: n in info ==> InfoCode(n, info[n], addr, vRandom) == 0
    ensures code == 0 ==> setTried == TriedIds(info) && mapNew == Refs(info)
  {
    code, setTried, mapNew := 0, {}, map[];
    var rest := info.Keys;
    while rest != {}
      invariant rest <= info.Keys && Gathered(info, rest, setTried, mapNew)
      invariant forall n :: n in info && n !in rest ==> InfoCode(n, info[n], addr, vRandom) == 0
      decreases |rest|
    {
      var n :| n in rest;
      code := InfoCode(n, info[n], addr, vRandom);
      if code != 0 { return; }
      setTried, mapNew := Gather(info, rest, setTried, mapNew, n);
      rest := rest - {n};
    }
    GatheredAll(info, setTried, mapNew);
  }

  method Gather(info: map<nat, Info>, ghost rest: set<nat>, setTried: set<nat>, mapNew: map<nat, int>, n: nat)
    returns (setTried': set<nat>, mapNew': map<nat, int>)
    requires n in rest && rest <= info.Keys && Gathered(info, rest, setTried, mapNew)
    ensures Gathered(info, rest - {n}, setTried', mapNew')
  {
    setTried', mapNew' := setTried, mapNew;
    if info[n].fInTried {
      setTried' := setTried + {n};
    } else {
      mapNew' := mapNew[n := info[n].nRefCount];
    }
  }

  lemma {:induction false} ListingPrefix(vv: seq<seq<nat>>, k: nat)
    requires k <= |vv|
    ensures Listing(vv[..k]) <= Listing(vv)
    decreases |vv|
  {
    if k < |vv| {
      var rest := vv[..|vv| - 1];
      ListingPrefix(rest, k);
      assert rest[..k] == vv[..k];
    } else {
      assert vv[..k] == vv;
    }
  }

  lemma ListingNext(vv: seq<seq<nat>>, k: nat)
    requires k < |vv|
    ensures Listing(vv[..k + 1]) == Listing(vv[..k]) + multiset(vv[k])
  {
    assert vv[..k + 1][..k] == vv[..k];
  }

  /** Crossing every listed entry off the set of tried entries. */
  method CheckTried(vvTried: seq<seq<nat>>, tried: set<nat>) returns (code: int, left: set<nat>)
    ensures code == 0 ==> multiset(tried) == Listing(vvTried) + multiset(left)
    ensures code != 0 ==> Listing(vvTried) != multiset(tried)
  {
    code, left := 0, tried;
    var k := 0;
    while k < |vvTried|
      invariant k <= |vvTried|
      invariant multiset(tried) == Listing(vvTried[..k]) + multiset(left)
    {
      var bucket, i := vvTried[k], 0;
      ListingNext(vvTried, k);
      while i < |bucket|
        invariant i <= |bucket|
        invariant multiset(tried) == Listing(vvTried[..k]) + multiset(bucket[..i]) + multiset(left)
      {
        if bucket[i] !in left {
          code := -11;
          CrossedTwice(vvTried, tried, left, k, i);
          return;
        }
        assert bucket[..i + 1] == bucket[..i] + [bucket[i]];
        left := left - {bucket[i]};
        i := i + 1;
      }
      assert bucket[..i] == bucket;
      k := k + 1;
    }
    assert vvTried[..k] == vvTried;
  }

  lemma CrossedTwice(vvTried: seq<seq<nat>>, tried: set<nat>, left: set<nat>, k: nat, i: nat)
    requires k < |vvTried| && i < |vvTried[k]| && vvTried[k][i] !in left
    requires multiset(tried) == Listing(vvTried[..k]) + multiset(vvTried[k][..i]) + multiset(left)
    ensures Listing(vvTried) != multiset(tried)
  {
    var n, bucket := vvTried[k][i], vvTried[k];
    ListingNext(vvTried, k);
    ListingPrefix(vvTried, k + 1);
    assert bucket == bucket[..i] + [n] + bucket[i + 1..];
    assert multiset(bucket)[n] > multiset(bucket[..i])[n];
    assert Listing(vvTried[..k + 1])[n] > multiset(tried)[n];
  }

  ghost predicate Positive(m: map<nat, int>) { forall n :: n in m ==> m[n] > 0 }

  /** Crossing one reference per listed entry off the reference counts. */
  method CrossOff(bucket: set<nat>, owed: map<nat, int>) returns (ok: bool, left: map<nat, int>)
    requires Positive(owed)
    ensures ok ==> Positive(left) && forall n :: Owed(owed, n) == Owed(left, n) + if n in bucket then 1 else 0
    ensures !ok ==> exists n :: n in bucket && n !in owed
  {
    ok, left := true, owed;
    var rest := bucket;
    while rest != {}
      invariant rest <= bucket && Positive(left)
      invariant forall n :: Owed(owed, n) == Owed(left, n) + if n in bucket - rest then 1 else 0
      decreases |rest|
    {
      var n :| n in rest;
      if n !in left {
        assert Owed(owed, n) == 0;
        ok := false;
        return;
      }
      rest := rest - {n};
      left := left[n := left[n] - 1];
      if left[n] == 0 {
        left := left - {n};
      }
    }
  }

  method CheckNew(vvNew: seq<set<nat>>, owed: map<nat, int>) returns (code: int, left: map<nat, int>)
    requires Positive(owed)
    ensures code == 0 ==> Positive(left) && forall n :: Owed(owed, n) == |BucketsOf(vvNew, n)| + Owed(left, n)
    ensures code != 0 ==> exists n :: Owed(owed, n) != |BucketsOf(vvNew, n)|
  {
    code, left := 0, owed;
    var b := 0;
    assert forall n :: BucketsOf(vvNew[..0], n) == {};
    while b < |vvNew|
      invariant b <= |vvNew| && Positive(left)
      invariant forall n :: Owed(owed, n) == |BucketsOf(vvNew[..b], n)| + Owed(left, n)
    {
      var ok, left' := CrossOff(vvNew[b], left);
      if !ok {
        code := -12;
        var n :| n in vvNew[b] && n !in left;
        OverListed(vvNew, b, n);
        assert Owed(left, n) == 0;
        return;
      }
      forall n ensures |BucketsOf(vvNew[..b + 1], n)| == |BucketsOf(vvNew[..b], n)| + if n in vvNew[b] then 1 else 0 {
        BucketsPrefix(vvNew, b, n);
      }
      left := left';
      b := b + 1;
    }
    assert vvNew[..b] == vvNew;
  }

  lemma BucketsPrefix(vvNew: seq<set<nat>>, b: nat, n: nat)
    requires b < |vvNew|
    ensures |BucketsOf(vvNew[..b + 1], n)| == |BucketsOf(vvNew[..b], n)| + if n in vvNew[b] then 1 else 0
  {
    assert BucketsOf(vvNew[..b + 1], n) == BucketsOf(vvNew[..b], n) + if n in vvNew[b] then {b} else {};
  }

  lemma OverListed(vvNew: seq<set<nat>>, b: nat, n: nat)
    requires b < |vvNew| && n in vvNew[b]
    ensures |BucketsOf(vvNew, n)| > |BucketsOf(vvNew[..b], n)|
  {
    BucketsPrefix(vvNew, b, n);
    SubsetCount(BucketsOf(vvNew[..b + 1], n), BucketsOf(vvNew, n));
  }

  /** The consistency check: zero exactly when the tables pass. */
  method Check(s: State) returns (err: int)
    ensures err == 0 <==> CheckPasses(s)
  {
    if |s.vRandom| != s.nTried + s.nNew { return -7; }
    var code, setTried, mapNew := CheckInfos(s.mapInfo, s.mapAddr, s.vRandom);
    if code != 0 { return code; }
    if |setTried| != s.nTried { return -9; }
    RefsCount(s.mapInfo);
    if |mapNew| != s.nNew { return -10; }
    var triedLeft, newLeft;
    code, triedLeft := CheckTried(s.vvTried, setTried);
    if code != 0 { return code; }
    assert Positive(mapNew);
    code, newLeft := CheckNew(s.vvNew, mapNew);
    if code != 0 { return code; }
    if triedLeft != {} {
      var n :| n in triedLeft;
      assert multiset(triedLeft)[n] == 1;
      return -13;
    }
    if newLeft != map[] {
      var n :| n in newLeft;
      assert Owed(newLeft, n) > 0;
      return -15;
    }
    return 0;
  }

  lemma RefsCount(info: map<nat, Info>)
    ensures |Refs(info)| == |NewIds(info)|
  {
    assert Refs(info).Keys == NewIds(info);
  }

  // ---------------------------------------------------------------- a consistent state passes

  lemma ConsistentPasses(s: State)
    requires Core(s) && ViewTimesOk(ViewOf(s))
    ensures CheckPasses(s)
  {
    RandomCount(s.mapInfo, s.vRandom);
    forall n | n in s.mapInfo ensures InfoCode(n, s.mapInfo[n], s.mapAddr, s.vRandom) == 0 {
      InfoConsistent(s, n);
    }
    ListingExact(s.env, s.key, s.mapInfo, s.vvTried);
    forall n ensures Owed(Refs(s.mapInfo), n) == |BucketsOf(s.vvNew, n)| {
      RefsExact(s.mapInfo, s.vvNew, n);
    }
  }

  /** And a consistent state passes only if its recorded times are in order. */
  lemma PassesTimely(s: State)
    requires Core(s) && CheckPasses(s)
    ensures ViewTimesOk(ViewOf(s))
  {
    forall a | a in ViewOf(s)
      ensures var e := ViewOf(s)[a]; TimesOk(e.inTried, e.nLastTry, e.nLastSuccess)
    {
      var n := s.mapAddr[a];
      assert InfoCode(n, s.mapInfo[n], s.mapAddr, s.vRandom) == 0;
    }
  }

  // ---------------------------------------------------------------- what the check amounts to

  /** Looking up the address of an entry gives its id; an address that is missing is taken for that of id zero. */
  ghost predicate LooksUp(info: map<nat, Info>, addr: map<NetAddr, nat>) {
    forall n :: n in info ==> if info[n].service.net in addr then addr[info[n].service.net] == n else n == 0
  }

  ghost predicate InfoTimesOk(info: map<nat, Info>) {
    forall n :: n in info ==> TimesOk(info[n].fInTried, info[n].nLastTry, info[n].nLastSuccess)
  }

  /** The reference counts are within their bounds. */
  ghost predicate CountsWithin(i: Info) {
    if i.fInTried then i.nRefCount == 0 else 1 <= i.nRefCount <= 4
  }

  lemma InfoCodeMeans(n: nat, i: Info, addr: map<NetAddr, nat>, vRandom: seq<nat>)
    ensures InfoCode(n, i, addr, vRandom) == 0 <==>
            && TimesOk(i.fInTried, i.nLastTry, i.nLastSuccess) && CountsWithin(i)
            && (if i.service.net in addr then addr[i.service.net] == n else n == 0)
            && 0 <= i.nRandomPos < |vRandom| && vRandom[i.nRandomPos] == n
  {
  }

  ghost predicate AllCounts(info: map<nat, Info>, vvNew: seq<set<nat>>) {
    AllWithin(info) && forall n :: Owed(Refs(info), n) == |BucketsOf(vvNew, n)|
  }

  ghost predicate AllWithin(info: map<nat, Info>) {
    forall n :: n in info ==> CountsWithin(info[n])
  }

  /** Counts within bounds that agree with the buckets are the conditions on the new table. */
  lemma NewExactly(info: map<nat, Info>, vvNew: seq<set<nat>>)
    requires |vvNew| == NEW_BUCKET_COUNT
    ensures AllCounts(info, vvNew) <==> NewOk(info, vvNew, {})
  {
    if AllCounts(info, vvNew) {
      forall b, n | 0 <= b < |vvNew| && n in vvNew[b] ensures n in info && !info[n].fInTried {
        assert b in BucketsOf(vvNew, n) && Owed(Refs(info), n) == |BucketsOf(vvNew, n)|;
      }
      forall n | n in info ensures CountOk(info[n], vvNew, n, 0) {
        assert CountsWithin(info[n]) && Owed(Refs(info), n) == |BucketsOf(vvNew, n)|;
      }
    }
    if NewOk(info, vvNew, {}) {
      forall n ensures Owed(Refs(info), n) == |BucketsOf(vvNew, n)| {
        RefsExact(info, vvNew, n);
      }
      forall n | n in info ensures CountsWithin(info[n]) {
        assert CountOk(info[n], vvNew, n, 0);
      }
    }
  }

  ghost predicate Positioned(info: map<nat, Info>, vRandom: seq<nat>) {
    forall n :: n in info ==> 0 <= info[n].nRandomPos < |vRandom| && vRandom[info[n].nRandomPos] == n
  }

  ghost function Positions(info: map<nat, Info>, ids: set<nat>): set<int>
    requires ids <= info.Keys
  {
    set n | n in ids :: info[n].nRandomPos
  }

  lemma {:induction false} PositionCount(info: map<nat, Info>, vRandom: seq<nat>, ids: set<nat>)
    requires Positioned(info, vRandom) && ids <= info.Keys
    ensures |Positions(info, ids)| == |ids|
    decreases |ids|
  {
    if ids == {} {
      assert Positions(info, ids) == {};
    } else {
      var n :| n in ids;
      PositionCount(info, vRandom, ids - {n});
      assert Positions(info, ids) == Positions(info, ids - {n}) + {info[n].nRandomPos};
      assert info[n].nRandomPos !in Positions(info, ids - {n});
    }
  }

  ghost function Range(n: nat): (r: set<int>)
    ensures |r| == n && forall i :: i in r <==> 0 <= i < n
  {
    if n == 0 then {} else Range(n - 1) + {n - 1}
  }

  lemma Subset(a: set<int>, b: set<int>)
    requires a <= b && |a| == |b|
    ensures a == b
  {
    assert b == a + (b - a);
  }

  /** If there are as many places as entries, and each entry is at its place, the order is a permutation of them. */
  lemma PlacesExactly(info: map<nat, Info>, vRandom: seq<nat>)
    ensures Positioned(info, vRandom) && |vRandom| == |info| <==> RandomOk(info, vRandom)
  {
    if Positioned(info, vRandom) && |vRandom| == |info| {
      PositionCount(info, vRandom, info.Keys);
      Subset(Positions(info, info.Keys), Range(|vRandom|));
      forall i | 0 <= i < |vRandom| ensures vRandom[i] in info && info[vRandom[i]].nRandomPos == i {
        assert i in Positions(info, info.Keys);
      }
    }
    if RandomOk(info, vRandom) {
      RandomCount(info, vRandom);
    }
  }

  lemma IdsSplit(info: map<nat, Info>)
    ensures |info| == |NewIds(info)| + |TriedIds(info)|
  {
    assert info.Keys == NewIds(info) + TriedIds(info);
  }

  /** The check passes exactly if the random order, the new table, the totals and the times are in order, every entry
      is found under its address, and the tried table lists the tried entries once each. It looks neither at the
      sizes of buckets, nor at which bucket an entry is in, nor for addresses without an entry. */
  lemma CheckMeans(s: State)
    requires |s.vvNew| == NEW_BUCKET_COUNT
    ensures CheckPasses(s) <==>
            && RandomOk(s.mapInfo, s.vRandom) && NewOk(s.mapInfo, s.vvNew, {}) && TotalsOk(s.mapInfo, s.nNew, s.nTried)
            && LooksUp(s.mapInfo, s.mapAddr) && InfoTimesOk(s.mapInfo)
            && Listing(s.vvTried) == multiset(TriedIds(s.mapInfo))
  {
    CodesMean(s.mapInfo, s.mapAddr, s.vRandom);
    NewExactly(s.mapInfo, s.vvNew);
    PlacesExactly(s.mapInfo, s.vRandom);
    IdsSplit(s.mapInfo);
  }

  lemma CodesMean(info: map<nat, Info>, addr: map<NetAddr, nat>, vRandom: seq<nat>)
    ensures (forall n :: n in info ==> InfoCode(n, info[n], addr, vRandom) == 0) <==>
            InfoTimesOk(info) && AllWithin(info) && LooksUp(info, addr) && Positioned(info, vRandom)
  {
    if forall n :: n in info ==> InfoCode(n, info[n], addr, vRandom) == 0 {
      forall n | n in info
        ensures TimesOk(info[n].fInTried, info[n].nLastTry, info[n].nLastSuccess) && CountsWithin(info[n])
        ensures if info[n].service.net in addr then addr[info[n].service.net] == n else n == 0
        ensures 0 <= info[n].nRandomPos < |vRandom| && vRandom[info[n].nRandomPos] == n
      {
        assert InfoCode(n, info[n], addr, vRandom) == 0;
        InfoCodeMeans(n, info[n], addr, vRandom);
      }
    }
    if InfoTimesOk(info) && AllWithin(info) && LooksUp(info, addr) && Positioned(info, vRandom) {
      forall n | n in info ensures InfoCode(n, info[n], addr, vRandom) == 0 {
        InfoCodeMeans(n, info[n], addr, vRandom);
      }
    }
  }

  lemma InfoConsistent(s: State, n: nat)
    requires AddrOk(s.mapInfo, s.mapAddr) && RandomOk(s.mapInfo, s.vRandom) && NewOk(s.mapInfo, s.vvNew, {})
    requires n in s.mapInfo && ViewTimesOk(ViewOf(s))
    ensures InfoCode(n, s.mapInfo[n], s.mapAddr, s.vRandom) == 0
  {
    var a := s.mapInfo[n].service.net;
    assert CountOk(s.mapInfo[n], s.vvNew, n, 0);
    assert s.mapAddr[a] == n;
    assert ViewOf(s)[a] == EntryOf(s.mapInfo[n], BucketsOf(s.vvNew, n));
  }

  lemma RefsExact(info: map<nat, Info>, vvNew: seq<set<nat>>, n: nat)
    requires NewOk(info, vvNew, {})
    ensures Owed(Refs(info), n) == |BucketsOf(vvNew, n)|
  {
    if n in info {
      assert CountOk(info[n], vvNew, n, 0);
    } else {
      assert forall b :: 0 <= b < |vvNew| ==> n !in vvNew[b];
      assert BucketsOf(vvNew, n) == {};
    }
  }

  /** The tried bucket an entry belongs in; -1 for an entry that is not tried. */
  ghost function Home(env: Env, key: seq<nat>, info: map<nat, Info>, n: nat): int {
    if n in info && info[n].fInTried then GetTriedBucket(env, key, info[n].service) else -1
  }

  lemma ListedAtHome(env: Env, key: seq<nat>, info: map<nat, Info>, vvTried: seq<seq<nat>>, b: nat, n: nat)
    requires TriedOk(env, key, info, vvTried) && b < |vvTried|
    ensures multiset(vvTried[b])[n] == if Home(env, key, info, n) == b then 1 else 0
  {
    DistinctOnce(vvTried[b], n);
  }

  lemma ListingAt(vv: seq<seq<nat>>, k: nat, n: nat)
    requires k < |vv|
    ensures Listing(vv[..k + 1])[n] == Listing(vv[..k])[n] + multiset(vv[k])[n]
  {
    ListingNext(vv, k);
  }

  lemma {:induction false} ListedOnce(env: Env, key: seq<nat>, info: map<nat, Info>, vvTried: seq<seq<nat>>, k: nat, n: nat)
    requires TriedOk(env, key, info, vvTried) && k <= |vvTried|
    ensures Listing(vvTried[..k])[n] == if 0 <= Home(env, key, info, n) < k then 1 else 0
    decreases k
  {
    if k > 0 {
      ListedOnce(env, key, info, vvTried, k - 1, n);
      ListingAt(vvTried, k - 1, n);
      ListedAtHome(env, key, info, vvTried, k - 1, n);
    }
  }

  lemma {:induction false} DistinctOnce(s: seq<nat>, n: nat)
    requires Distinct(s)
    ensures multiset(s)[n] == if n in s then 1 else 0
  {
    if s != [] {
      var rest := s[..|s| - 1];
      assert s == rest + [s[|s| - 1]];
      DistinctOnce(rest, n);
    }
  }

  lemma ListingExact(env: Env, key: seq<nat>, info: map<nat, Info>, vvTried: seq<seq<nat>>)
    requires TriedOk(env, key, info, vvTried)
    ensures Listing(vvTried) == multiset(TriedIds(info))
  {
    assert vvTried[..|vvTried|] == vvTried;
    forall n ensures Listing(vvTried)[n] == multiset(TriedIds(info))[n] {
      ListedOnce(env, key, info, vvTried, |vvTried|, n);
    }
  }
}
