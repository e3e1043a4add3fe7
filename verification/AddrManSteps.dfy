/** The structural changes the address manager makes to its tables, as changes of a State
    value: each keeps the tables consistent and has a simple meaning in the view.
    The conditions are re-established one table at a time. */
module AddrManSteps {
  import opened AddrManState

  // ---------------------------------------------------------------- the random order

  /** Exchanging two positions of the random order, with the positions stored in the entries. */
  ghost function SwappedInfo(info: map<nat, Info>, vRandom: seq<nat>, p: nat, q: nat): map<nat, Info>
    requires p < |vRandom| && q < |vRandom|
  {
    map n | n in info ::
      info[n].(nRandomPos := if n == vRandom[p] then q else if n == vRandom[q] then p else info[n].nRandomPos)
  }

  ghost function SwappedOrder(vRandom: seq<nat>, p: nat, q: nat): seq<nat>
    requires p < |vRandom| && q < |vRandom|
  {
    vRandom[p := vRandom[q]][q := vRandom[p]]
  }

  /** Entries agree except for their positions in the random order. */
  ghost predicate SameButPosition(info: map<nat, Info>, info': map<nat, Info>) {
    && info.Keys == info'.Keys
    && forall n :: n in info ==> info'[n] == info[n].(nRandomPos := info'[n].nRandomPos)
  }

  lemma SwapSameButPosition(info: map<nat, Info>, vRandom: seq<nat>, p: nat, q: nat)
    requires p < |vRandom| && q < |vRandom|
    ensures SameButPosition(info, SwappedInfo(info, vRandom, p, q))
  {
  }

  lemma SwapKeepsRandom(info: map<nat, Info>, vRandom: seq<nat>, p: nat, q: nat)
    requires RandomOk(info, vRandom) && p < |vRandom| && q < |vRandom|
    ensures RandomOk(SwappedInfo(info, vRandom, p, q), SwappedOrder(vRandom, p, q))
  {
    var info', vRandom' := SwappedInfo(info, vRandom, p, q), SwappedOrder(vRandom, p, q);
    forall n | n in info'
      ensures 0 <= info'[n].nRandomPos < |vRandom'| && vRandom'[info'[n].nRandomPos] == n
    {
      assert 0 <= info[n].nRandomPos < |vRandom| && vRandom[info[n].nRandomPos] == n;
    }
  }

  lemma SameButPositionIndexing(info: map<nat, Info>, info': map<nat, Info>)
    requires SameButPosition(info, info')
    ensures SameIndexing(info, info')
  {
  }

  /** From s to s' two places of the random order have been exchanged. */
  ghost predicate SwappedTo(s: State, s': State, p: nat, q: nat)
    requires p < |s.vRandom| && q < |s.vRandom|
  {
    && s'.env == s.env && s'.key == s.key && s'.nIdCount == s.nIdCount && s'.mapAddr == s.mapAddr
    && s'.nTried == s.nTried && s'.vvTried == s.vvTried && s'.nNew == s.nNew && s'.vvNew == s.vvNew
    && s'.mapInfo == SwappedInfo(s.mapInfo, s.vRandom, p, q) && s'.vRandom == SwappedOrder(s.vRandom, p, q)
  }

  lemma SwappedOk(s: State, s': State, p: nat, q: nat, pending: set<nat>)
    requires CoreWith(s, pending) && p < |s.vRandom| && q < |s.vRandom| && SwappedTo(s, s', p, q)
    ensures CoreWith(s', pending) && ViewOf(s') == ViewOf(s)
  {
    SwapKeepsRandom(s.mapInfo, s.vRandom, p, q);
    SwapSameButPosition(s.mapInfo, s.vRandom, p, q);
    SameButPositionIndexing(s.mapInfo, s'.mapInfo);
    SameIndexingTried(s.env, s.key, s.mapInfo, s'.mapInfo, s.vvTried);
    SameIndexingNew(s.mapInfo, s'.mapInfo, s.vvNew, pending);
    SameIndexingTotals(s.mapInfo, s'.mapInfo, s.nNew, s.nTried);
    SameButPositionView(s.mapInfo, s'.mapInfo, s.mapAddr, s.vvNew);
  }

  lemma SameButPositionView(info: map<nat, Info>, info': map<nat, Info>, addr: map<NetAddr, nat>, vvNew: seq<set<nat>>)
    requires AddrOk(info, addr) && SameButPosition(info, info')
    ensures AddrOk(info', addr)
    ensures ViewFrom(info', addr, vvNew) == ViewFrom(info, addr, vvNew)
  {
    assert ViewFrom(info', addr, vvNew).Keys == ViewFrom(info, addr, vvNew).Keys;
  }

  // ---------------------------------------------------------------- rewriting an entry

  lemma RewriteIndexing(info: map<nat, Info>, n: nat, i: Info)
    requires n in info && i.service == info[n].service && i.nRefCount == info[n].nRefCount
    requires i.fInTried == info[n].fInTried
    ensures SameIndexing(info, info[n := i])
  {
  }

  lemma RewriteRandom(info: map<nat, Info>, n: nat, i: Info, vRandom: seq<nat>)
    requires RandomOk(info, vRandom) && n in info && i.nRandomPos == info[n].nRandomPos
    ensures RandomOk(info[n := i], vRandom)
  {
  }

  /** The entry of one address with the statistics of i. */
  ghost function Restated(e: Entry, i: Info): Entry {
    EntryOf(i, e.newBuckets)
  }

  /** Rewriting an entry's statistics. */
  lemma RewriteInfo(s: State, s': State, n: nat, i: Info)
    requires Core(s) && n in s.mapInfo
    requires i.service == s.mapInfo[n].service && i.nRefCount == s.mapInfo[n].nRefCount
    requires i.fInTried == s.mapInfo[n].fInTried && i.nRandomPos == s.mapInfo[n].nRandomPos
    requires OnlyInfo(s, s') && s'.mapInfo == s.mapInfo[n := i]
    ensures Core(s')
    ensures i.service.net in ViewOf(s)
    ensures ViewOf(s') == ViewOf(s)[i.service.net := Restated(ViewOf(s)[i.service.net], i)]
  {
    RewriteIndexing(s.mapInfo, n, i);
    RewriteRandom(s.mapInfo, n, i, s.vRandom);
    SameIndexingTried(s.env, s.key, s.mapInfo, s'.mapInfo, s.vvTried);
    SameIndexingNew(s.mapInfo, s'.mapInfo, s.vvNew, {});
    SameIndexingTotals(s.mapInfo, s'.mapInfo, s.nNew, s.nTried);
    RewriteView(s.mapInfo, s.mapAddr, s.vvNew, n, i);
    assert s.mapAddr[i.service.net] == n;
  }

  lemma RewriteAddr(info: map<nat, Info>, addr: map<NetAddr, nat>, n: nat, i: Info)
    requires AddrOk(info, addr) && n in info && i.service == info[n].service
    ensures AddrOk(info[n := i], addr)
  {
  }

  lemma RewriteView(info: map<nat, Info>, addr: map<NetAddr, nat>, vvNew: seq<set<nat>>, n: nat, i: Info)
    requires AddrOk(info, addr) && n in info && i.service == info[n].service
    ensures AddrOk(info[n := i], addr)
    ensures ViewFrom(info[n := i], addr, vvNew) ==
            ViewFrom(info, addr, vvNew)[i.service.net := EntryOf(i, BucketsOf(vvNew, n))]
  {
    RewriteAddr(info, addr, n, i);
    var a := i.service.net;
    var v, v' := ViewFrom(info, addr, vvNew), ViewFrom(info[n := i], addr, vvNew);
    assert a in addr;
    assert v'.Keys == v.Keys;
    forall c | c in v && c != a ensures v'[c] == v[c] {
      assert addr[c] != n;
    }
  }

  lemma RewriteTried(env: Env, key: seq<nat>, info: map<nat, Info>, n: nat, i: Info, vvTried: seq<seq<nat>>)
    requires TriedOk(env, key, info, vvTried) && n in info
    requires i.service == info[n].service && i.fInTried == info[n].fInTried
    ensures TriedOk(env, key, info[n := i], vvTried)
  {
  }

  lemma RewriteTotals(info: map<nat, Info>, n: nat, i: Info, nNew: int, nTried: int)
    requires TotalsOk(info, nNew, nTried) && n in info && i.fInTried == info[n].fInTried
    ensures TotalsOk(info[n := i], nNew, nTried)
  {
    assert TriedIds(info[n := i]) == TriedIds(info);
    assert NewIds(info[n := i]) == NewIds(info);
  }

  /** Every condition but the one on reference counts survives rewriting a reference count. */
  lemma RewriteCount(s: State, n: nat, i: Info, vvNew: seq<set<nat>>, pending: set<nat>, pending': set<nat>)
    requires CoreWith(s, pending) && n in s.mapInfo && i == s.mapInfo[n].(nRefCount := i.nRefCount)
    requires NewOk(s.mapInfo[n := i], vvNew, pending')
    ensures CoreWith(s.(mapInfo := s.mapInfo[n := i], vvNew := vvNew), pending')
  {
    RewriteAddr(s.mapInfo, s.mapAddr, n, i);
    RewriteRandom(s.mapInfo, n, i, s.vRandom);
    RewriteTried(s.env, s.key, s.mapInfo, n, i, s.vvTried);
    RewriteTotals(s.mapInfo, n, i, s.nNew, s.nTried);
    assert IdsOk(s.mapInfo[n := i], s.nIdCount);
  }

  // ---------------------------------------------------------------- listing an entry in a bucket

  ghost function Bumped(i: Info, d: int): Info { i.(nRefCount := i.nRefCount + d) }

  lemma AnnounceCounts(info: map<nat, Info>, vvNew: seq<set<nat>>, n: nat)
    requires NewOk(info, vvNew, {}) && n in info && !info[n].fInTried && info[n].nRefCount < NEW_BUCKETS_PER_ADDRESS
    ensures NewOk(info[n := Bumped(info[n], 1)], vvNew, {n})
  {
    var info' := info[n := Bumped(info[n], 1)];
    forall m | m in info' ensures CountOk(info'[m], vvNew, m, if m in {n} then 1 else 0) {
      assert CountOk(info[m], vvNew, m, 0);
    }
  }

  /** From s to s' only the entries differ. */
  ghost predicate OnlyInfo(s: State, s': State) {
    && s'.env == s.env && s'.key == s.key && s'.nIdCount == s.nIdCount && s'.mapAddr == s.mapAddr
    && s'.vRandom == s.vRandom && s'.nTried == s.nTried && s'.vvTried == s.vvTried
    && s'.nNew == s.nNew && s'.vvNew == s.vvNew
  }

  /** An existing new entry announces one more reference. */
  lemma Announce(s: State, s': State, n: nat)
    requires Core(s) && n in s.mapInfo && !s.mapInfo[n].fInTried && s.mapInfo[n].nRefCount < NEW_BUCKETS_PER_ADDRESS
    requires OnlyInfo(s, s') && s'.mapInfo == s.mapInfo[n := Bumped(s.mapInfo[n], 1)]
    ensures CoreWith(s', {n}) && ViewOf(s') == ViewOf(s)
  {
    var i := Bumped(s.mapInfo[n], 1);
    AnnounceCounts(s.mapInfo, s.vvNew, n);
    RewriteRandom(s.mapInfo, n, i, s.vRandom);
    RewriteTried(s.env, s.key, s.mapInfo, n, i, s.vvTried);
    RewriteTotals(s.mapInfo, n, i, s.nNew, s.nTried);
    BumpView(s.mapInfo, s.mapAddr, s.vvNew, n, 1);
  }

  lemma BumpView(info: map<nat, Info>, addr: map<NetAddr, nat>, vvNew: seq<set<nat>>, n: nat, d: int)
    requires AddrOk(info, addr) && n in info
    ensures AddrOk(info[n := Bumped(info[n], d)], addr)
    ensures ViewFrom(info[n := Bumped(info[n], d)], addr, vvNew) == ViewFrom(info, addr, vvNew)
  {
    var i := Bumped(info[n], d);
    RewriteView(info, addr, vvNew, n, i);
    assert addr[i.service.net] == n;
    assert ViewFrom(info, addr, vvNew)[i.service.net] == EntryOf(i, BucketsOf(vvNew, n));
  }

  /** From s to s', an entry has been created and its first reference announced. */
  ghost predicate CreatedTo(s: State, s': State, i: Info) {
    && s'.env == s.env && s'.key == s.key && s'.nTried == s.nTried && s'.vvTried == s.vvTried && s'.vvNew == s.vvNew
    && s'.nIdCount == s.nIdCount + 1
    && s'.mapInfo == s.mapInfo[s.nIdCount := i] && s'.mapAddr == s.mapAddr[i.service.net := s.nIdCount]
    && s'.vRandom == s.vRandom + [s.nIdCount] && s'.nNew == s.nNew + 1
  }

  lemma CreatedNew(info: map<nat, Info>, vvNew: seq<set<nat>>, n: nat, i: Info)
    requires NewOk(info, vvNew, {}) && n !in info && i.nRefCount == 1 && !i.fInTried
    ensures NewOk(info[n := i], vvNew, {n}) && BucketsOf(vvNew, n) == {}
  {
    var info' := info[n := i];
    assert forall b :: 0 <= b < |vvNew| ==> n !in vvNew[b];
    forall m | m in info' ensures CountOk(info'[m], vvNew, m, if m in {n} then 1 else 0) {
      if m != n {
        assert CountOk(info[m], vvNew, m, 0);
      }
    }
  }

  lemma CreatedTotals(info: map<nat, Info>, n: nat, i: Info, nNew: int, nTried: int)
    requires TotalsOk(info, nNew, nTried) && n !in info && !i.fInTried
    ensures TotalsOk(info[n := i], nNew + 1, nTried)
  {
    assert NewIds(info[n := i]) == NewIds(info) + {n};
    assert TriedIds(info[n := i]) == TriedIds(info);
  }

  lemma CreatedTried(env: Env, key: seq<nat>, info: map<nat, Info>, n: nat, i: Info, vvTried: seq<seq<nat>>)
    requires TriedOk(env, key, info, vvTried) && n !in info && !i.fInTried
    ensures TriedOk(env, key, info[n := i], vvTried)
  {
  }

  lemma CreatedAddr(info: map<nat, Info>, addr: map<NetAddr, nat>, n: nat, i: Info)
    requires AddrOk(info, addr) && n !in info && i.service.net !in addr
    ensures AddrOk(info[n := i], addr[i.service.net := n])
  {
  }

  lemma CreatedRandom(info: map<nat, Info>, vRandom: seq<nat>, n: nat, i: Info)
    requires RandomOk(info, vRandom) && n !in info && i.nRandomPos == |vRandom|
    ensures RandomOk(info[n := i], vRandom + [n])
  {
    var info', vRandom' := info[n := i], vRandom + [n];
    forall m | m in info'
      ensures 0 <= info'[m].nRandomPos < |vRandom'| && vRandom'[info'[m].nRandomPos] == m
    {
    }
  }

  lemma CreatedOk(s: State, s': State, i: Info)
    requires Core(s) && i.service.net !in s.mapAddr
    requires i.nRefCount == 1 && !i.fInTried && i.nRandomPos == |s.vRandom|
    requires CreatedTo(s, s', i)
    ensures CoreWith(s', {s.nIdCount})
    ensures BucketsOf(s'.vvNew, s.nIdCount) == {}
  {
    var n := s.nIdCount;
    CreatedNew(s.mapInfo, s.vvNew, n, i);
    CreatedTotals(s.mapInfo, n, i, s.nNew, s.nTried);
    CreatedTried(s.env, s.key, s.mapInfo, n, i, s.vvTried);
    CreatedAddr(s.mapInfo, s.mapAddr, n, i);
    CreatedRandom(s.mapInfo, s.vRandom, n, i);
    CreatedIds(s.mapInfo, n, i);
  }

  lemma CreatedIds(info: map<nat, Info>, n: nat, i: Info)
    requires IdsOk(info, n)
    ensures IdsOk(info[n := i], n + 1)
  {
  }

  lemma CreatedView(info: map<nat, Info>, addr: map<NetAddr, nat>, vvNew: seq<set<nat>>, n: nat, i: Info)
    requires AddrOk(info, addr) && n !in info && i.service.net !in addr && BucketsOf(vvNew, n) == {}
    ensures AddrOk(info[n := i], addr[i.service.net := n])
    ensures ViewFrom(info[n := i], addr[i.service.net := n], vvNew) ==
            ViewFrom(info, addr, vvNew)[i.service.net := EntryOf(i, {})]
  {
    CreatedAddr(info, addr, n, i);
    var v, v' := ViewFrom(info, addr, vvNew), ViewFrom(info[n := i], addr[i.service.net := n], vvNew);
    assert v'.Keys == v.Keys + {i.service.net};
  }

  lemma PlaceCount(i: Info, vvNew: seq<set<nat>>, n: nat, b: nat, m: nat)
    requires CountOk(i, vvNew, m, if m == n then 1 else 0) && b < |vvNew| && n !in vvNew[b]
    ensures CountOk(i, vvNew[b := vvNew[b] + {n}], m, 0)
  {
    BucketsUpdate(vvNew, b, vvNew[b] + {n}, m);
    assert m != n ==> BucketsOf(vvNew[b := vvNew[b] + {n}], m) == BucketsOf(vvNew, m);
  }

  lemma PlaceCounts(info: map<nat, Info>, vvNew: seq<set<nat>>, n: nat, b: nat)
    requires NewOk(info, vvNew, {n}) && n in info && !info[n].fInTried
    requires b < |vvNew| && n !in vvNew[b]
    ensures NewOk(info, vvNew[b := vvNew[b] + {n}], {})
  {
    forall m | m in info ensures CountOk(info[m], vvNew[b := vvNew[b] + {n}], m, 0) {
      assert CountOk(info[m], vvNew, m, if m in {n} then 1 else 0);
      PlaceCount(info[m], vvNew, n, b, m);
    }
  }

  /** The announced reference is filled in. */
  lemma Place(s: State, s': State, n: nat, b: nat)
    requires CoreWith(s, {n}) && n in s.mapInfo && !s.mapInfo[n].fInTried
    requires b < |s.vvNew| && n !in s.vvNew[b]
    requires OnlyInfo(s, s'.(vvNew := s.vvNew)) && s'.mapInfo == s.mapInfo && s'.vvNew == s.vvNew[b := s.vvNew[b] + {n}]
    ensures Core(s')
    ensures ViewOf(s') == Relisted(ViewOf(s), s.mapInfo[n].service.net, BucketsOf(s.vvNew, n) + {b})
  {
    PlaceCounts(s.mapInfo, s.vvNew, n, b);
    BucketView(s.mapInfo, s.mapAddr, s.vvNew, b, s.vvNew[b] + {n}, n);
    BucketsUpdate(s.vvNew, b, s.vvNew[b] + {n}, n);
  }

  /** Address a is listed in exactly these new buckets. */
  ghost function Relisted(v: View, a: NetAddr, buckets: set<nat>): View {
    if a in v then v[a := v[a].(newBuckets := buckets)] else v
  }

  /** Listing or unlisting one id in one bucket shows in that id's entry alone. */
  lemma BucketView(info: map<nat, Info>, addr: map<NetAddr, nat>, vvNew: seq<set<nat>>, b: nat, bucket: set<nat>, n: nat)
    requires AddrOk(info, addr) && n in info && b < |vvNew|
    requires forall m :: m != n ==> (m in bucket <==> m in vvNew[b])
    ensures var vv := vvNew[b := bucket];
            var a := info[n].service.net;
            && a in ViewFrom(info, addr, vvNew)
            && ViewFrom(info, addr, vv) == Relisted(ViewFrom(info, addr, vvNew), a, BucketsOf(vv, n))
  {
    var vv := vvNew[b := bucket];
    var a := info[n].service.net;
    var v, v' := ViewFrom(info, addr, vvNew), ViewFrom(info, addr, vv);
    assert v'.Keys == v.Keys;
    forall c | c in v && c != a ensures v'[c] == v[c] {
      BucketsUpdate(vvNew, b, bucket, addr[c]);
      assert BucketsOf(vv, addr[c]) == BucketsOf(vvNew, addr[c]);
    }
  }

  // ---------------------------------------------------------------- unlisting an entry

  lemma UnplaceCounts(info: map<nat, Info>, vvNew: seq<set<nat>>, w: nat, b: nat, pending: set<nat>)
    requires NewOk(info, vvNew, pending) && b < |vvNew| && w in vvNew[b] && w !in pending && info[w].nRefCount > 1
    ensures NewOk(info[w := Bumped(info[w], -1)], vvNew[b := vvNew[b] - {w}], pending)
    ensures |BucketsOf(vvNew, w)| > 1
  {
    var info' := info[w := Bumped(info[w], -1)];
    var vv := vvNew[b := vvNew[b] - {w}];
    assert CountOk(info[w], vvNew, w, 0);
    forall m | m in info' ensures CountOk(info'[m], vv, m, if m in pending then 1 else 0) {
      assert CountOk(info[m], vvNew, m, if m in pending then 1 else 0);
      BucketsUpdate(vvNew, b, vvNew[b] - {w}, m);
      if m != w { assert BucketsOf(vv, m) == BucketsOf(vvNew, m); }
    }
  }

  /** One of several references is given up. */
  lemma Unplace(s: State, w: nat, b: nat, pending: set<nat>)
    requires CoreWith(s, pending) && b < |s.vvNew| && w in s.vvNew[b] && w !in pending && s.mapInfo[w].nRefCount > 1
    ensures var s' := s.(vvNew := s.vvNew[b := s.vvNew[b] - {w}], mapInfo := s.mapInfo[w := Bumped(s.mapInfo[w], -1)]);
            && CoreWith(s', pending)
            && s.mapInfo[w].service.net in ViewOf(s)
            && ViewOf(s') == Dropped(ViewOf(s), s.mapInfo[w].service.net, b)
  {
    UnplaceCounts(s.mapInfo, s.vvNew, w, b, pending);
    RewriteCount(s, w, Bumped(s.mapInfo[w], -1), s.vvNew[b := s.vvNew[b] - {w}], pending, pending);
    UnplaceView(s.mapInfo, s.mapAddr, s.vvNew, w, b);
  }

  lemma UnplaceView(info: map<nat, Info>, addr: map<NetAddr, nat>, vvNew: seq<set<nat>>, w: nat, b: nat)
    requires AddrOk(info, addr) && w in info && b < |vvNew| && w in vvNew[b] && |BucketsOf(vvNew, w)| > 1
    ensures var info' := info[w := Bumped(info[w], -1)];
            && AddrOk(info', addr)
            && info[w].service.net in ViewFrom(info, addr, vvNew)
            && ViewFrom(info', addr, vvNew[b := vvNew[b] - {w}]) ==
               Dropped(ViewFrom(info, addr, vvNew), info[w].service.net, b)
  {
    BumpView(info, addr, vvNew, w, -1);
    BucketView(info[w := Bumped(info[w], -1)], addr, vvNew, b, vvNew[b] - {w}, w);
    BucketsUpdate(vvNew, b, vvNew[b] - {w}, w);
    SeveralBuckets(BucketsOf(vvNew, w), b);
  }

  lemma SeveralBuckets(bs: set<nat>, b: nat)
    ensures |bs| > 1 ==> !(bs <= {b})
    ensures |bs| == 1 && b in bs ==> bs == {b}
  {
    if bs <= {b} {
      assert bs == {} || bs == {b};
    } else {
      var c :| c in bs && c != b;
      if b in bs {
        assert |bs - {b} - {c}| >= 0;
      }
    }
  }

  lemma DeletedNew(info: map<nat, Info>, vvNew: seq<set<nat>>, w: nat, b: nat, pending: set<nat>)
    requires NewOk(info, vvNew, pending) && b < |vvNew| && w in vvNew[b] && w !in pending && info[w].nRefCount == 1
    ensures NewOk(info - {w}, vvNew[b := vvNew[b] - {w}], pending)
    ensures BucketsOf(vvNew, w) == {b}
  {
    var info' := info - {w};
    var vv := vvNew[b := vvNew[b] - {w}];
    assert CountOk(info[w], vvNew, w, 0);
    assert b in BucketsOf(vvNew, w);
    SeveralBuckets(BucketsOf(vvNew, w), b);
    forall m | m in info' ensures CountOk(info'[m], vv, m, if m in pending then 1 else 0) {
      assert CountOk(info[m], vvNew, m, if m in pending then 1 else 0);
      BucketsUpdate(vvNew, b, vvNew[b] - {w}, m);
      assert BucketsOf(vv, m) == BucketsOf(vvNew, m);
    }
    forall c, m | 0 <= c < |vv| && m in vv[c] ensures m in info' && !info'[m].fInTried {
      assert m in vvNew[c];
      assert m == w ==> c in BucketsOf(vvNew, w);
    }
  }

  lemma DeletedTotals(info: map<nat, Info>, w: nat, nNew: int, nTried: int)
    requires TotalsOk(info, nNew, nTried) && w in info && !info[w].fInTried
    ensures TotalsOk(info - {w}, nNew - 1, nTried)
  {
    assert NewIds(info - {w}) == NewIds(info) - {w};
    assert TriedIds(info - {w}) == TriedIds(info);
  }

  lemma DeletedTried(env: Env, key: seq<nat>, info: map<nat, Info>, w: nat, vvTried: seq<seq<nat>>)
    requires TriedOk(env, key, info, vvTried) && w in info && !info[w].fInTried
    ensures TriedOk(env, key, info - {w}, vvTried)
  {
  }

  lemma DeletedAddr(info: map<nat, Info>, addr: map<NetAddr, nat>, w: nat)
    requires AddrOk(info, addr) && w in info
    ensures AddrOk(info - {w}, addr - {info[w].service.net})
  {
  }

  lemma DeletedRandom(info: map<nat, Info>, vRandom: seq<nat>, w: nat)
    requires RandomOk(info, vRandom) && |vRandom| > 0 && vRandom[|vRandom| - 1] == w
    ensures RandomOk(info - {w}, vRandom[..|vRandom| - 1])
  {
  }

  lemma DeletedView(info: map<nat, Info>, addr: map<NetAddr, nat>, vvNew: seq<set<nat>>, w: nat, b: nat)
    requires AddrOk(info, addr) && w in info && b < |vvNew| && BucketsOf(vvNew, w) == {b}
    ensures var a := info[w].service.net;
            && AddrOk(info - {w}, addr - {a})
            && a in ViewFrom(info, addr, vvNew)
            && ViewFrom(info - {w}, addr - {a}, vvNew[b := vvNew[b] - {w}]) == Dropped(ViewFrom(info, addr, vvNew), a, b)
  {
    DeletedAddr(info, addr, w);
    var a := info[w].service.net;
    var vv := vvNew[b := vvNew[b] - {w}];
    var v, v' := ViewFrom(info, addr, vvNew), ViewFrom(info - {w}, addr - {a}, vv);
    assert v'.Keys == v.Keys - {a};
    forall c | c in v' ensures v'[c] == v[c] {
      BucketsUpdate(vvNew, b, vvNew[b] - {w}, addr[c]);
      assert BucketsOf(vv, addr[c]) == BucketsOf(vvNew, addr[c]);
    }
  }

  /** From s to s', entry w has given up its place in bucket b: it exchanges places with the last
      in the random order and is deleted if it had no other place. */
  ghost predicate UnlistedTo(s: State, s': State, w: nat, b: nat)
    requires w in s.mapInfo && b < |s.vvNew| && 0 <= s.mapInfo[w].nRandomPos < |s.vRandom|
  {
    && s'.env == s.env && s'.key == s.key && s'.nIdCount == s.nIdCount
    && s'.nTried == s.nTried && s'.vvTried == s.vvTried
    && s'.vvNew == s.vvNew[b := s.vvNew[b] - {w}]
    && if s.mapInfo[w].nRefCount == 1 then
         var p, q := s.mapInfo[w].nRandomPos, |s.vRandom| - 1;
         && s'.mapInfo == SwappedInfo(s.mapInfo, s.vRandom, p, q) - {w}
         && s'.mapAddr == s.mapAddr - {s.mapInfo[w].service.net}
         && s'.vRandom == SwappedOrder(s.vRandom, p, q)[..q]
         && s'.nNew == s.nNew - 1
       else
         && s'.mapInfo == s.mapInfo[w := Bumped(s.mapInfo[w], -1)]
         && s'.mapAddr == s.mapAddr && s'.vRandom == s.vRandom && s'.nNew == s.nNew
  }

  /** All entries but w are kept, up to their position in the random order. */
  ghost predicate KeepsOthers(info: map<nat, Info>, info': map<nat, Info>, w: nat) {
    forall n :: n in info && n != w ==> n in info' && info'[n] == info[n].(nRandomPos := info'[n].nRandomPos)
  }

  lemma UnlistedOk(s: State, s': State, w: nat, b: nat, pending: set<nat>)
    requires CoreWith(s, pending) && b < |s.vvNew| && w in s.vvNew[b] && w !in pending
    requires UnlistedTo(s, s', w, b)
    ensures CoreWith(s', pending)
    ensures s.mapInfo[w].service.net in ViewOf(s)
    ensures ViewOf(s') == Dropped(ViewOf(s), s.mapInfo[w].service.net, b)
  {
    assert CountOk(s.mapInfo[w], s.vvNew, w, 0);
    if s.mapInfo[w].nRefCount == 1 {
      UnlistedLast(s, s', w, b, pending);
    } else {
      Unplace(s, w, b, pending);
    }
  }

  lemma UnlistedLast(s: State, s': State, w: nat, b: nat, pending: set<nat>)
    requires CoreWith(s, pending) && b < |s.vvNew| && w in s.vvNew[b] && w !in pending && s.mapInfo[w].nRefCount == 1
    requires UnlistedTo(s, s', w, b)
    ensures CoreWith(s', pending)
    ensures s.mapInfo[w].service.net in ViewOf(s)
    ensures ViewOf(s') == Dropped(ViewOf(s), s.mapInfo[w].service.net, b)
  {
    var p, q := s.mapInfo[w].nRandomPos, |s.vRandom| - 1;
    var s1 := SwappedState(s, p, q);
    MovedLastOk(s, s1, w, p, q, pending);
    DeletedOk(s1, s', w, b, pending);
  }

  ghost function SwappedState(s: State, p: nat, q: nat): (s': State)
    requires p < |s.vRandom| && q < |s.vRandom|
    ensures SwappedTo(s, s', p, q)
  {
    s.(mapInfo := SwappedInfo(s.mapInfo, s.vRandom, p, q), vRandom := SwappedOrder(s.vRandom, p, q))
  }

  /** Entry w has exchanged places with the last in the random order. */
  lemma MovedLastOk(s: State, s1: State, w: nat, p: nat, q: nat, pending: set<nat>)
    requires CoreWith(s, pending) && w in s.mapInfo && p == s.mapInfo[w].nRandomPos && p < |s.vRandom| && q == |s.vRandom| - 1
    requires SwappedTo(s, s1, p, q)
    ensures CoreWith(s1, pending) && ViewOf(s1) == ViewOf(s) && |s1.vRandom| == |s.vRandom| && s1.vRandom[q] == w
    ensures w in s1.mapInfo && s1.mapInfo[w] == s.mapInfo[w].(nRandomPos := q)
  {
    SwapToLast(s.mapInfo, s.vRandom, w);
    SwappedOk(s, s1, p, q, pending);
  }

  /** From s to s', the entry that stands last in the random order has been deleted and unlisted. */
  ghost predicate DeletedTo(s: State, s': State, w: nat, b: nat)
    requires w in s.mapInfo && b < |s.vvNew| && |s.vRandom| > 0
  {
    && s'.env == s.env && s'.key == s.key && s'.nIdCount == s.nIdCount
    && s'.nTried == s.nTried && s'.vvTried == s.vvTried && s'.nNew == s.nNew - 1
    && s'.vvNew == s.vvNew[b := s.vvNew[b] - {w}]
    && s'.mapInfo == s.mapInfo - {w} && s'.mapAddr == s.mapAddr - {s.mapInfo[w].service.net}
    && s'.vRandom == s.vRandom[..|s.vRandom| - 1]
  }

  /** The entry that stands last in the random order and is listed in b alone is deleted. */
  lemma DeletedOk(s: State, s': State, w: nat, b: nat, pending: set<nat>)
    requires CoreWith(s, pending) && b < |s.vvNew| && w in s.vvNew[b] && w !in pending && s.mapInfo[w].nRefCount == 1
    requires |s.vRandom| > 0 && s.vRandom[|s.vRandom| - 1] == w && DeletedTo(s, s', w, b)
    ensures CoreWith(s', pending)
    ensures s.mapInfo[w].service.net in ViewOf(s)
    ensures ViewOf(s') == Dropped(ViewOf(s), s.mapInfo[w].service.net, b)
  {
    DeletedNew(s.mapInfo, s.vvNew, w, b, pending);
    DeletedTotals(s.mapInfo, w, s.nNew, s.nTried);
    DeletedTried(s.env, s.key, s.mapInfo, w, s.vvTried);
    DeletedAddr(s.mapInfo, s.mapAddr, w);
    DeletedRandom(s.mapInfo, s.vRandom, w);
    DeletedView(s.mapInfo, s.mapAddr, s.vvNew, w, b);
  }

  lemma SwapToLast(info: map<nat, Info>, vRandom: seq<nat>, w: nat)
    requires RandomOk(info, vRandom) && w in info
    ensures var p, q := info[w].nRandomPos, |vRandom| - 1;
            && 0 <= p < |vRandom| && vRandom[p] == w && vRandom[q] in info
            && SwappedOrder(vRandom, p, q)[q] == w
            && SwappedInfo(info, vRandom, p, q)[w] == info[w].(nRandomPos := q)
  {
  }

  lemma UnlistedKeepsOthers(s: State, s': State, w: nat, b: nat)
    requires RandomOk(s.mapInfo, s.vRandom) && w in s.mapInfo && b < |s.vvNew| && UnlistedTo(s, s', w, b)
    ensures KeepsOthers(s.mapInfo, s'.mapInfo, w)
  {
    if s.mapInfo[w].nRefCount == 1 {
      SwapSameButPosition(s.mapInfo, s.vRandom, s.mapInfo[w].nRandomPos, |s.vRandom| - 1);
    }
  }

  // ---------------------------------------------------------------- moving an entry to the tried table

  ghost function Without(vvNew: seq<set<nat>>, n: nat): (vv: seq<set<nat>>)
    ensures |vv| == |vvNew| && forall b :: 0 <= b < |vv| ==> vv[b] == vvNew[b] - {n}
  {
    seq(|vvNew|, b requires 0 <= b < |vvNew| => vvNew[b] - {n})
  }

  lemma WithoutBuckets(vvNew: seq<set<nat>>, n: nat, m: nat)
    ensures BucketsOf(Without(vvNew, n), m) == if m == n then {} else BucketsOf(vvNew, m)
  {
  }

  ghost function AsTried(i: Info): Info { i.(nRefCount := 0, fInTried := true) }
  ghost function AsNew(i: Info): Info { i.(nRefCount := 1, fInTried := false) }

  lemma SubsetCount(a: set<nat>, b: set<nat>)
    requires a <= b
    ensures |a| <= |b|
  {
    assert b == a + (b - a);
  }

  lemma WithdrawNew(info: map<nat, Info>, vvNew: seq<set<nat>>, n: nat)
    requires NewOk(info, vvNew, {}) && n in info
    ensures NewOk(info[n := AsTried(info[n])], Without(vvNew, n), {})
  {
    var info', vv := info[n := AsTried(info[n])], Without(vvNew, n);
    forall m | m in info' ensures CountOk(info'[m], vv, m, 0) {
      assert CountOk(info[m], vvNew, m, 0);
      WithoutBuckets(vvNew, n, m);
    }
  }

  lemma DemoteAnnounce(info: map<nat, Info>, vvNew: seq<set<nat>>, w: nat)
    requires NewOk(info, vvNew, {}) && w in info && info[w].fInTried
    ensures NewOk(info[w := AsNew(info[w])], vvNew, {w}) && BucketsOf(vvNew, w) == {}
    ensures forall b :: 0 <= b < |vvNew| ==> w !in vvNew[b]
  {
    var info' := info[w := AsNew(info[w])];
    forall m | m in info' ensures CountOk(info'[m], vvNew, m, if m in {w} then 1 else 0) {
      assert CountOk(info[m], vvNew, m, 0);
    }
  }

  lemma DemoteNew(info: map<nat, Info>, vvNew: seq<set<nat>>, w: nat, c: nat)
    requires NewOk(info, vvNew, {}) && w in info && info[w].fInTried
    requires c < |vvNew|
    ensures NewOk(info[w := AsNew(info[w])], vvNew[c := vvNew[c] + {w}], {})
    ensures BucketsOf(vvNew[c := vvNew[c] + {w}], w) == {c}
  {
    DemoteAnnounce(info, vvNew, w);
    PlaceCounts(info[w := AsNew(info[w])], vvNew, w, c);
    BucketsUpdate(vvNew, c, vvNew[c] + {w}, w);
  }

  lemma PromoteTried(env: Env, key: seq<nat>, info: map<nat, Info>, vvTried: seq<seq<nat>>, n: nat, k: nat)
    requires TriedOk(env, key, info, vvTried) && n in info && !info[n].fInTried
    requires k == GetTriedBucket(env, key, info[n].service) && |vvTried[k]| < TRIED_BUCKET_SIZE
    ensures TriedOk(env, key, info[n := AsTried(info[n])], vvTried[k := vvTried[k] + [n]])
  {
    assert n !in vvTried[k];
  }

  lemma PromoteTotals(info: map<nat, Info>, n: nat, nNew: int, nTried: int)
    requires TotalsOk(info, nNew, nTried) && n in info && !info[n].fInTried
    ensures TotalsOk(info[n := AsTried(info[n])], nNew - 1, nTried + 1)
  {
    assert NewIds(info[n := AsTried(info[n])]) == NewIds(info) - {n};
    assert TriedIds(info[n := AsTried(info[n])]) == TriedIds(info) + {n};
  }

  lemma DemoteTotals(info: map<nat, Info>, w: nat, nNew: int, nTried: int)
    requires TotalsOk(info, nNew, nTried) && w in info && info[w].fInTried
    ensures TotalsOk(info[w := AsNew(info[w])], nNew + 1, nTried - 1)
  {
    assert NewIds(info[w := AsNew(info[w])]) == NewIds(info) + {w};
    assert TriedIds(info[w := AsNew(info[w])]) == TriedIds(info) - {w};
  }

  /** From s to s', entry n has moved into tried bucket k, which had room. */
  ghost predicate PromotedTo(s: State, s': State, n: nat, k: nat)
    requires n in s.mapInfo && k < |s.vvTried|
  {
    && s'.env == s.env && s'.key == s.key && s'.nIdCount == s.nIdCount
    && s'.mapAddr == s.mapAddr && s'.vRandom == s.vRandom
    && s'.mapInfo == s.mapInfo[n := AsTried(s.mapInfo[n])]
    && s'.vvNew == Without(s.vvNew, n) && s'.vvTried == s.vvTried[k := s.vvTried[k] + [n]]
    && s'.nNew == s.nNew - 1 && s'.nTried == s.nTried + 1
  }

  /** In the view: the entry is tried and in no new bucket. */
  ghost function Tried(v: View, a: NetAddr): View {
    if a in v then v[a := v[a].(inTried := true, newBuckets := {})] else v
  }

  /** In the view: the entry is back in the single new bucket c. */
  ghost function Untried(v: View, a: NetAddr, c: nat): View {
    if a in v then v[a := v[a].(inTried := false, newBuckets := {c})] else v
  }

  lemma PromotedOk(s: State, s': State, n: nat)
    requires Core(s) && n in s.mapInfo && !s.mapInfo[n].fInTried
    requires var k := GetTriedBucket(s.env, s.key, s.mapInfo[n].service);
             |s.vvTried[k]| < TRIED_BUCKET_SIZE && PromotedTo(s, s', n, k)
    ensures Core(s') && ViewOf(s') == Tried(ViewOf(s), s.mapInfo[n].service.net)
  {
    var i := AsTried(s.mapInfo[n]);
    RewriteAddr(s.mapInfo, s.mapAddr, n, i);
    RewriteRandom(s.mapInfo, n, i, s.vRandom);
    WithdrawNew(s.mapInfo, s.vvNew, n);
    PromoteTried(s.env, s.key, s.mapInfo, s.vvTried, n, GetTriedBucket(s.env, s.key, s.mapInfo[n].service));
    PromoteTotals(s.mapInfo, n, s.nNew, s.nTried);
    PromotedView(s.mapInfo, s.mapAddr, s.vvNew, n);
  }

  lemma PromotedView(info: map<nat, Info>, addr: map<NetAddr, nat>, vvNew: seq<set<nat>>, n: nat)
    requires AddrOk(info, addr) && n in info
    ensures AddrOk(info[n := AsTried(info[n])], addr)
    ensures ViewFrom(info[n := AsTried(info[n])], addr, Without(vvNew, n)) ==
            Tried(ViewFrom(info, addr, vvNew), info[n].service.net)
  {
    RewriteAddr(info, addr, n, AsTried(info[n]));
    var a := info[n].service.net;
    var v, v' := ViewFrom(info, addr, vvNew), ViewFrom(info[n := AsTried(info[n])], addr, Without(vvNew, n));
    assert a in addr && addr[a] == n;
    assert v'.Keys == v.Keys;
    WithoutBuckets(vvNew, n, n);
    forall c | c in v && c != a ensures v'[c] == v[c] {
      assert addr[c] != n;
      WithoutBuckets(vvNew, n, addr[c]);
    }
  }

  function Replaced(bucket: seq<nat>, pos: nat, n: nat): seq<nat>
    requires pos < |bucket|
  {
    bucket[pos := n]
  }

  /** Both table changes of an exchange, entry n becoming tried and entry w new. */
  ghost function ExchangedInfo(info: map<nat, Info>, n: nat, w: nat): map<nat, Info>
    requires n in info && w in info
  {
    info[n := AsTried(info[n])][w := AsNew(info[w])]
  }

  /** From s to s', entry n has taken the place pos of entry w in tried bucket k, and w has gone
      back to new bucket c. */
  ghost predicate ExchangedTo(s: State, s': State, n: nat, k: nat, pos: nat, c: nat)
    requires n in s.mapInfo && k < |s.vvTried| && pos < |s.vvTried[k]|
    requires s.vvTried[k][pos] in s.mapInfo && c < |s.vvNew|
  {
    var w := s.vvTried[k][pos];
    var vv := Without(s.vvNew, n);
    && s'.env == s.env && s'.key == s.key && s'.nIdCount == s.nIdCount
    && s'.mapAddr == s.mapAddr && s'.vRandom == s.vRandom
    && s'.mapInfo == ExchangedInfo(s.mapInfo, n, w)
    && s'.vvNew == vv[c := vv[c] + {w}] && s'.vvTried == s.vvTried[k := Replaced(s.vvTried[k], pos, n)]
    && s'.nNew == s.nNew && s'.nTried == s.nTried
  }

  lemma ExchangeTried(env: Env, key: seq<nat>, info: map<nat, Info>, vvTried: seq<seq<nat>>, n: nat, pos: nat)
    requires TriedOk(env, key, info, vvTried) && n in info && !info[n].fInTried
    requires pos < |vvTried[GetTriedBucket(env, key, info[n].service)]|
    ensures var k := GetTriedBucket(env, key, info[n].service);
            var w := vvTried[k][pos];
            && w in info && info[w].fInTried && w != n
            && TriedOk(env, key, ExchangedInfo(info, n, w), vvTried[k := Replaced(vvTried[k], pos, n)])
  {
    var k := GetTriedBucket(env, key, info[n].service);
    var w := vvTried[k][pos];
    assert w in vvTried[k] && n !in vvTried[k];
    var bucket := Replaced(vvTried[k], pos, n);
    assert Distinct(bucket);
    forall m ensures m in bucket <==> m == n || (m in vvTried[k] && m != w) {
      if m in vvTried[k] && m != w {
        var i :| 0 <= i < |bucket| && vvTried[k][i] == m;
        assert bucket[i] == m;
      }
      if m == n { assert bucket[pos] == m; }
    }
  }

  lemma ExchangedOk(s: State, s': State, n: nat, pos: nat, c: nat)
    requires Core(s) && n in s.mapInfo && !s.mapInfo[n].fInTried
    requires var k := GetTriedBucket(s.env, s.key, s.mapInfo[n].service);
             && pos < |s.vvTried[k]| && c < |s.vvNew|
             && s.vvTried[k][pos] in s.mapInfo && ExchangedTo(s, s', n, k, pos, c)
    ensures Core(s')
    ensures var w := s.vvTried[GetTriedBucket(s.env, s.key, s.mapInfo[n].service)][pos];
            ViewOf(s') == Untried(Tried(ViewOf(s), s.mapInfo[n].service.net), s.mapInfo[w].service.net, c)
  {
    var w := s.vvTried[GetTriedBucket(s.env, s.key, s.mapInfo[n].service)][pos];
    ExchangeTried(s.env, s.key, s.mapInfo, s.vvTried, n, pos);
    ExchangeRandom(s.mapInfo, s.vRandom, n, w);
    ExchangeNew(s.mapInfo, s.vvNew, n, w, c);
    ExchangeTotals(s.mapInfo, n, w, s.nNew, s.nTried);
    ExchangedView(s.mapInfo, s.mapAddr, s.vvNew, n, w, c);
  }

  lemma ExchangeRandom(info: map<nat, Info>, vRandom: seq<nat>, n: nat, w: nat)
    requires RandomOk(info, vRandom) && n in info && w in info && n != w
    ensures RandomOk(ExchangedInfo(info, n, w), vRandom)
  {
    RewriteRandom(info, n, AsTried(info[n]), vRandom);
    RewriteRandom(info[n := AsTried(info[n])], w, AsNew(info[w]), vRandom);
  }

  lemma ExchangeNew(info: map<nat, Info>, vvNew: seq<set<nat>>, n: nat, w: nat, c: nat)
    requires NewOk(info, vvNew, {}) && n in info && w in info && n != w && info[w].fInTried
    requires c < |vvNew|
    ensures var vv := Without(vvNew, n); NewOk(ExchangedInfo(info, n, w), vv[c := vv[c] + {w}], {})
  {
    WithdrawNew(info, vvNew, n);
    DemoteNew(info[n := AsTried(info[n])], Without(vvNew, n), w, c);
  }

  lemma ExchangeTotals(info: map<nat, Info>, n: nat, w: nat, nNew: int, nTried: int)
    requires TotalsOk(info, nNew, nTried) && n in info && w in info && !info[n].fInTried && info[w].fInTried
    ensures TotalsOk(ExchangedInfo(info, n, w), nNew, nTried)
  {
    PromoteTotals(info, n, nNew, nTried);
    DemoteTotals(info[n := AsTried(info[n])], w, nNew - 1, nTried + 1);
  }

  lemma ExchangedView(info: map<nat, Info>, addr: map<NetAddr, nat>, vvNew: seq<set<nat>>, n: nat, w: nat, c: nat)
    requires AddrOk(info, addr) && NewOk(info, vvNew, {}) && c < |vvNew|
    requires n in info && w in info && info[w].fInTried && w != n
    ensures var vv := Without(vvNew, n);
            && AddrOk(ExchangedInfo(info, n, w), addr)
            && ViewFrom(ExchangedInfo(info, n, w), addr, vv[c := vv[c] + {w}]) ==
               Untried(Tried(ViewFrom(info, addr, vvNew), info[n].service.net), info[w].service.net, c)
  {
    PromotedView(info, addr, vvNew, n);
    WithdrawNew(info, vvNew, n);
    DemoteAnnounce(info[n := AsTried(info[n])], Without(vvNew, n), w);
    DemotedView(info[n := AsTried(info[n])], addr, Without(vvNew, n), w, c);
  }

  lemma DemotedView(info: map<nat, Info>, addr: map<NetAddr, nat>, vvNew: seq<set<nat>>, w: nat, c: nat)
    requires AddrOk(info, addr) && c < |vvNew| && w in info && BucketsOf(vvNew, w) == {}
    ensures AddrOk(info[w := AsNew(info[w])], addr)
    ensures ViewFrom(info[w := AsNew(info[w])], addr, vvNew[c := vvNew[c] + {w}]) ==
            Untried(ViewFrom(info, addr, vvNew), info[w].service.net, c)
  {
    RewriteView(info, addr, vvNew, w, AsNew(info[w]));
    BucketView(info[w := AsNew(info[w])], addr, vvNew, c, vvNew[c] + {w}, w);
    BucketsUpdate(vvNew, c, vvNew[c] + {w}, w);
    var a := info[w].service.net;
    assert addr[a] == w;
    assert ViewFrom(info, addr, vvNew)[a] == EntryOf(info[w], {});
    assert {} + {c} == {c};
  }

  // ---------------------------------------------------------------- buckets counted in the view

  /** The addresses whose tried entries belong in tried bucket k. */
  ghost function TriedListed(env: Env, key: seq<nat>, v: View, k: nat): set<NetAddr> {
    set a | a in v && v[a].inTried && GetTriedBucket(env, key, v[a].service) == k
  }

  lemma TriedListedCount(s: State, k: nat)
    requires AddrOk(s.mapInfo, s.mapAddr) && TriedOk(s.env, s.key, s.mapInfo, s.vvTried) && k < |s.vvTried|
    ensures |TriedListed(s.env, s.key, ViewOf(s), k)| == |s.vvTried[k]|
    ensures forall n :: n in s.vvTried[k] ==>
              n in s.mapInfo && s.mapInfo[n].service.net in TriedListed(s.env, s.key, ViewOf(s), k)
  {
    var ids := set n | n in s.vvTried[k];
    DistinctCount(s.vvTried[k], ids);
    forall n | n in ids ensures s.mapInfo[n].service.net in TriedListed(s.env, s.key, ViewOf(s), k) {
      assert s.mapAddr[s.mapInfo[n].service.net] == n;
    }
    NamesCount(s.mapInfo, ids, TriedListed(s.env, s.key, ViewOf(s), k));
  }

  lemma ListedWithout(s: State, n: nat, b: nat)
    requires Core(s) && n in s.mapInfo && b < |s.vvNew|
    ensures |Listed(Tried(ViewOf(s), s.mapInfo[n].service.net), b)| == |s.vvNew[b] - {n}|
  {
    var a, v := s.mapInfo[n].service.net, ViewOf(s);
    ListedCount(s, {}, b);
    assert s.mapAddr[a] == n;
    assert a in Listed(v, b) <==> n in s.vvNew[b];
    assert Listed(Tried(v, a), b) == Listed(v, b) - {a};
  }

  /** Reordering a tried bucket changes nothing else. */
  lemma SwapTried(env: Env, key: seq<nat>, info: map<nat, Info>, vvTried: seq<seq<nat>>, k: nat, i: nat, j: nat)
    requires TriedOk(env, key, info, vvTried) && k < |vvTried| && i < |vvTried[k]| && j < |vvTried[k]|
    ensures TriedOk(env, key, info, vvTried[k := SwappedOrder(vvTried[k], i, j)])
  {
    var bucket, bucket' := vvTried[k], SwappedOrder(vvTried[k], i, j);
    forall n ensures n in bucket' <==> n in bucket {
      if n in bucket {
        var m :| 0 <= m < |bucket| && bucket[m] == n;
        assert bucket'[if m == i then j else if m == j then i else m] == n;
      }
    }
  }

  // ---------------------------------------------------------------- choosing the entry to evict

  /** Places to draw from: each at or behind the one it is swapped to. */
  ghost predicate Draws(picks: seq<nat>, size: nat) {
    |picks| <= size && forall i :: 0 <= i < |picks| ==> i <= picks[i] < size
  }

  /** A bucket after its first places have been swapped with the places drawn. */
  ghost function Sampled(bucket: seq<nat>, picks: seq<nat>): (b: seq<nat>)
    requires Draws(picks, |bucket|)
    ensures |b| == |bucket|
  {
    if picks == [] then bucket
    else
      var n := |picks| - 1;
      SwappedOrder(Sampled(bucket, picks[..n]), picks[n], n)
  }

  /** Of the first m entries of a bucket, the one at win is the first whose last success is the longest ago. */
  ghost predicate Stalest(info: map<nat, Info>, b: seq<nat>, m: nat, win: nat) {
    && win < m <= |b| && (forall i :: 0 <= i < m ==> b[i] in info)
    && (forall i :: 0 <= i < m ==> info[b[win]].nLastSuccess <= info[b[i]].nLastSuccess)
    && (forall i :: 0 <= i < win ==> info[b[win]].nLastSuccess < info[b[i]].nLastSuccess)
  }

  lemma SampledNext(bucket: seq<nat>, picks: seq<nat>, x: nat)
    requires Draws(picks, |bucket|) && |picks| <= x < |bucket|
    ensures Draws(picks + [x], |bucket|)
    ensures Sampled(bucket, picks + [x]) == SwappedOrder(Sampled(bucket, picks), x, |picks|)
    ensures Sampled(bucket, picks + [x])[..|picks|] == Sampled(bucket, picks)[..|picks|]
    ensures Sampled(bucket, picks + [x])[|picks|] == Sampled(bucket, picks)[x]
  {
    assert (picks + [x])[..|picks|] == picks;
  }

  lemma StalestNext(info: map<nat, Info>, b: seq<nat>, b': seq<nat>, m: nat, win: nat)
    requires m < |b| == |b'| && b'[..m] == b[..m] && b'[m] in info && (m > 0 ==> Stalest(info, b, m, win))
    ensures Stalest(info, b', m + 1, if m == 0 || info[b'[m]].nLastSuccess < info[b[win]].nLastSuccess then m else win)
  {
    assert forall i :: 0 <= i < m ==> b'[i] == b'[..m][i] && b[i] == b[..m][i];
  }

  /** One more place is drawn. */
  lemma SampleNext(info: map<nat, Info>, bucket: seq<nat>, picks: seq<nat>, b: seq<nat>, b': seq<nat>, x: nat, win: nat, win': nat)
    requires Draws(picks, |bucket|) && b == Sampled(bucket, picks) && |picks| <= x < |b| && b[x] in info
    requires b' == b[x := b[|picks|]][|picks| := b[x]] && (|picks| > 0 ==> Stalest(info, b, |picks|, win))
    requires win' == if |picks| == 0 || info[b[x]].nLastSuccess < info[b[win]].nLastSuccess then |picks| else win
    ensures Draws(picks + [x], |bucket|) && b' == Sampled(bucket, picks + [x]) && Stalest(info, b', |picks| + 1, win')
    ensures b'[|picks|] == b[x] && (|picks| > 0 ==> b'[win] == b[win])
  {
    var m := |picks|;
    SampledNext(bucket, picks, x);
    StalestNext(info, b, b', m, win);
    assert m > 0 ==> b'[..m][win] == b[..m][win];
  }

  /** The draws picks, of which the one at win brings the stalest entry, are a choice from a bucket. */
  ghost predicate Chooses(info: map<nat, Info>, bucket: seq<nat>, picks: seq<nat>, win: nat) {
    && Draws(picks, |bucket|)
    && |picks| == (if |bucket| < TRIED_ENTRIES_INSPECT_ON_EVICT then |bucket| else TRIED_ENTRIES_INSPECT_ON_EVICT)
    && Stalest(info, Sampled(bucket, picks), |picks|, win)
  }

  /** The place that is returned holds an entry as stale as the stalest of those sampled. */
  ghost predicate Hits(info: map<nat, Info>, bucket: seq<nat>, picks: seq<nat>, win: nat)
    requires Chooses(info, bucket, picks, win)
  {
    var b := Sampled(bucket, picks);
    b[picks[win]] in info && info[b[picks[win]]].nLastSuccess == info[b[win]].nLastSuccess
  }

  /** The place that is returned holds an entry fresher than the stalest of those sampled. */
  ghost predicate Misses(info: map<nat, Info>, bucket: seq<nat>, picks: seq<nat>, win: nat)
    requires Chooses(info, bucket, picks, win)
  {
    var b := Sampled(bucket, picks);
    b[picks[win]] in info && info[b[picks[win]]].nLastSuccess > info[b[win]].nLastSuccess
  }

  ghost predicate SameSuccess(info: map<nat, Info>, bucket: seq<nat>) {
    forall i, j :: 0 <= i < |bucket| && 0 <= j < |bucket| && bucket[i] in info && bucket[j] in info ==>
      info[bucket[i]].nLastSuccess == info[bucket[j]].nLastSuccess
  }

  ghost predicate AllKnown(info: map<nat, Info>, bucket: seq<nat>) {
    forall i :: 0 <= i < |bucket| ==> bucket[i] in info
  }

  lemma {:induction false} SampledWithin(bucket: seq<nat>, picks: seq<nat>, i: nat)
    requires Draws(picks, |bucket|) && i < |bucket|
    ensures Sampled(bucket, picks)[i] in bucket
    decreases |picks|
  {
    if picks != [] {
      var n := |picks| - 1;
      SampledWithin(bucket, picks[..n], i);
      SampledWithin(bucket, picks[..n], n);
      SampledWithin(bucket, picks[..n], picks[n]);
    }
  }

  lemma SameHits(info: map<nat, Info>, bucket: seq<nat>, picks: seq<nat>, win: nat)
    requires AllKnown(info, bucket) && SameSuccess(info, bucket) && Chooses(info, bucket, picks, win)
    ensures Hits(info, bucket, picks, win)
  {
    SampledWithin(bucket, picks, win);
    SampledWithin(bucket, picks, picks[win]);
  }

  lemma SwappedSame(b: seq<nat>, i: nat)
    requires i < |b|
    ensures SwappedOrder(b, i, i) == b
  {
  }

  /** A bucket after one more draw. */
  lemma SampledThen(bucket: seq<nat>, picks: seq<nat>, picks': seq<nat>, x: nat)
    requires Draws(picks, |bucket|) && |picks| <= x < |bucket| && picks' == picks + [x]
    ensures Draws(picks', |bucket|)
    ensures Sampled(bucket, picks') == SwappedOrder(Sampled(bucket, picks), x, |picks|)
    ensures x == |picks| ==> Sampled(bucket, picks') == Sampled(bucket, picks)
  {
    SampledNext(bucket, picks, x);
    SwappedSame(Sampled(bucket, picks), |picks|);
  }

  lemma SampledTwo(bucket: seq<nat>, x: nat, y: nat) returns (picks: seq<nat>)
    requires 2 <= |bucket| && x < |bucket| && 1 <= y < |bucket|
    ensures Draws(picks, |bucket|) && |picks| == 2 && picks[0] == x && picks[1] == y
    ensures Sampled(bucket, picks) == SwappedOrder(SwappedOrder(bucket, x, 0), y, 1)
  {
    var one := [] + [x];
    SampledThen(bucket, [], one, x);
    picks := one + [y];
    SampledThen(bucket, one, picks, y);
  }

  /** A bucket after four draws, the last two of which leave their places as they are. */
  lemma SampledFour(bucket: seq<nat>, x: nat, y: nat) returns (picks: seq<nat>)
    requires 4 <= |bucket| && x < |bucket| && 1 <= y < |bucket|
    ensures Draws(picks, |bucket|) && |picks| == 4 && picks[0] == x && picks[1] == y && picks[2] == 2 && picks[3] == 3
    ensures Sampled(bucket, picks) == SwappedOrder(SwappedOrder(bucket, x, 0), y, 1)
  {
    var two := SampledTwo(bucket, x, y);
    var three := two + [2];
    SampledThen(bucket, two, three, 2);
    picks := three + [3];
    SampledThen(bucket, three, picks, 3);
  }

  /** The first place of the stalest of the first m entries. */
  lemma SomeStalest(info: map<nat, Info>, b: seq<nat>, m: nat) returns (win: nat)
    requires 0 < m <= |b| && forall i :: 0 <= i < m ==> b[i] in info
    ensures Stalest(info, b, m, win)
  {
    win := 0;
    var i := 1;
    while i < m
      invariant 1 <= i <= m && Stalest(info, b, i, win)
    {
      if info[b[i]].nLastSuccess < info[b[win]].nLastSuccess {
        win := i;
      }
      i := i + 1;
    }
  }

  /** No entry of a bucket is staler than the one at p. */
  ghost predicate StalestAt(info: map<nat, Info>, bucket: seq<nat>, p: nat) {
    && AllKnown(info, bucket) && p < |bucket|
    && forall i :: 0 <= i < |bucket| ==> info[bucket[p]].nLastSuccess <= info[bucket[i]].nLastSuccess
  }

  /** The first entry is fresher than the one at p. */
  lemma MissesFirst(info: map<nat, Info>, bucket: seq<nat>, p: nat) returns (picks: seq<nat>, win: nat)
    requires 4 <= |bucket| && StalestAt(info, bucket, p) && info[bucket[0]].nLastSuccess > info[bucket[p]].nLastSuccess
    ensures Chooses(info, bucket, picks, win) && Misses(info, bucket, picks, win)
  {
    win := 0;
    picks := SampledFour(bucket, p, 1);
    var b := SwappedOrder(bucket, p, 0);
    assert SwappedOrder(b, 1, 1) == b;
    assert b[0] == bucket[p] && b[p] == bucket[0];
  }

  /** The first entry is a stalest one and the second is fresher. */
  lemma MissesSecond(info: map<nat, Info>, bucket: seq<nat>) returns (picks: seq<nat>, win: nat)
    requires 4 <= |bucket| && StalestAt(info, bucket, 0) && info[bucket[1]].nLastSuccess > info[bucket[0]].nLastSuccess
    ensures Chooses(info, bucket, picks, win) && Misses(info, bucket, picks, win)
  {
    picks := SampledFour(bucket, 2, 2);
    var b := SwappedOrder(SwappedOrder(bucket, 2, 0), 2, 1);
    assert b[0] == bucket[2] && b[1] == bucket[0] && b[2] == bucket[1] && b[3] == bucket[3];
    win := if info[bucket[2]].nLastSuccess == info[bucket[0]].nLastSuccess then 0 else 1;
  }

  /** The first two entries are stalest ones and the one at q is fresher. */
  lemma MissesLater(info: map<nat, Info>, bucket: seq<nat>, q: nat) returns (picks: seq<nat>, win: nat)
    requires 4 <= |bucket| && StalestAt(info, bucket, 0) && StalestAt(info, bucket, 1)
    requires 2 <= q < |bucket| && info[bucket[q]].nLastSuccess > info[bucket[0]].nLastSuccess
    ensures Chooses(info, bucket, picks, win) && Misses(info, bucket, picks, win)
  {
    win := 0;
    picks := SampledFour(bucket, 1, q);
    var b := SwappedOrder(SwappedOrder(bucket, 1, 0), q, 1);
    assert b[0] == bucket[1] && b[1] == bucket[q] && b[q] == bucket[0];
    forall i | 0 <= i < |b| ensures b[i] in info && info[b[0]].nLastSuccess <= info[b[i]].nLastSuccess {
      assert i > 1 && i != q ==> b[i] == bucket[i];
    }
  }

  /** If the last successes differ, some draws return a place whose entry is fresher than the stalest sampled. */
  lemma SomeMiss(info: map<nat, Info>, bucket: seq<nat>) returns (picks: seq<nat>, win: nat)
    requires 4 <= |bucket| && AllKnown(info, bucket) && !SameSuccess(info, bucket)
    ensures Chooses(info, bucket, picks, win) && Misses(info, bucket, picks, win)
  {
    var p := SomeStalest(info, bucket, |bucket|);
    if info[bucket[0]].nLastSuccess > info[bucket[p]].nLastSuccess {
      picks, win := MissesFirst(info, bucket, p);
    } else if info[bucket[1]].nLastSuccess > info[bucket[p]].nLastSuccess {
      picks, win := MissesSecond(info, bucket);
    } else {
      var i, j :| 0 <= i < |bucket| && 0 <= j < |bucket| && info[bucket[i]].nLastSuccess != info[bucket[j]].nLastSuccess;
      var q := if info[bucket[i]].nLastSuccess > info[bucket[p]].nLastSuccess then i else j;
      picks, win := MissesLater(info, bucket, q);
    }
  }

  /** Whatever is drawn, an entry as stale as the stalest sampled is returned, and none that is fresher: exactly if
      all last successes are the same. */
  lemma SelectsStalest(info: map<nat, Info>, bucket: seq<nat>)
    requires TRIED_ENTRIES_INSPECT_ON_EVICT <= |bucket| && AllKnown(info, bucket)
    ensures (forall picks, win :: Chooses(info, bucket, picks, win) ==> Hits(info, bucket, picks, win)) <==>
            SameSuccess(info, bucket)
    ensures (exists picks, win :: Chooses(info, bucket, picks, win) && Misses(info, bucket, picks, win)) <==>
            !SameSuccess(info, bucket)
  {
    if SameSuccess(info, bucket) {
      forall picks, win | Chooses(info, bucket, picks, win) ensures Hits(info, bucket, picks, win) {
        SameHits(info, bucket, picks, win);
      }
    } else {
      var picks, win := SomeMiss(info, bucket);
      assert Chooses(info, bucket, picks, win) && !Hits(info, bucket, picks, win);
    }
  }

  /** In a full bucket whose last successes differ, the entry returned can be fresher than the stalest sampled. */
  lemma SelectMisses() returns (info: map<nat, Info>, bucket: seq<nat>, picks: seq<nat>, win: nat)
    ensures |bucket| == TRIED_BUCKET_SIZE && AllKnown(info, bucket) && (forall i, j :: 0 <= i < j < |bucket| ==> bucket[i] != bucket[j])
    ensures Chooses(info, bucket, picks, win) && Misses(info, bucket, picks, win)
  {
    bucket := seq(TRIED_BUCKET_SIZE, (i: nat) => i);
    info := map n: nat | n < TRIED_BUCKET_SIZE ::
      Info(Service(NetAddr([n]), 0), 0, 0, 0, NetAddr([]), TRIED_BUCKET_SIZE - n, 0, 0, true, n);
    var p := TRIED_BUCKET_SIZE - 1;
    picks, win := MissesFirst(info, bucket, p);
  }

  /** The tried table was, shuffled in bucket k for a choice, has become vv; the place chosen is pos. */
  ghost predicate ChosenFrom(info: map<nat, Info>, was: seq<seq<nat>>, vv: seq<seq<nat>>, k: nat, picks: seq<nat>, win: nat, pos: nat) {
    && k < |was| && Chooses(info, was[k], picks, win)
    && vv == was[k := Sampled(was[k], picks)] && pos == picks[win]
  }

  /** A choice looks at nothing but the last successes. */
  lemma ChosenAlike(info: map<nat, Info>, info': map<nat, Info>, was: seq<seq<nat>>, vv: seq<seq<nat>>, k: nat,
                    picks: seq<nat>, win: nat, pos: nat)
    requires ChosenFrom(info, was, vv, k, picks, win, pos) && info'.Keys == info.Keys
    requires forall n :: n in info ==> info'[n].nLastSuccess == info[n].nLastSuccess
    ensures ChosenFrom(info', was, vv, k, picks, win, pos)
  {
  }

  // ---------------------------------------------------------------- the whole move

  /** From s to s', entry n has been made tried; vv is the tried table after the shuffle that
      precedes an eviction, and pos the place chosen. */
  ghost predicate MadeTriedTo(s: State, s': State, n: nat, origin: nat, vv: seq<seq<nat>>, pos: nat) {
    && n in s.mapInfo && |s.vvTried| == TRIED_BUCKET_COUNT && |s.vvNew| == NEW_BUCKET_COUNT && origin < |s.vvNew|
    && var k := GetTriedBucket(s.env, s.key, s.mapInfo[n].service);
       if |s.vvTried[k]| < TRIED_BUCKET_SIZE then PromotedTo(s, s', n, k)
       else
         && TriedOk(s.env, s.key, s.mapInfo, vv) && pos < |vv[k]| && vv[k][pos] in s.mapInfo
         && ExchangedTo(s.(vvTried := vv), s', n, k, pos, ReturnBucket(s, n, vv[k][pos], origin))
  }

  /** The new bucket an evicted entry w goes back to. */
  ghost function ReturnBucket(s: State, n: nat, w: nat, origin: nat): nat
    requires w in s.mapInfo && |s.vvNew| == NEW_BUCKET_COUNT
  {
    var home := GetNewBucket(s.env, s.key, s.mapInfo[w].service.net, s.mapInfo[w].source);
    if |s.vvNew[home] - {n}| < NEW_BUCKET_SIZE then home else origin
  }

  /** Entry a becomes tried. If its tried bucket is full, some entry of that bucket goes back to
      the new bucket of its own source, or to the bucket a came from when that one is full. */
  ghost predicate MakeTriedEffect(env: Env, key: seq<nat>, v: View, v': View, a: NetAddr, origin: nat) {
    && a in v
    && var k := GetTriedBucket(env, key, v[a].service);
       if |TriedListed(env, key, v, k)| < TRIED_BUCKET_SIZE then v' == Tried(v, a)
       else exists w :: w in TriedListed(env, key, v, k) && EvictEffect(env, key, v, v', a, origin, w)
  }

  ghost predicate EvictEffect(env: Env, key: seq<nat>, v: View, v': View, a: NetAddr, origin: nat, w: NetAddr) {
    && w in v
    && var home := GetNewBucket(env, key, w, v[w].source);
       v' == Untried(Tried(v, a), w, if |Listed(Tried(v, a), home)| < NEW_BUCKET_SIZE then home else origin)
  }

  lemma MadeTriedOk(s: State, s': State, n: nat, origin: nat, vv: seq<seq<nat>>, pos: nat)
    requires Core(s) && n in s.mapInfo && !s.mapInfo[n].fInTried && origin < |s.vvNew| && n in s.vvNew[origin]
    requires MadeTriedTo(s, s', n, origin, vv, pos)
    ensures Core(s')
    ensures MakeTriedEffect(s.env, s.key, ViewOf(s), ViewOf(s'), s.mapInfo[n].service.net, origin)
  {
    var a := s.mapInfo[n].service.net;
    var k := GetTriedBucket(s.env, s.key, s.mapInfo[n].service);
    assert s.mapAddr[a] == n;
    TriedListedCount(s, k);
    if |s.vvTried[k]| < TRIED_BUCKET_SIZE {
      PromotedOk(s, s', n);
    } else {
      EvictedOk(s, s', n, origin, vv, pos);
    }
  }

  lemma EvictedOk(s: State, s': State, n: nat, origin: nat, vv: seq<seq<nat>>, pos: nat)
    requires Core(s) && n in s.mapInfo && !s.mapInfo[n].fInTried && origin < |s.vvNew| && n in s.vvNew[origin]
    requires MadeTriedTo(s, s', n, origin, vv, pos)
    requires |s.vvTried[GetTriedBucket(s.env, s.key, s.mapInfo[n].service)]| >= TRIED_BUCKET_SIZE
    ensures Core(s')
    ensures exists w :: w in TriedListed(s.env, s.key, ViewOf(s), GetTriedBucket(s.env, s.key, s.mapInfo[n].service)) &&
              EvictEffect(s.env, s.key, ViewOf(s), ViewOf(s'), s.mapInfo[n].service.net, origin, w)
  {
    var k := GetTriedBucket(s.env, s.key, s.mapInfo[n].service);
    var s1 := s.(vvTried := vv);
    var w := vv[k][pos];
    assert w in vv[k];
    TriedListedCount(s1, k);
    EvictRoom(s, n, w, origin);
    ExchangedOk(s1, s', n, pos, ReturnBucket(s, n, w, origin));
    assert EvictEffect(s.env, s.key, ViewOf(s), ViewOf(s'), s.mapInfo[n].service.net, origin, s.mapInfo[w].service.net);
  }

  /** The bucket is chosen by what it lists once n has been withdrawn. */
  lemma EvictRoom(s: State, n: nat, w: nat, origin: nat)
    requires Core(s) && n in s.mapInfo && w in s.mapInfo && origin < |s.vvNew| && n in s.vvNew[origin]
    ensures var c := ReturnBucket(s, n, w, origin);
            && c < |s.vvNew|
            && var home := GetNewBucket(s.env, s.key, s.mapInfo[w].service.net, s.mapInfo[w].source);
               c == if |Listed(Tried(ViewOf(s), s.mapInfo[n].service.net), home)| < NEW_BUCKET_SIZE then home else origin
  {
    ListedWithout(s, n, GetNewBucket(s.env, s.key, s.mapInfo[w].service.net, s.mapInfo[w].source));
  }
}
