/** The address manager itself: the operations as they change the tables in place. */
module AddrMan {
  import opened AddrManState
  import opened AddrManSteps

  /** Any value the random generator may return. */
  method GetRandInt(nMax: nat) returns (r: nat)
    ensures nMax == 0 ==> r == 0
    ensures nMax > 0 ==> r < nMax
  {
    if nMax == 0 {
      r := 0;
    } else {
      r :| r < nMax;
    }
  }

  // ---------------------------------------------------------------- what the operations mean

  function U32(x: int): (r: nat) { x % 0x1_0000_0000 }

  function Max(x: int, y: int): int { if x < y then y else x }

  ghost predicate Known(v: View, service: Service) {
    service.net in v && v[service.net].service == service
  }

  ghost function AttemptView(v: View, service: Service, nTime: int): View {
    if !Known(v, service) then v
    else v[service.net := v[service.net].(nLastTry := nTime, nAttempts := v[service.net].nAttempts + 1)]
  }

  ghost function ConnectedView(v: View, service: Service, nTime: int): View {
    if !Known(v, service) || nTime - v[service.net].nTime <= 20 * 60 then v
    else v[service.net := v[service.net].(nTime := U32(nTime))]
  }

  function Attempted(i: Info, nTime: int): Info {
    i.(nLastTry := nTime, nAttempts := i.nAttempts + 1)
  }

  lemma AttemptRestated(v: View, service: Service, nTime: int, i: Info, bs: set<nat>)
    requires Known(v, service) && v[service.net] == EntryOf(i, bs)
    ensures v[service.net := Restated(v[service.net], Attempted(i, nTime))] ==
            AttemptView(v, service, nTime)
  {
  }

  lemma ConnectedRestated(v: View, service: Service, nTime: int, i: Info, bs: set<nat>)
    requires Known(v, service) && v[service.net] == EntryOf(i, bs) && nTime - i.nTime > 20 * 60
    ensures v[service.net := Restated(v[service.net], i.(nTime := U32(nTime)))] == ConnectedView(v, service, nTime)
  {
  }

  ghost function Succeeded(e: Entry, nTime: int): Entry {
    e.(nLastSuccess := nTime, nLastTry := nTime, nTime := U32(nTime), nAttempts := 0)
  }

  ghost predicate GoodEffect(env: Env, key: seq<nat>, v: View, v': View, service: Service, nTime: int) {
    if !Known(v, service) then v' == v
    else
      var a := service.net;
      var v1 := v[a := Succeeded(v[a], nTime)];
      if v[a].inTried then v' == v1
      else exists origin :: origin in v[a].newBuckets && MakeTriedEffect(env, key, v1, v', a, origin)
  }

  ghost predicate EntryTerrible(e: Entry, now: int) {
    IsTerrible(Info(e.service, e.nServices, e.nTime, e.nLastTry, e.source, e.nLastSuccess, e.nAttempts, 0, e.inTried, 0), now)
  }

  /** If b is exactly full, some entry listed there is unlisted; one that is not worth keeping, if there is any. */
  ghost predicate RoomEffect(v: View, v': View, b: nat, now: int) {
    if |Listed(v, b)| != NEW_BUCKET_SIZE then v' == v
    else exists w :: w in Listed(v, b) && ForgetEffect(v, v', b, now, w)
  }

  ghost predicate ForgetEffect(v: View, v': View, b: nat, now: int, w: NetAddr) {
    && w in v && v' == Dropped(v, w, b)
    && ((exists x :: x in Listed(v, b) && EntryTerrible(v[x], now)) ==> EntryTerrible(v[w], now))
  }

  /** Address a gets a place in the new bucket chosen by its source, if it is not there already. */
  ghost predicate PlaceEffect(v: View, v': View, a: NetAddr, b: nat, now: int) {
    && a in v
    && if b in v[a].newBuckets then v' == v
       else exists v1 :: RoomEffect(v, v1, b, now) && v' == Relisted(v1, a, v[a].newBuckets + {b})
  }

  function UpdateInterval(addr: Address, now: int): int {
    if now - addr.nTime < 24 * 60 * 60 then 60 * 60 else 24 * 60 * 60
  }

  /** What hearing of a known address again does to its entry. */
  function Refreshed(i: Info, addr: Address, penalty: int, now: int): Info {
    var nTime := if addr.nTime != 0 && (i.nTime == 0 || i.nTime < addr.nTime - UpdateInterval(addr, now) - penalty)
                 then U32(Max(0, addr.nTime - penalty)) else i.nTime;
    i.(nTime := nTime, nServices := i.nServices | addr.nServices)
  }

  /** Whether an entry, refreshed, may be listed in one more new bucket. */
  predicate MayRelist(nTime: nat, inTried: bool, addr: Address) {
    addr.nTime != 0 && (nTime == 0 || addr.nTime > nTime) && !inTried
  }

  ghost function RefreshedEntry(e: Entry, addr: Address, penalty: int, now: int): Entry {
    var i := Refreshed(Info(e.service, e.nServices, e.nTime, e.nLastTry, e.source, e.nLastSuccess, e.nAttempts,
                            0, e.inTried, 0), addr, penalty, now);
    Restated(e, i)
  }

  ghost function FreshEntry(addr: Address, source: NetAddr, penalty: int): Entry {
    Entry(addr.service, addr.nServices, U32(Max(0, addr.nTime - penalty)), 0, source, 0, 0, false, {})
  }

  ghost predicate AddEffect(env: Env, key: seq<nat>, v: View, v': View, addr: Address, source: NetAddr,
                            penalty: int, now: int, rnd: nat, fNew: bool) {
    var a := addr.service.net;
    var b := GetNewBucket(env, key, a, source);
    && (fNew <==> env.routable(a) && a !in v)
    && if !env.routable(a) then v' == v
       else if a !in v then PlaceEffect(v[a := FreshEntry(addr, source, penalty)], v', a, b, now)
       else
         var e := RefreshedEntry(v[a], addr, penalty, now);
         if MayRelist(e.nTime, e.inTried, addr) && Lucky(|e.newBuckets|, rnd)
         then PlaceEffect(v[a := e], v', a, b, now) else v' == v[a := e]
  }

  ghost function Odds(refs: nat): (p: nat)
    ensures p > 0
  {
    if refs == 0 then 1 else 2 * Odds(refs - 1)
  }

  /** An address in that many buckets may get another one, rnd being what the random generator has to say. */
  ghost predicate Lucky(refs: nat, rnd: nat) {
    refs < NEW_BUCKETS_PER_ADDRESS && rnd % Odds(refs) == 0
  }

  // ---------------------------------------------------------------- the manager

  class AddrMan {
    const env: Env
    var key: seq<nat>
    var nIdCount: nat
    var mapInfo: map<nat, Info>
    var mapAddr: map<NetAddr, nat>
    var vRandom: seq<nat>
    var nTried: int
    var vvTried: seq<seq<nat>>
    var nNew: int
    var vvNew: seq<set<nat>>

    ghost function S(): State
      reads this
    {
      State(env, key, nIdCount, mapInfo, mapAddr, vRandom, nTried, vvTried, nNew, vvNew)
    }

    constructor (env: Env, key: seq<nat>)
      ensures this.env == env && this.key == key
      ensures Core(S()) && ViewOf(S()) == map[]
    {
      this.env := env;
      this.key := key;
      nIdCount := 0;
      mapInfo := map[];
      mapAddr := map[];
      vRandom := [];
      nTried, nNew := 0, 0;
      vvTried := seq(TRIED_BUCKET_COUNT, _ => []);
      vvNew := seq(NEW_BUCKET_COUNT, _ => {});
      new;
      assert NewIds(mapInfo) == {} && TriedIds(mapInfo) == {};
    }

    method Find(addr: NetAddr) returns (found: bool, id: nat)
      requires AddrOk(mapInfo, mapAddr)
      ensures found <==> addr in mapAddr
      ensures found ==> id == mapAddr[addr] && id in mapInfo
    {
      id := 0;
      found := addr in mapAddr;
      if found {
        id := mapAddr[addr];
        found := id in mapInfo;
      }
    }

    method SwapRandom(p: nat, q: nat)
      requires RandomOk(mapInfo, vRandom) && p < |vRandom| && q < |vRandom|
      modifies this`mapInfo, this`vRandom
      ensures mapInfo == SwappedInfo(old(mapInfo), old(vRandom), p, q)
      ensures vRandom == SwappedOrder(old(vRandom), p, q)
    {
      if p == q { return; }
      var id1, id2 := vRandom[p], vRandom[q];
      assert id1 in mapInfo;
      assert id2 in mapInfo;
      mapInfo := mapInfo[id1 := mapInfo[id1].(nRandomPos := q)];
      mapInfo := mapInfo[id2 := mapInfo[id2].(nRandomPos := p)];
      vRandom := vRandom[p := id2];
      vRandom := vRandom[q := id1];
    }

    // -------------------------------------------------------------- shrinking a new bucket

    method FindTerrible(b: nat, now: int) returns (found: bool, id: nat)
      requires b < |vvNew| && IdsOk(mapInfo, nIdCount)
      requires forall n :: n in vvNew[b] ==> n in mapInfo
      ensures found ==> id in vvNew[b] && IsTerrible(mapInfo[id], now)
      ensures found ==> forall n :: n in vvNew[b] && n < id ==> !IsTerrible(mapInfo[n], now)
      ensures !found ==> forall n :: n in vvNew[b] ==> !IsTerrible(mapInfo[n], now)
    {
      found, id := false, 0;
      while id < nIdCount
        invariant forall n :: n in vvNew[b] && n < id ==> !IsTerrible(mapInfo[n], now)
      {
        if id in vvNew[b] && IsTerrible(mapInfo[id], now) {
          return true, id;
        }
        id := id + 1;
      }
    }

    /** The members of a bucket that come before id when it is read in order. */
    static ghost function Before(bucket: set<nat>, id: nat): set<nat> {
      set n | n in bucket && n < id
    }

    static ghost predicate Picked(picks: seq<nat>, bucket: set<nat>, n: nat)
      requires |picks| == 4
    {
      var place := |Before(bucket, n)|;
      place == picks[0] || place == picks[1] || place == picks[2] || place == picks[3]
    }

    /** The oldest of the entries at four randomly chosen places of the bucket. */
    method SampleOldest(b: nat) returns (oldest: nat, ghost picks: seq<nat>)
      requires b < |vvNew| && IdsOk(mapInfo, nIdCount) && |vvNew[b]| > 0
      requires forall n :: n in vvNew[b] ==> n in mapInfo
      ensures |picks| == 4 && forall i :: 0 <= i < 4 ==> picks[i] < |vvNew[b]|
      ensures oldest in vvNew[b] && Picked(picks, vvNew[b], oldest)
      ensures forall n :: n in vvNew[b] && Picked(picks, vvNew[b], n) ==> mapInfo[oldest].nTime <= mapInfo[n].nTime
    {
      var bucket := vvNew[b];
      var n0 := GetRandInt(|bucket|);
      var n1 := GetRandInt(|bucket|);
      var n2 := GetRandInt(|bucket|);
      var n3 := GetRandInt(|bucket|);
      picks := [n0, n1, n2, n3];
      var have, nI, id := false, 0, 0;
      oldest := 0;
      assert Before(bucket, 0) == {};
      while id < nIdCount
        invariant id <= nIdCount
        invariant nI == |Before(bucket, id)|
        invariant have ==> oldest in bucket && Picked(picks, bucket, oldest)
        invariant forall n :: n in bucket && n < id && Picked(picks, bucket, n) ==>
                    have && mapInfo[oldest].nTime <= mapInfo[n].nTime
        invariant nI > n0 ==> have
      {
        BeforeNext(bucket, id);
        if id in bucket {
          if nI == n0 || nI == n1 || nI == n2 || nI == n3 {
            if !have || mapInfo[id].nTime < mapInfo[oldest].nTime {
              have, oldest := true, id;
            }
          }
          nI := nI + 1;
        }
        id := id + 1;
      }
      assert Before(bucket, nIdCount) == bucket;
    }

    static lemma BeforeNext(bucket: set<nat>, id: nat)
      ensures |Before(bucket, id + 1)| == |Before(bucket, id)| + if id in bucket then 1 else 0
    {
      if id in bucket {
        assert Before(bucket, id + 1) == Before(bucket, id) + {id};
      } else {
        assert Before(bucket, id + 1) == Before(bucket, id);
      }
    }

    /** Forget entry w, which swaps places with the last in the random order first. */
    method Delete(w: nat)
      requires RandomOk(mapInfo, vRandom) && w in mapInfo
      modifies this`mapInfo, this`mapAddr, this`vRandom, this`nNew
      ensures var p, q := old(mapInfo)[w].nRandomPos, |old(vRandom)| - 1;
              && mapInfo == SwappedInfo(old(mapInfo), old(vRandom), p, q) - {w}
              && vRandom == SwappedOrder(old(vRandom), p, q)[..q]
      ensures mapAddr == old(mapAddr) - {old(mapInfo)[w].service.net}
      ensures nNew == old(nNew) - 1
    {
      SwapRandom(mapInfo[w].nRandomPos, |vRandom| - 1);
      vRandom := vRandom[..|vRandom| - 1];
      mapAddr := mapAddr - {mapInfo[w].service.net};
      mapInfo := mapInfo - {w};
      nNew := nNew - 1;
    }

    /** Entry w gives up its place in bucket b and is deleted if it has no other. */
    method Unlist(w: nat, b: nat)
      requires RandomOk(mapInfo, vRandom) && w in mapInfo && b < |vvNew|
      modifies this`mapInfo, this`mapAddr, this`vRandom, this`nNew, this`vvNew
      ensures UnlistedTo(old(S()), S(), w, b)
    {
      var refs := mapInfo[w].nRefCount - 1;
      if refs == 0 {
        Delete(w);
      } else {
        mapInfo := mapInfo[w := mapInfo[w].(nRefCount := refs)];
      }
      vvNew := vvNew[b := vvNew[b] - {w}];
    }

    /** Make room in a new bucket: forget the first entry that is not worth keeping or, if
        there is none, the oldest of four. */
    method ShrinkNew(b: nat, now: int, ghost pending: set<nat>) returns (r: int, ghost w: nat, ghost picks: seq<nat>)
      requires CoreWith(S(), pending) && b < |vvNew| && |vvNew[b]| > 0 && vvNew[b] !! pending
      modifies this`mapInfo, this`mapAddr, this`vRandom, this`nNew, this`vvNew
      ensures w in old(vvNew[b]) && UnlistedTo(old(S()), S(), w, b)
      ensures r == if exists n :: n in old(vvNew[b]) && IsTerrible(old(mapInfo)[n], now) then 0 else 1
      ensures r == 0 ==> IsTerrible(old(mapInfo)[w], now) &&
                         forall n :: n in old(vvNew[b]) && n < w ==> !IsTerrible(old(mapInfo)[n], now)
      ensures r == 1 ==> |picks| == 4 && Picked(picks, old(vvNew[b]), w)
      ensures r == 1 ==> forall n :: n in old(vvNew[b]) && Picked(picks, old(vvNew[b]), n) ==>
                           old(mapInfo)[w].nTime <= old(mapInfo)[n].nTime
    {
      picks := [];
      var found, id := FindTerrible(b, now);
      if found {
        w, r := id, 0;
        Unlist(id, b);
      } else {
        id, picks := SampleOldest(b);
        w, r := id, 1;
        Unlist(id, b);
      }
    }

    // -------------------------------------------------------------- moving to the tried table

    /** Swap up to four random entries to the front of a tried bucket, and return the place from which the stalest
        of them came. */
    method SelectTried(k: nat) returns (pos: nat, ghost picks: seq<nat>, ghost win: nat)
      requires TriedOk(env, key, mapInfo, vvTried) && k < |vvTried| && |vvTried[k]| > 0
      modifies this`vvTried
      ensures TriedOk(env, key, mapInfo, vvTried)
      ensures ChosenFrom(mapInfo, old(vvTried), vvTried, k, picks, win, pos)
    {
      var oldest, i := 0, 0;
      pos, picks, win := 0, [], 0;
      while i < TRIED_ENTRIES_INSPECT_ON_EVICT && i < |vvTried[k]|
        invariant i == |picks| <= TRIED_ENTRIES_INSPECT_ON_EVICT && |vvTried| == |old(vvTried)|
        invariant vvTried == old(vvTried)[k := vvTried[k]] && TriedOk(env, key, mapInfo, vvTried)
        invariant Sampling(mapInfo, old(vvTried)[k], vvTried[k], picks, win, oldest, pos)
      {
        var nPos := GetRandInt(|vvTried[k]| - i);
        nPos := nPos + i;
        ghost var before := vvTried;
        oldest, pos, picks, win := DrawTried(k, i, nPos, oldest, pos, old(vvTried)[k], picks, win);
        OneBucket(old(vvTried), before, vvTried, k);
        i := i + 1;
      }
    }

    /** Changing one bucket twice changes one bucket. */
    static lemma OneBucket(vv: seq<seq<nat>>, vv1: seq<seq<nat>>, vv2: seq<seq<nat>>, k: nat)
      requires |vv| == |vv1| == |vv2| && k < |vv| && vv1 == vv[k := vv1[k]] && vv2 == vv1[k := vv2[k]]
      ensures vv2 == vv[k := vv2[k]]
    {
    }

    /** b is the bucket after the places picked; the stalest of the entries swapped to the front came from pos. */
    static ghost predicate Sampling(info: map<nat, Info>, bucket: seq<nat>, b: seq<nat>, picks: seq<nat>, win: nat, oldest: nat, pos: nat) {
      && Draws(picks, |bucket|) && b == Sampled(bucket, picks)
      && (|picks| > 0 ==> Stalest(info, b, |picks|, win) && oldest == b[win] && pos == picks[win])
    }

    /** Swap the entry at nPos to place i, and remember it if it is staler than those before it. */
    method DrawTried(k: nat, i: nat, nPos: nat, oldest0: nat, pos0: nat, ghost bucket: seq<nat>, ghost picks0: seq<nat>, ghost win0: nat)
      returns (oldest: nat, pos: nat, ghost picks: seq<nat>, ghost win: nat)
      requires TriedOk(env, key, mapInfo, vvTried) && k < |vvTried| && i == |picks0| <= nPos < |vvTried[k]|
      requires Sampling(mapInfo, bucket, vvTried[k], picks0, win0, oldest0, pos0)
      modifies this`vvTried
      ensures TriedOk(env, key, mapInfo, vvTried)
      ensures |vvTried| == |old(vvTried)| && vvTried == old(vvTried)[k := vvTried[k]]
      ensures picks == picks0 + [nPos] && Sampling(mapInfo, bucket, vvTried[k], picks, win, oldest, pos)
    {
      SwapTried(env, key, mapInfo, vvTried, k, nPos, i);
      ghost var b := vvTried[k];
      var nTemp := vvTried[k][nPos];
      assert nTemp in vvTried[k] && nTemp in mapInfo;
      var staler := i == 0 || mapInfo[nTemp].nLastSuccess < mapInfo[oldest0].nLastSuccess;
      vvTried := vvTried[k := vvTried[k][nPos := vvTried[k][i]][i := nTemp]];
      picks, win := picks0 + [nPos], if staler then i else win0;
      SampleNext(mapInfo, bucket, picks0, b, vvTried[k], nPos, win0, win);
      oldest, pos := oldest0, pos0;
      if staler {
        oldest, pos := nTemp, nPos;
      }
    }

    /** The entry gives up its places in the new table, one bucket at a time. */
    method Withdraw(n: nat)
      requires n in mapInfo && mapInfo[n].nRefCount == |BucketsOf(vvNew, n)|
      modifies this`mapInfo, this`vvNew
      ensures vvNew == Without(old(vvNew), n)
      ensures mapInfo == old(mapInfo)[n := old(mapInfo)[n].(nRefCount := 0)]
    {
      var b := 0;
      while b < |vvNew|
        invariant Withdrawing(old(vvNew), vvNew, n, b)
        invariant mapInfo == old(mapInfo)[n := old(mapInfo)[n].(nRefCount := |BucketsOf(vvNew, n)|)]
      {
        WithdrawFrom(n, b, old(vvNew));
        b := b + 1;
      }
      assert BucketsOf(vvNew, n) == {};
    }

    /** The entry is out of the buckets below b, and the others are as they were. */
    static ghost predicate Withdrawing(was: seq<set<nat>>, vvNew: seq<set<nat>>, n: nat, b: nat) {
      && b <= |vvNew| == |was|
      && (forall c :: 0 <= c < b ==> vvNew[c] == was[c] - {n})
      && (forall c :: b <= c < |vvNew| ==> vvNew[c] == was[c])
    }

    method WithdrawFrom(n: nat, b: nat, ghost was: seq<set<nat>>)
      requires b < |vvNew| && n in mapInfo && mapInfo[n].nRefCount == |BucketsOf(vvNew, n)| && Withdrawing(was, vvNew, n, b)
      modifies this`mapInfo, this`vvNew
      ensures Withdrawing(was, vvNew, n, b + 1)
      ensures mapInfo == old(mapInfo)[n := old(mapInfo)[n].(nRefCount := |BucketsOf(vvNew, n)|)]
    {
      if n in vvNew[b] {
        BucketsUpdate(vvNew, b, vvNew[b] - {n}, n);
        assert b in BucketsOf(vvNew, n);
        vvNew := vvNew[b := vvNew[b] - {n}];
        mapInfo := mapInfo[n := mapInfo[n].(nRefCount := mapInfo[n].nRefCount - 1)];
      }
    }

    method MakeTried(n: nat, origin: nat) returns (ghost vv: seq<seq<nat>>, ghost pos: nat, ghost picks: seq<nat>, ghost win: nat)
      requires n in mapInfo && !mapInfo[n].fInTried && CountOk(mapInfo[n], vvNew, n, 0)
      requires TriedOk(env, key, mapInfo, vvTried) && |vvNew| == NEW_BUCKET_COUNT
      requires origin < |vvNew| && n in vvNew[origin]
      modifies this`mapInfo, this`vvNew, this`nNew, this`vvTried, this`nTried
      ensures MadeTriedTo(old(S()), S(), n, origin, vv, pos)
      ensures var k := GetTriedBucket(env, key, old(mapInfo)[n].service);
              |old(vvTried)[k]| >= TRIED_BUCKET_SIZE ==> ChosenFrom(old(mapInfo), old(vvTried), vv, k, picks, win, pos)
    {
      ghost var s := S();
      Withdraw(n);
      nNew := nNew - 1;
      var k := GetTriedBucket(env, key, mapInfo[n].service);
      ghost var s1 := S();
      assert s1 == Withdrawn(s, n);
      if |vvTried[k]| < TRIED_BUCKET_SIZE {
        vv, pos, picks, win := vvTried, 0, [], 0;
        Promote(n, k);
        PromotedFrom(s, S(), n, k, origin, vv);
      } else {
        RewriteTried(env, key, s.mapInfo, n, mapInfo[n], vvTried);
        vv, pos, picks, win := Evict(n, k, origin);
        ChosenAlike(s1.mapInfo, s.mapInfo, s.vvTried, vv, k, picks, win, pos);
        EvictedFrom(s, s1, S(), n, k, origin, vv, pos);
      }
    }

    /** The state with entry n in no new bucket and no longer counted as new. */
    static ghost function Withdrawn(s: State, n: nat): State
      requires n in s.mapInfo
    {
      s.(mapInfo := s.mapInfo[n := s.mapInfo[n].(nRefCount := 0)], vvNew := Without(s.vvNew, n), nNew := s.nNew - 1)
    }

    /** Put entry n, already withdrawn from the new buckets, at the end of tried bucket k. */
    method Promote(n: nat, k: nat)
      requires n in mapInfo && k < |vvTried|
      modifies this`mapInfo, this`vvTried, this`nTried
      ensures S() == old(S()).(mapInfo := old(mapInfo)[n := old(mapInfo)[n].(fInTried := true)],
                               vvTried := old(vvTried)[k := old(vvTried)[k] + [n]], nTried := old(nTried) + 1)
    {
      vvTried := vvTried[k := vvTried[k] + [n]];
      nTried := nTried + 1;
      mapInfo := mapInfo[n := mapInfo[n].(fInTried := true)];
    }

    static lemma PromotedFrom(s: State, s': State, n: nat, k: nat, origin: nat, vv: seq<seq<nat>>)
      requires n in s.mapInfo && |s.vvTried| == TRIED_BUCKET_COUNT && |s.vvNew| == NEW_BUCKET_COUNT && origin < |s.vvNew|
      requires k == GetTriedBucket(s.env, s.key, s.mapInfo[n].service) && |s.vvTried[k]| < TRIED_BUCKET_SIZE
      requires var s1 := Withdrawn(s, n);
               s' == s1.(mapInfo := s1.mapInfo[n := s1.mapInfo[n].(fInTried := true)],
                         vvTried := s.vvTried[k := s.vvTried[k] + [n]], nTried := s.nTried + 1)
      ensures MadeTriedTo(s, s', n, origin, vv, 0)
    {
      assert s'.mapInfo == s.mapInfo[n := AsTried(s.mapInfo[n])];
    }

    /** From s to s', entry n, already withdrawn, has taken the place pos of tried bucket k; vv is the tried table
        after the shuffle that chose the place. */
    static ghost predicate EvictedTo(s: State, s': State, n: nat, k: nat, origin: nat, vv: seq<seq<nat>>, pos: nat)
      requires n in s.mapInfo && |s.vvNew| == NEW_BUCKET_COUNT && origin < |s.vvNew|
    {
      && TriedOk(s.env, s.key, s.mapInfo, vv) && k < |vv| && pos < |vv[k]|
      && var w := vv[k][pos];
         && w in s.mapInfo && w != n
         && var home := GetNewBucket(s.env, s.key, s.mapInfo[w].service.net, s.mapInfo[w].source);
            var c := if |s.vvNew[home]| < NEW_BUCKET_SIZE then home else origin;
            s' == s.(mapInfo := s.mapInfo[w := AsNew(s.mapInfo[w])][n := s.mapInfo[n].(fInTried := true)],
                     vvNew := s.vvNew[c := s.vvNew[c] + {w}],
                     vvTried := vv[k := Replaced(vv[k], pos, n)],
                     nNew := s.nNew + 1)
    }

    static lemma EvictedFrom(s: State, s1: State, s': State, n: nat, k: nat, origin: nat, vv: seq<seq<nat>>, pos: nat)
      requires n in s.mapInfo && |s.vvTried| == TRIED_BUCKET_COUNT && |s.vvNew| == NEW_BUCKET_COUNT && origin < |s.vvNew|
      requires k == GetTriedBucket(s.env, s.key, s.mapInfo[n].service) && |s.vvTried[k]| >= TRIED_BUCKET_SIZE
      requires s1 == Withdrawn(s, n)
      requires EvictedTo(s1, s', n, k, origin, vv, pos)
      ensures MadeTriedTo(s, s', n, origin, vv, pos)
    {
      UnwithdrawnTried(s, n, vv);
      var w := vv[k][pos];
      assert s'.mapInfo == ExchangedInfo(s.mapInfo, n, w);
      assert ReturnBucket(s, n, w, origin) < NEW_BUCKET_COUNT;
    }

    static lemma UnwithdrawnTried(s: State, n: nat, vv: seq<seq<nat>>)
      requires n in s.mapInfo && TriedOk(s.env, s.key, s.mapInfo[n := s.mapInfo[n].(nRefCount := 0)], vv)
      ensures TriedOk(s.env, s.key, s.mapInfo, vv)
    {
      RewriteTried(s.env, s.key, s.mapInfo[n := s.mapInfo[n].(nRefCount := 0)], n, s.mapInfo[n], vv);
      assert s.mapInfo[n := s.mapInfo[n].(nRefCount := 0)][n := s.mapInfo[n]] == s.mapInfo;
    }

    /** Put entry n, already withdrawn from the new buckets, in the place of another entry of tried bucket k. */
    method Evict(n: nat, k: nat, origin: nat) returns (ghost vv: seq<seq<nat>>, ghost pos: nat, ghost picks: seq<nat>, ghost win: nat)
      requires TriedOk(env, key, mapInfo, vvTried) && n in mapInfo && !mapInfo[n].fInTried
      requires k < |vvTried| && |vvTried[k]| > 0 && |vvNew| == NEW_BUCKET_COUNT && origin < |vvNew|
      modifies this`mapInfo, this`vvNew, this`nNew, this`vvTried
      ensures EvictedTo(old(S()), S(), n, k, origin, vv, pos)
      ensures ChosenFrom(old(mapInfo), old(vvTried), vv, k, picks, win, pos)
    {
      var p;
      p, picks, win := SelectTried(k);
      vv, pos := vvTried, p;
      Exchange(n, k, p, origin);
    }

    /** Entry n takes place p of tried bucket k, and the entry there goes back to a new bucket. */
    method Exchange(n: nat, k: nat, p: nat, origin: nat)
      requires TriedOk(env, key, mapInfo, vvTried) && n in mapInfo && !mapInfo[n].fInTried
      requires k < |vvTried| && p < |vvTried[k]| && |vvNew| == NEW_BUCKET_COUNT && origin < |vvNew|
      modifies this`mapInfo, this`vvNew, this`nNew, this`vvTried
      ensures EvictedTo(old(S()), S(), n, k, origin, old(vvTried), p)
    {
      TriedElsewhere(env, key, mapInfo, vvTried, n, k, p);
      var w := vvTried[k][p];
      var home := GetNewBucket(env, key, mapInfo[w].service.net, mapInfo[w].source);
      mapInfo := mapInfo[w := mapInfo[w].(fInTried := false, nRefCount := 1)];
      if |vvNew[home]| < NEW_BUCKET_SIZE {
        vvNew := vvNew[home := vvNew[home] + {w}];
      } else {
        vvNew := vvNew[origin := vvNew[origin] + {w}];
      }
      nNew := nNew + 1;
      vvTried := vvTried[k := Replaced(vvTried[k], p, n)];
      mapInfo := mapInfo[n := mapInfo[n].(fInTried := true)];
    }

    static lemma TriedElsewhere(env: Env, key: seq<nat>, info: map<nat, Info>, vvTried: seq<seq<nat>>, n: nat, k: nat, pos: nat)
      requires TriedOk(env, key, info, vvTried) && n in info && !info[n].fInTried && k < |vvTried| && pos < |vvTried[k]|
      ensures vvTried[k][pos] in info && vvTried[k][pos] != n && info[vvTried[k][pos]].fInTried
    {
      assert vvTried[k][pos] in vvTried[k];
    }

    // -------------------------------------------------------------- statistics

    /** Find the entry for exactly this service, port included. */
    method FindService(service: Service) returns (found: bool, id: nat)
      requires AddrOk(mapInfo, mapAddr)
      ensures found <==> Known(ViewOf(S()), service)
      ensures found ==> id in mapInfo && mapInfo[id].service == service
      ensures found ==> ViewOf(S())[service.net] == EntryOf(mapInfo[id], BucketsOf(vvNew, id))
    {
      found, id := Find(service.net);
      if found && mapInfo[id].service != service {
        found := false;
      }
    }

    /** Overwrite the statistics of an entry. */
    method Restate(id: nat, i: Info)
      requires Core(S()) && id in mapInfo
      requires i.service == mapInfo[id].service && i.nRefCount == mapInfo[id].nRefCount
      requires i.fInTried == mapInfo[id].fInTried && i.nRandomPos == mapInfo[id].nRandomPos
      modifies this`mapInfo
      ensures Core(S()) && id in mapInfo && mapInfo[id] == i
      ensures old(i.service.net in ViewOf(S()))
      ensures ViewOf(S()) == old(ViewOf(S()))[i.service.net := Restated(old(ViewOf(S()))[i.service.net], i)]
    {
      ghost var s := S();
      mapInfo := mapInfo[id := i];
      RewriteInfo(s, S(), id, i);
    }

    method Attempt(service: Service, nTime: int)
      requires Core(S())
      modifies this`mapInfo
      ensures Core(S()) && ViewOf(S()) == AttemptView(old(ViewOf(S())), service, nTime)
    {
      var found, id := FindService(service);
      if !found { return; }
      AttemptRestated(ViewOf(S()), service, nTime, mapInfo[id], BucketsOf(vvNew, id));
      Restate(id, Attempted(mapInfo[id], nTime));
    }

    method Connected(service: Service, nTime: int)
      requires Core(S())
      modifies this`mapInfo
      ensures Core(S()) && ViewOf(S()) == ConnectedView(old(ViewOf(S())), service, nTime)
    {
      var found, id := FindService(service);
      if !found { return; }
      if nTime - mapInfo[id].nTime > 20 * 60 {
        ConnectedRestated(ViewOf(S()), service, nTime, mapInfo[id], BucketsOf(vvNew, id));
        Restate(id, mapInfo[id].(nTime := U32(nTime)));
      }
    }

    // -------------------------------------------------------------- success

    method FindBucket(n: nat) returns (found: bool, b: nat)
      requires |vvNew| == NEW_BUCKET_COUNT
      ensures found ==> b < |vvNew| && n in vvNew[b]
      ensures !found ==> BucketsOf(vvNew, n) == {}
    {
      found, b := false, 0;
      var nRnd := GetRandInt(|vvNew|);
      var i := 0;
      while i < |vvNew|
        invariant i <= |vvNew|
        invariant forall j :: nRnd <= j < nRnd + i ==> n !in vvNew[j % NEW_BUCKET_COUNT]
      {
        b := (i + nRnd) % |vvNew|;
        if n in vvNew[b] {
          found := true;
          return;
        }
        i := i + 1;
      }
      forall c: nat | c < |vvNew| ensures n !in vvNew[c] {
        assert n !in vvNew[(if c < nRnd then c + NEW_BUCKET_COUNT else c) % NEW_BUCKET_COUNT];
      }
    }

    method Good(service: Service, nTime: int)
      requires Core(S())
      modifies this`mapInfo, this`vvNew, this`nNew, this`vvTried, this`nTried
      ensures Core(S())
      ensures GoodEffect(env, key, old(ViewOf(S())), ViewOf(S()), service, nTime)
    {
      var found, id := FindService(service);
      if !found { return; }
      Restate(id, mapInfo[id].(nLastSuccess := nTime, nLastTry := nTime, nTime := U32(nTime), nAttempts := 0));
      if mapInfo[id].fInTried { return; }
      MoveToTried(id);
    }

    method MoveToTried(n: nat)
      requires Core(S()) && n in mapInfo && !mapInfo[n].fInTried
      modifies this`mapInfo, this`vvNew, this`nNew, this`vvTried, this`nTried
      ensures Core(S())
      ensures var a := old(mapInfo)[n].service.net;
              && old(a in ViewOf(S()))
              && exists origin :: origin in old(ViewOf(S())[a].newBuckets) &&
                   MakeTriedEffect(env, key, old(ViewOf(S())), ViewOf(S()), a, origin)
    {
      ghost var s := S();
      var ok, b := FindBucket(n);
      assert CountOk(mapInfo[n], vvNew, n, 0);
      if !ok { return; }
      ghost var vv, pos, picks, win := MakeTried(n, b);
      MadeTriedOk(s, S(), n, b, vv, pos);
      assert s.mapAddr[s.mapInfo[n].service.net] == n;
      assert b in ViewOf(s)[s.mapInfo[n].service.net].newBuckets;
    }

    // -------------------------------------------------------------- adding

    /** Make room in bucket b if it is exactly full, entry n being announced. */
    method MakeRoom(n: nat, b: nat, now: int)
      requires CoreWith(S(), {n}) && n in mapInfo && b < |vvNew| && n !in vvNew[b]
      modifies this`mapInfo, this`mapAddr, this`vRandom, this`nNew, this`vvNew
      ensures CoreWith(S(), {n}) && |vvNew| == |old(vvNew)| && n !in vvNew[b]
      ensures n in mapInfo && mapInfo[n] == old(mapInfo)[n].(nRandomPos := mapInfo[n].nRandomPos)
      ensures BucketsOf(vvNew, n) == BucketsOf(old(vvNew), n)
      ensures RoomEffect(old(ViewOf(S())), ViewOf(S()), b, now)
    {
      ghost var s := S();
      ListedCount(s, {n}, b);
      if |vvNew[b]| == NEW_BUCKET_SIZE {
        ghost var r, w, picks := ShrinkNew(b, now, {n});
        ShrunkOk(s, S(), n, w, b, now);
        ShrunkKeeps(s, S(), n, w, b);
      }
    }

    static lemma ShrunkOk(s: State, s': State, n: nat, w: nat, b: nat, now: int)
      requires CoreWith(s, {n}) && n in s.mapInfo && b < |s.vvNew| && n !in s.vvNew[b] && w in s.vvNew[b]
      requires UnlistedTo(s, s', w, b)
      requires |s.vvNew[b]| == NEW_BUCKET_SIZE
      requires (exists m :: m in s.vvNew[b] && m in s.mapInfo && IsTerrible(s.mapInfo[m], now)) ==> IsTerrible(s.mapInfo[w], now)
      ensures CoreWith(s', {n})
      ensures RoomEffect(ViewOf(s), ViewOf(s'), b, now)
    {
      UnlistedOk(s, s', w, b, {n});
      ListedCount(s, {n}, b);
      ForgotOk(s, w, b, now);
      assert ForgetEffect(ViewOf(s), ViewOf(s'), b, now, s.mapInfo[w].service.net);
    }

    static lemma ShrunkKeeps(s: State, s': State, n: nat, w: nat, b: nat)
      requires RandomOk(s.mapInfo, s.vRandom) && n in s.mapInfo && w in s.mapInfo
      requires b < |s.vvNew| && n !in s.vvNew[b] && w in s.vvNew[b]
      requires UnlistedTo(s, s', w, b)
      ensures |s'.vvNew| == |s.vvNew| && n !in s'.vvNew[b]
      ensures n in s'.mapInfo && s'.mapInfo[n] == s.mapInfo[n].(nRandomPos := s'.mapInfo[n].nRandomPos)
      ensures BucketsOf(s'.vvNew, n) == BucketsOf(s.vvNew, n)
    {
      UnlistedKeepsOthers(s, s', w, b);
      BucketsUpdate(s.vvNew, b, s.vvNew[b] - {w}, n);
    }

    static lemma ForgotOk(s: State, w: nat, b: nat, now: int)
      requires AddrOk(s.mapInfo, s.mapAddr) && b < |s.vvNew| && w in s.vvNew[b] && w in s.mapInfo
      requires (exists m :: m in s.vvNew[b] && m in s.mapInfo && IsTerrible(s.mapInfo[m], now)) ==> IsTerrible(s.mapInfo[w], now)
      ensures var v, a := ViewOf(s), s.mapInfo[w].service.net;
              && a in Listed(v, b)
              && ((exists x :: x in Listed(v, b) && EntryTerrible(v[x], now)) ==> EntryTerrible(v[a], now))
    {
      var v, a := ViewOf(s), s.mapInfo[w].service.net;
      assert s.mapAddr[a] == w;
      if x :| x in Listed(v, b) && EntryTerrible(v[x], now) {
        assert s.mapAddr[x] in s.vvNew[b];
        assert IsTerrible(s.mapInfo[s.mapAddr[x]], now);
      }
    }

    /** Fill in the announced reference of entry n. */
    method ListPending(n: nat, b: nat, now: int)
      requires CoreWith(S(), {n}) && n in mapInfo && !mapInfo[n].fInTried && b < |vvNew| && n !in vvNew[b]
      modifies this`mapInfo, this`mapAddr, this`vRandom, this`nNew, this`vvNew
      ensures Core(S())
      ensures PlaceEffect(old(ViewOf(S())), ViewOf(S()), old(mapInfo)[n].service.net, b, now)
    {
      ghost var v, a := ViewOf(S()), mapInfo[n].service.net;
      assert mapAddr[a] == n;
      assert v[a].newBuckets == BucketsOf(vvNew, n);
      MakeRoom(n, b, now);
      ghost var s := S();
      ghost var v1 := ViewOf(s);
      vvNew := vvNew[b := vvNew[b] + {n}];
      Place(s, S(), n, b);
      assert RoomEffect(v, v1, b, now) && ViewOf(S()) == Relisted(v1, a, v[a].newBuckets + {b});
    }

    /** With each bucket that lists it already, an address is half as likely to get another. */
    method Unlucky(refs: nat, rnd: nat) returns (skip: bool)
      ensures skip <==> rnd % Odds(refs) != 0
    {
      var nFactor, n := 1, 0;
      while n < refs
        invariant n <= refs && nFactor == Odds(n)
      {
        nFactor := nFactor * 2;
        n := n + 1;
      }
      skip := nFactor > 1 && rnd % nFactor != 0;
    }

    method Create(addr: Address, source: NetAddr) returns (id: nat)
      modifies this`nIdCount, this`mapInfo, this`mapAddr, this`vRandom
      ensures id == old(nIdCount) && nIdCount == id + 1
      ensures mapInfo == old(mapInfo)[id := Info(addr.service, addr.nServices, addr.nTime, 0, source, 0, 0, 0, false, |old(vRandom)|)]
      ensures mapAddr == old(mapAddr)[addr.service.net := id]
      ensures vRandom == old(vRandom) + [id]
    {
      id := nIdCount;
      nIdCount := nIdCount + 1;
      mapInfo := mapInfo[id := Info(addr.service, addr.nServices, addr.nTime, 0, source, 0, 0, 0, false, -1)];
      mapAddr := mapAddr[addr.service.net := id];
      mapInfo := mapInfo[id := mapInfo[id].(nRandomPos := |vRandom|)];
      vRandom := vRandom + [id];
    }

    static function NewInfo(addr: Address, source: NetAddr, penalty: int, pos: nat): Info {
      Info(addr.service, addr.nServices, U32(Max(0, addr.nTime - penalty)), 0, source, 0, 0, 1, false, pos)
    }

    method CreateCounted(addr: Address, source: NetAddr, penalty: int) returns (id: nat)
      modifies this`nIdCount, this`mapInfo, this`mapAddr, this`vRandom, this`nNew
      ensures id == old(nIdCount)
      ensures CreatedTo(old(S()), S(), NewInfo(addr, source, penalty, |old(vRandom)|))
    {
      id := Create(addr, source);
      mapInfo := mapInfo[id := mapInfo[id].(nTime := U32(Max(0, mapInfo[id].nTime - penalty)))];
      nNew := nNew + 1;
      mapInfo := mapInfo[id := mapInfo[id].(nRefCount := mapInfo[id].nRefCount + 1)];
    }

    /** Create an entry and announce its first reference. */
    method CreateAnnounced(addr: Address, source: NetAddr, penalty: int) returns (id: nat)
      requires Core(S()) && addr.service.net !in mapAddr
      modifies this`nIdCount, this`mapInfo, this`mapAddr, this`vRandom, this`nNew
      ensures CoreWith(S(), {id}) && |vvNew| == NEW_BUCKET_COUNT && forall b :: 0 <= b < |vvNew| ==> id !in vvNew[b]
      ensures id in mapInfo && !mapInfo[id].fInTried && mapInfo[id].service == addr.service
      ensures ViewOf(S()) == old(ViewOf(S()))[addr.service.net := FreshEntry(addr, source, penalty)]
    {
      ghost var s := S();
      ghost var i := NewInfo(addr, source, penalty, |vRandom|);
      id := CreateCounted(addr, source, penalty);
      CreatedOk(s, S(), i);
      CreatedView(s.mapInfo, s.mapAddr, s.vvNew, id, i);
      forall b | 0 <= b < |vvNew| ensures id !in vvNew[b] {
        assert b !in BucketsOf(vvNew, id);
      }
      assert EntryOf(i, {}) == FreshEntry(addr, source, penalty);
    }

    method AddUnknown(addr: Address, source: NetAddr, penalty: int, now: int)
      requires Core(S()) && addr.service.net !in mapAddr
      modifies this`nIdCount, this`mapInfo, this`mapAddr, this`vRandom, this`nNew, this`vvNew
      ensures Core(S())
      ensures PlaceEffect(old(ViewOf(S()))[addr.service.net := FreshEntry(addr, source, penalty)], ViewOf(S()),
                          addr.service.net, GetNewBucket(env, key, addr.service.net, source), now)
    {
      var id := CreateAnnounced(addr, source, penalty);
      var b := GetNewBucket(env, key, addr.service.net, source);
      ListPending(id, b, now);
    }

    /** Announce and fill in one more reference of an entry. */
    method Relist(id: nat, b: nat, now: int)
      requires Core(S()) && id in mapInfo && !mapInfo[id].fInTried && b < |vvNew|
      requires mapInfo[id].nRefCount < NEW_BUCKETS_PER_ADDRESS
      modifies this`mapInfo, this`mapAddr, this`vRandom, this`nNew, this`vvNew
      ensures Core(S())
      ensures PlaceEffect(old(ViewOf(S())), ViewOf(S()), old(mapInfo)[id].service.net, b, now)
    {
      assert mapAddr[mapInfo[id].service.net] == id;
      if id !in vvNew[b] {
        Refer(id);
        ListPending(id, b, now);
      }
    }

    /** Count one more reference of an entry, which is yet to be listed. */
    method Refer(id: nat)
      requires Core(S()) && id in mapInfo && !mapInfo[id].fInTried && mapInfo[id].nRefCount < NEW_BUCKETS_PER_ADDRESS
      modifies this`mapInfo
      ensures mapInfo == old(mapInfo)[id := Bumped(old(mapInfo)[id], 1)]
      ensures CoreWith(S(), {id}) && ViewOf(S()) == old(ViewOf(S()))
    {
      ghost var s := S();
      mapInfo := mapInfo[id := mapInfo[id].(nRefCount := mapInfo[id].nRefCount + 1)];
      Announce(s, S(), id);
    }

    method AddKnown(id: nat, addr: Address, source: NetAddr, now: int, rnd: nat)
      requires Core(S()) && id in mapInfo && mapInfo[id].service.net == addr.service.net
      modifies this`mapInfo, this`mapAddr, this`vRandom, this`nNew, this`vvNew
      ensures Core(S())
      ensures var v, v', a := old(ViewOf(S())), ViewOf(S()), addr.service.net;
              && a in v
              && if MayRelist(v[a].nTime, v[a].inTried, addr) && Lucky(|v[a].newBuckets|, rnd)
                 then PlaceEffect(v, v', a, GetNewBucket(env, key, a, source), now) else v' == v
    {
      assert mapAddr[addr.service.net] == id;
      assert CountOk(mapInfo[id], vvNew, id, 0);
      if !MayRelist(mapInfo[id].nTime, mapInfo[id].fInTried, addr) { return; }
      if mapInfo[id].nRefCount == NEW_BUCKETS_PER_ADDRESS { return; }
      var skip := Unlucky(mapInfo[id].nRefCount, rnd);
      if skip { return; }
      Relist(id, GetNewBucket(env, key, addr.service.net, source), now);
    }

    method Add(addr: Address, source: NetAddr, penalty: int, now: int, rnd: nat) returns (fNew: bool)
      requires Core(S())
      modifies this`nIdCount, this`mapInfo, this`mapAddr, this`vRandom, this`nNew, this`vvNew
      ensures Core(S())
      ensures AddEffect(env, key, old(ViewOf(S())), ViewOf(S()), addr, source, penalty, now, rnd, fNew)
    {
      fNew := false;
      if !env.routable(addr.service.net) { return; }
      var found, id := Find(addr.service.net);
      if found {
        RefreshedSame(ViewOf(S()), addr, penalty, now, mapInfo[id], BucketsOf(vvNew, id));
        Restate(id, Refreshed(mapInfo[id], addr, penalty, now));
        AddKnown(id, addr, source, now, rnd);
      } else {
        AddUnknown(addr, source, penalty, now);
        fNew := true;
      }
    }

    static lemma RefreshedSame(v: View, addr: Address, penalty: int, now: int, i: Info, bs: set<nat>)
      requires addr.service.net in v && v[addr.service.net] == EntryOf(i, bs)
      ensures Restated(v[addr.service.net], Refreshed(i, addr, penalty, now)) ==
              RefreshedEntry(v[addr.service.net], addr, penalty, now)
    {
    }

    // -------------------------------------------------------------- answering getaddr

    static function AddressOf(i: Info): Address { Address(i.service, i.nServices, i.nTime) }

    method Shuffle(n: nat)
      requires Core(S()) && n < |vRandom|
      modifies this`mapInfo, this`vRandom
      ensures Core(S()) && ViewOf(S()) == old(ViewOf(S()))
      ensures |vRandom| == |old(vRandom)| && vRandom[..n] == old(vRandom)[..n]
    {
      ghost var s := S();
      ghost var q := SwapAny(n);
      ShuffledOk(s, S(), n, q);
    }

    /** Swap the entry at n with one at or behind it. */
    method SwapAny(n: nat) returns (ghost q: nat)
      requires RandomOk(mapInfo, vRandom) && n < |vRandom|
      modifies this`mapInfo, this`vRandom
      ensures n <= q < |old(vRandom)| && SwappedTo(old(S()), S(), n, q)
    {
      var r := GetRandInt(|vRandom| - n);
      SwapRandom(n, n + r);
      q := n + r;
    }

    static lemma ShuffledOk(s: State, s': State, n: nat, q: nat)
      requires Core(s) && n <= q < |s.vRandom| && SwappedTo(s, s', n, q)
      ensures Core(s') && ViewOf(s') == ViewOf(s)
      ensures |s'.vRandom| == |s.vRandom| && s'.vRandom[..n] == s.vRandom[..n]
    {
      SwappedOk(s, s', n, q, {});
      SwappedPrefix(s.vRandom, n, q);
    }

    static lemma SwappedPrefix(v: seq<nat>, n: nat, q: nat)
      requires n <= q < |v|
      ensures |SwappedOrder(v, n, q)| == |v| && SwappedOrder(v, n, q)[..n] == v[..n]
    {
    }

    /** The answer names each of its addresses once, with what is known of it. */
    static ghost predicate Answer(v: View, vAddr: seq<Address>) {
      && (forall i :: 0 <= i < |vAddr| ==> Describes(v, vAddr[i]))
      && (forall i, j :: 0 <= i < j < |vAddr| ==> vAddr[i].service.net != vAddr[j].service.net)
    }

    static ghost predicate Describes(v: View, addr: Address) {
      var a := addr.service.net;
      a in v && addr == Address(v[a].service, v[a].nServices, v[a].nTime)
    }

    /** The answer lists the addresses of these ids. */
    static ghost predicate Drawn(addr: map<NetAddr, nat>, v: View, ids: seq<nat>, vAddr: seq<Address>) {
      && |vAddr| == |ids|
      && forall i :: 0 <= i < |ids| ==>
           Describes(v, vAddr[i]) && vAddr[i].service.net in addr && addr[vAddr[i].service.net] == ids[i]
    }

    static lemma DrawnNext(s: State, n: nat, vAddr: seq<Address>)
      requires AddrOk(s.mapInfo, s.mapAddr) && n < |s.vRandom| && s.vRandom[n] in s.mapInfo
      requires Drawn(s.mapAddr, ViewOf(s), s.vRandom[..n], vAddr)
      ensures Drawn(s.mapAddr, ViewOf(s), s.vRandom[..n + 1], vAddr + [AddressOf(s.mapInfo[s.vRandom[n]])])
    {
      assert s.mapAddr[s.mapInfo[s.vRandom[n]].service.net] == s.vRandom[n];
    }

    static lemma DrawnAnswer(s: State, n: nat, vAddr: seq<Address>)
      requires AddrOk(s.mapInfo, s.mapAddr) && RandomOk(s.mapInfo, s.vRandom) && n <= |s.vRandom|
      requires Drawn(s.mapAddr, ViewOf(s), s.vRandom[..n], vAddr)
      ensures Answer(ViewOf(s), vAddr)
    {
      assert Distinct(s.vRandom);
    }

    /** n addresses have been drawn, and nothing that is known has changed. */
    static ghost predicate Drawing(s: State, v: View, n: nat, vAddr: seq<Address>) {
      Core(s) && ViewOf(s) == v && n <= |s.vRandom| && Drawn(s.mapAddr, v, s.vRandom[..n], vAddr)
    }

    static lemma DrawnShuffled(s: State, s': State, n: nat, vAddr: seq<Address>)
      requires Core(s) && Core(s') && n < |s'.vRandom| && n <= |s.vRandom|
      requires Drawn(s.mapAddr, ViewOf(s), s.vRandom[..n], vAddr)
      requires s'.mapAddr == s.mapAddr && ViewOf(s') == ViewOf(s) && s'.vRandom[..n] == s.vRandom[..n]
      ensures s'.vRandom[n] in s'.mapInfo
      ensures Drawing(s', ViewOf(s), n + 1, vAddr + [AddressOf(s'.mapInfo[s'.vRandom[n]])])
    {
      assert s'.vRandom[n] in s'.mapInfo;
      DrawnNext(s', n, vAddr);
    }

    method Draw(n: nat, vAddr: seq<Address>) returns (vAddr': seq<Address>)
      requires n < |vRandom| && Core(S()) && Drawing(S(), ViewOf(S()), n, vAddr)
      modifies this`mapInfo, this`vRandom
      ensures Drawing(S(), old(ViewOf(S())), n + 1, vAddr') && |vRandom| == |old(vRandom)|
    {
      ghost var s := S();
      Shuffle(n);
      DrawnShuffled(s, S(), n, vAddr);
      vAddr' := vAddr + [AddressOf(mapInfo[vRandom[n]])];
    }

    /** The greatest number up to 2500 that is no more than 23 percent. */
    static ghost predicate Share(known: nat, n: nat) {
      n <= 2500 && 100 * n <= 23 * known && (n < 2500 ==> 100 * (n + 1) > 23 * known)
    }

    /** A share of the known addresses, up to a maximum. */
    static function Wanted(known: nat): (nNodes: nat)
      ensures nNodes <= known && Share(known, nNodes)
    {
      var share := GETADDR_MAX_PCT * known / 100;
      if share > GETADDR_MAX then GETADDR_MAX else share
    }

    /** The random order names every known address once. */
    static lemma KnownCount(s: State)
      requires Core(s)
      ensures |ViewOf(s)| == |s.vRandom|
    {
      RandomCount(s.mapInfo, s.vRandom);
      AddressCount(s.mapInfo, s.mapAddr);
      assert ViewOf(s).Keys == s.mapAddr.Keys;
    }

    static lemma AddressCount(info: map<nat, Info>, addr: map<NetAddr, nat>)
      requires AddrOk(info, addr)
      ensures |addr| == |info|
    {
      NamesCount(info, info.Keys, addr.Keys);
    }

    method DrawAll(nNodes: nat) returns (vAddr: seq<Address>)
      requires Core(S()) && nNodes <= |vRandom|
      modifies this`mapInfo, this`vRandom
      ensures |vAddr| == nNodes && Drawing(S(), old(ViewOf(S())), nNodes, vAddr)
    {
      ghost var v := ViewOf(S());
      vAddr := [];
      for n := 0 to nNodes
        invariant nNodes <= |vRandom| && |vAddr| == n && Drawing(S(), v, n, vAddr)
      {
        vAddr := Draw(n, vAddr);
      }
    }

    method GetAddr() returns (vAddr: seq<Address>)
      requires Core(S())
      modifies this`mapInfo, this`vRandom
      ensures Core(S()) && ViewOf(S()) == old(ViewOf(S()))
      ensures Share(|ViewOf(S())|, |vAddr|)
      ensures Answer(ViewOf(S()), vAddr)
    {
      KnownCount(S());
      vAddr := DrawAll(Wanted(|vRandom|));
      DrawnAnswer(S(), |vAddr|, vAddr);
    }
  }
}
