/** The address manager's tables as a value, the consistency conditions between them,
    and the abstract view (one entry per network address) that the conditions make possible. */
module AddrManState {

  const TRIED_BUCKET_COUNT := 64
  const TRIED_BUCKET_SIZE := 64
  const NEW_BUCKET_COUNT := 256
  const NEW_BUCKET_SIZE := 64
  const TRIED_BUCKETS_PER_GROUP := 4
  const NEW_BUCKETS_PER_SOURCE_GROUP := 32
  const NEW_BUCKETS_PER_ADDRESS := 4
  const TRIED_ENTRIES_INSPECT_ON_EVICT := 4
  const HORIZON_DAYS := 30
  const RETRIES := 3
  const MAX_FAILURES := 10
  const MIN_FAIL_DAYS := 7
  const GETADDR_MAX_PCT := 23
  const GETADDR_MAX := 2500

  datatype NetAddr = NetAddr(ip: seq<nat>)

  datatype Service = Service(net: NetAddr, port: nat) {
    function Key(): seq<nat> { net.ip + [port / 0x100, port % 0x100] }
  }

  datatype Address = Address(service: Service, nServices: bv64, nTime: nat)

  /** What is kept per id; the last three fields are bookkeeping and never leave memory. */
  datatype Info = Info(service: Service, nServices: bv64, nTime: nat, nLastTry: int,
                       source: NetAddr, nLastSuccess: int, nAttempts: int,
                       nRefCount: int, fInTried: bool, nRandomPos: int)

  /** The parts of the surrounding program the manager calls: the 64-bit hash, the
      address-range classification and the routability test. Any total functions will do. */
  datatype Env = Env(hash64: seq<nat> -> nat, group: NetAddr -> seq<nat>, routable: NetAddr -> bool)

  datatype State = State(env: Env, key: seq<nat>, nIdCount: nat, mapInfo: map<nat, Info>,
                         mapAddr: map<NetAddr, nat>, vRandom: seq<nat>, nTried: int,
                         vvTried: seq<seq<nat>>, nNew: int, vvNew: seq<set<nat>>)

  function Prefixed(v: seq<nat>): seq<nat> { [|v|] + v }

  function GetTriedBucket(env: Env, key: seq<nat>, service: Service): (b: nat)
    ensures b < TRIED_BUCKET_COUNT
  {
    var hash1 := env.hash64(Prefixed(key) + Prefixed(service.Key()));
    var hash2 := env.hash64(Prefixed(key) + Prefixed(env.group(service.net)) + [hash1 % TRIED_BUCKETS_PER_GROUP]);
    hash2 % TRIED_BUCKET_COUNT
  }

  function GetNewBucket(env: Env, key: seq<nat>, net: NetAddr, src: NetAddr): (b: nat)
    ensures b < NEW_BUCKET_COUNT
  {
    var sourceGroup := Prefixed(env.group(src));
    var hash1 := env.hash64(Prefixed(key) + Prefixed(env.group(net)) + sourceGroup);
    var hash2 := env.hash64(Prefixed(key) + sourceGroup + [hash1 % NEW_BUCKETS_PER_SOURCE_GROUP]);
    hash2 % NEW_BUCKET_COUNT
  }

  predicate IsTerrible(info: Info, now: int) {
    if info.nLastTry != 0 && info.nLastTry >= now - 60 then false
    else if info.nTime > now + 10 * 60 then true
    else if info.nTime == 0 || now - info.nTime > HORIZON_DAYS * 86400 then true
    else if info.nLastSuccess == 0 && info.nAttempts >= RETRIES then true
    else now - info.nLastSuccess > MIN_FAIL_DAYS * 86400 && info.nAttempts >= MAX_FAILURES
  }

  // ---------------------------------------------------------------- consistency conditions

  ghost predicate AddrOk(info: map<nat, Info>, addr: map<NetAddr, nat>) {
    && (forall a :: a in addr ==> addr[a] in info && info[addr[a]].service.net == a)
    && (forall n :: n in info ==> info[n].service.net in addr && addr[info[n].service.net] == n)
  }

  ghost predicate RandomOk(info: map<nat, Info>, vRandom: seq<nat>) {
    && (forall n :: n in info ==> 0 <= info[n].nRandomPos < |vRandom| && vRandom[info[n].nRandomPos] == n)
    && (forall i :: 0 <= i < |vRandom| ==> vRandom[i] in info && info[vRandom[i]].nRandomPos == i)
  }

  ghost predicate Distinct(s: seq<nat>) {
    forall i, j :: 0 <= i < j < |s| ==> s[i] != s[j]
  }

  /** Each tried bucket holds, once, exactly the tried entries that hash to it. */
  ghost predicate TriedOk(env: Env, key: seq<nat>, info: map<nat, Info>, vvTried: seq<seq<nat>>) {
    && |vvTried| == TRIED_BUCKET_COUNT
    && (forall b :: 0 <= b < |vvTried| ==> Distinct(vvTried[b]) && |vvTried[b]| <= TRIED_BUCKET_SIZE)
    && (forall b, n :: 0 <= b < |vvTried| ==>
          (n in vvTried[b] <==> n in info && info[n].fInTried && GetTriedBucket(env, key, info[n].service) == b))
  }

  ghost function BucketsOf(vvNew: seq<set<nat>>, n: nat): (bs: set<nat>) {
    set b: nat | b < |vvNew| && n in vvNew[b]
  }

  /** Only new entries are in new buckets, and reference counts are the number of buckets.
      pending is an entry whose count is already one ahead of the buckets (at most one at a time). */
  ghost predicate NewOk(info: map<nat, Info>, vvNew: seq<set<nat>>, pending: set<nat>) {
    && |vvNew| == NEW_BUCKET_COUNT
    && (forall b, n :: 0 <= b < |vvNew| && n in vvNew[b] ==> n in info && !info[n].fInTried)
    && (forall n :: n in info ==> CountOk(info[n], vvNew, n, if n in pending then 1 else 0))
  }

  ghost predicate CountOk(info: Info, vvNew: seq<set<nat>>, n: nat, ahead: int) {
    && info.nRefCount == |BucketsOf(vvNew, n)| + ahead
    && if info.fInTried then info.nRefCount == 0 else 1 <= info.nRefCount <= NEW_BUCKETS_PER_ADDRESS
  }

  ghost function TriedIds(info: map<nat, Info>): set<nat> { set n | n in info && info[n].fInTried }
  ghost function NewIds(info: map<nat, Info>): set<nat> { set n | n in info && !info[n].fInTried }

  ghost predicate TotalsOk(info: map<nat, Info>, nNew: int, nTried: int) {
    nNew == |NewIds(info)| && nTried == |TriedIds(info)|
  }

  ghost predicate IdsOk(info: map<nat, Info>, nIdCount: nat) {
    forall n :: n in info ==> n < nIdCount
  }

  ghost predicate CoreWith(s: State, pending: set<nat>) {
    && IdsOk(s.mapInfo, s.nIdCount)
    && AddrOk(s.mapInfo, s.mapAddr)
    && RandomOk(s.mapInfo, s.vRandom)
    && TriedOk(s.env, s.key, s.mapInfo, s.vvTried)
    && NewOk(s.mapInfo, s.vvNew, pending)
    && TotalsOk(s.mapInfo, s.nNew, s.nTried)
  }

  /** Everything Check_ demands except what it demands of the recorded times. */
  ghost predicate Core(s: State) { CoreWith(s, {}) }

  /** What Check_ demands of the recorded times of one entry. */
  ghost predicate TimesOk(inTried: bool, nLastTry: int, nLastSuccess: int) {
    0 <= nLastTry && 0 <= nLastSuccess && (inTried ==> nLastSuccess != 0)
  }

  // ---------------------------------------------------------------- the abstract view

  datatype Entry = Entry(service: Service, nServices: bv64, nTime: nat, nLastTry: int, source: NetAddr,
                         nLastSuccess: int, nAttempts: int, inTried: bool, newBuckets: set<nat>)

  type View = map<NetAddr, Entry>

  ghost function EntryOf(i: Info, buckets: set<nat>): Entry {
    Entry(i.service, i.nServices, i.nTime, i.nLastTry, i.source, i.nLastSuccess, i.nAttempts, i.fInTried, buckets)
  }

  /** One entry per known address: ids and the random order are forgotten. */
  ghost function ViewFrom(info: map<nat, Info>, addr: map<NetAddr, nat>, vvNew: seq<set<nat>>): (v: View)
    requires AddrOk(info, addr)
  {
    map a | a in addr :: EntryOf(info[addr[a]], BucketsOf(vvNew, addr[a]))
  }

  ghost function ViewOf(s: State): (v: View)
    requires AddrOk(s.mapInfo, s.mapAddr)
  {
    ViewFrom(s.mapInfo, s.mapAddr, s.vvNew)
  }

  ghost predicate ViewTimesOk(v: View) {
    forall a :: a in v ==> TimesOk(v[a].inTried, v[a].nLastTry, v[a].nLastSuccess)
  }

  /** The addresses listed in new bucket b. */
  ghost function Listed(v: View, b: nat): set<NetAddr> { set a | a in v && b in v[a].newBuckets }

  /** No new bucket lists more than it may. The check does not look at this. */
  ghost predicate ViewSized(v: View) {
    forall b: nat :: b < NEW_BUCKET_COUNT ==> |Listed(v, b)| <= NEW_BUCKET_SIZE
  }

  /** Address a loses its place in new bucket b, and is forgotten if that was its last place. */
  ghost function Dropped(v: View, a: NetAddr, b: nat): View
    requires a in v
  {
    if v[a].newBuckets <= {b} then v - {a}
    else v[a := v[a].(newBuckets := v[a].newBuckets - {b})]
  }

  // ---------------------------------------------------------------- value lemmas

  lemma BucketsUpdate(vv: seq<set<nat>>, b: nat, S: set<nat>, n: nat)
    requires b < |vv|
    ensures BucketsOf(vv[b := S], n) == if n in S then BucketsOf(vv, n) + {b} else BucketsOf(vv, n) - {b}
  {
  }

  /** Rewriting fields that no index depends on keeps every condition. */
  ghost predicate SameIndexing(info: map<nat, Info>, info': map<nat, Info>) {
    && info.Keys == info'.Keys
    && forall n :: n in info ==>
         && info'[n].service == info[n].service
         && info'[n].nRefCount == info[n].nRefCount
         && info'[n].fInTried == info[n].fInTried
  }

  lemma SameIndexingTried(env: Env, key: seq<nat>, info: map<nat, Info>, info': map<nat, Info>, vvTried: seq<seq<nat>>)
    requires SameIndexing(info, info') && TriedOk(env, key, info, vvTried)
    ensures TriedOk(env, key, info', vvTried)
  {
  }

  lemma SameIndexingNew(info: map<nat, Info>, info': map<nat, Info>, vvNew: seq<set<nat>>, pending: set<nat>)
    requires SameIndexing(info, info') && NewOk(info, vvNew, pending)
    ensures NewOk(info', vvNew, pending)
  {
    forall n | n in info' ensures CountOk(info'[n], vvNew, n, if n in pending then 1 else 0) {
      assert CountOk(info[n], vvNew, n, if n in pending then 1 else 0);
    }
  }

  lemma SameIndexingTotals(info: map<nat, Info>, info': map<nat, Info>, nNew: int, nTried: int)
    requires SameIndexing(info, info') && TotalsOk(info, nNew, nTried)
    ensures TotalsOk(info', nNew, nTried)
  {
    assert TriedIds(info') == TriedIds(info);
    assert NewIds(info') == NewIds(info);
  }

  /** The two totals together count every entry, and so does the random order. */
  lemma RandomCount(info: map<nat, Info>, vRandom: seq<nat>)
    requires RandomOk(info, vRandom)
    ensures |vRandom| == |info| == |NewIds(info)| + |TriedIds(info)|
  {
    DistinctCount(vRandom, info.Keys);
    assert info.Keys == NewIds(info) + TriedIds(info);
  }

  /** A duplicate-free listing is as long as the set it lists. */
  lemma {:induction false} DistinctCount(s: seq<nat>, elements: set<nat>)
    requires Distinct(s)
    requires forall e :: e in elements <==> e in s
    ensures |s| == |elements|
  {
    if s == [] {
      assert elements == {};
    } else {
      var last := s[|s| - 1];
      var rest := s[..|s| - 1];
      assert s == rest + [last];
      assert last in elements;
      DistinctCount(rest, elements - {last});
    }
  }

  /** In a consistent state the ids listed in a new bucket and the addresses listed there are equally many. */
  lemma ListedCount(s: State, pending: set<nat>, b: nat)
    requires CoreWith(s, pending) && b < |s.vvNew|
    ensures |Listed(ViewOf(s), b)| == |s.vvNew[b]|
  {
    var v := ViewOf(s);
    forall n | n in s.vvNew[b] ensures s.mapInfo[n].service.net in Listed(v, b) {
      assert s.mapAddr[s.mapInfo[n].service.net] == n;
    }
    NamesCount(s.mapInfo, s.vvNew[b], Listed(v, b));
  }

  lemma {:induction false} NamesCount(info: map<nat, Info>, ids: set<nat>, names: set<NetAddr>)
    requires forall n :: n in ids ==> n in info && info[n].service.net in names
    requires forall m, n :: m in ids && n in ids && m != n ==> info[m].service.net != info[n].service.net
    requires forall a :: a in names ==> exists n :: n in ids && info[n].service.net == a
    ensures |ids| == |names|
  {
    if |ids| == 0 {
      assert names == {};
    } else {
      var n :| n in ids;
      forall a | a in names - {info[n].service.net}
        ensures exists m :: m in ids - {n} && info[m].service.net == a
      {
        var m :| m in ids && info[m].service.net == a;
        assert m in ids - {n};
      }
      NamesCount(info, ids - {n}, names - {info[n].service.net});
    }
  }
}
