/** Loading a file that was written with another number of new buckets: every new entry is put into the one
    bucket of its source. */
module AddrManRebucket {
  import opened AddrManState
  import opened AddrManSteps
  import opened AddrManDisk
  import AddrManRoundTrip

  /** The bucket of a record under its source. */
  ghost function Home(env: Env, key: seq<nat>, service: Service, source: NetAddr): nat {
    GetNewBucket(env, key, service.net, source)
  }

  /** Each new bucket holds exactly the new entries at home there, however many these are. */
  ghost predicate HomeOk(env: Env, key: seq<nat>, info: map<nat, Info>, vvNew: seq<set<nat>>) {
    && |vvNew| == NEW_BUCKET_COUNT
    && (forall b, n :: 0 <= b < |vvNew| ==>
          (n in vvNew[b] <==> n in info && !info[n].fInTried && Home(env, key, info[n].service, info[n].source) == b))
    && (forall n :: n in info ==> info[n].nRefCount == if info[n].fInTried then 0 else 1)
  }

  lemma HomeBuckets(env: Env, key: seq<nat>, info: map<nat, Info>, vvNew: seq<set<nat>>, n: nat)
    requires HomeOk(env, key, info, vvNew) && n in info
    ensures BucketsOf(vvNew, n) == if info[n].fInTried then {} else {Home(env, key, info[n].service, info[n].source)}
  {
  }

  lemma HomeNew(env: Env, key: seq<nat>, info: map<nat, Info>, vvNew: seq<set<nat>>)
    requires HomeOk(env, key, info, vvNew)
    ensures NewOk(info, vvNew, {})
  {
    forall n | n in info ensures CountOk(info[n], vvNew, n, 0) {
      HomeBuckets(env, key, info, vvNew, n);
    }
  }

  lemma HomeNewStep(env: Env, key: seq<nat>, info: map<nat, Info>, vvNew: seq<set<nat>>, n: nat, i: Info)
    requires HomeOk(env, key, info, vvNew) && n !in info && !i.fInTried && i.nRefCount == 1
    ensures var b := Home(env, key, i.service, i.source);
            HomeOk(env, key, info[n := i], vvNew[b := vvNew[b] + {n}])
  {
  }

  lemma HomeTriedStep(env: Env, key: seq<nat>, info: map<nat, Info>, vvNew: seq<set<nat>>, n: nat, i: Info)
    requires HomeOk(env, key, info, vvNew) && n !in info && i.fInTried && i.nRefCount == 0
    ensures HomeOk(env, key, info[n := i], vvNew)
  {
  }

  lemma TriedTotals(info: map<nat, Info>, n: nat, i: Info, nNew: int, nTried: int)
    requires TotalsOk(info, nNew, nTried) && n !in info && i.fInTried
    ensures TotalsOk(info[n := i], nNew, nTried + 1)
  {
    TriedIdsNext(info, n, i);
  }

  lemma TriedIdsNext(info: map<nat, Info>, n: nat, i: Info)
    requires n !in info && i.fInTried
    ensures TriedIds(info[n := i]) == TriedIds(info) + {n} && n !in TriedIds(info) && NewIds(info[n := i]) == NewIds(info)
  {
    var info' := info[n := i];
    forall k ensures k in TriedIds(info') <==> k in TriedIds(info) + {n} {
      assert k in info' <==> k in info || k == n;
    }
    forall k ensures k in NewIds(info') <==> k in NewIds(info) {
      assert k in info' <==> k in info || k == n;
    }
  }

  // ---------------------------------------------------------------- the addresses of the records

  ghost function NetsOf(rs: seq<Saved>): set<NetAddr> {
    set i | 0 <= i < |rs| :: rs[i].service.net
  }

  /** The records are of different addresses. */
  ghost predicate Apart(all: seq<Saved>) {
    forall i, j :: 0 <= i < j < |all| ==> all[i].service.net != all[j].service.net
  }

  lemma NetsSnoc(rs: seq<Saved>, r: Saved)
    ensures NetsOf(rs + [r]) == NetsOf(rs) + {r.service.net}
    ensures Apart(rs + [r]) ==> Apart(rs) && r.service.net !in NetsOf(rs)
  {
    var all := rs + [r];
    assert all[|rs|] == r;
    forall i | 0 <= i < |rs| ensures all[i] == rs[i] && rs[i].service.net in NetsOf(all) {
      assert all[i].service.net in NetsOf(all);
    }
    assert all[|rs|].service.net in NetsOf(all);
  }

  // ---------------------------------------------------------------- the tables after some records

  /** The entries are those of the records, under the numbers of the records; the first news of them are new. */
  ghost predicate IdsAre(info: map<nat, Info>, list: seq<Saved>, news: nat) {
    && (forall n: nat :: n in info <==> n < |list|)
    && (forall n :: 0 <= n < |list| ==>
          info[n].service == list[n].service && info[n].source == list[n].source && (info[n].fInTried <==> n >= news))
  }

  /** All tables but the map of addresses. */
  ghost predicate Tables(s: State, list: seq<Saved>, news: nat) {
    && IdsAre(s.mapInfo, list, news) && RandomOk(s.mapInfo, s.vRandom)
    && TriedOk(s.env, s.key, s.mapInfo, s.vvTried) && HomeOk(s.env, s.key, s.mapInfo, s.vvNew)
    && TotalsOk(s.mapInfo, news, |list| - news)
  }

  /** The map of addresses is right if no address comes twice. */
  ghost predicate Addrs(info: map<nat, Info>, addr: map<NetAddr, nat>, list: seq<Saved>) {
    addr.Keys <= NetsOf(list) && (Apart(list) ==> AddrOk(info, addr))
  }

  lemma AddrsNext(info: map<nat, Info>, addr: map<NetAddr, nat>, list: seq<Saved>, r: Saved, n: nat, i: Info)
    requires Addrs(info, addr, list) && n !in info && i.service == r.service
    ensures Addrs(info[n := i], addr[r.service.net := n], list + [r])
  {
    NetsSnoc(list, r);
    if Apart(list + [r]) {
      CreatedAddr(info, addr, n, i);
    }
  }

  lemma IdsNext(info: map<nat, Info>, list: seq<Saved>, news: nat, news': nat, r: Saved, i: Info)
    requires IdsAre(info, list, news) && i.service == r.service && i.source == r.source
    requires if i.fInTried then news' == news <= |list| else news == |list| && news' == |list| + 1
    ensures IdsAre(info[|list| := i], list + [r], news')
  {
  }

  lemma NewStep(s: State, rs: seq<Saved>, r: Saved)
    requires Tables(s, rs, |rs|)
    ensures Tables(ReadNew(s, |rs|, r, true), rs + [r], |rs + [r]|)
  {
    var n, i := |rs|, InfoOf(r).(nRandomPos := |s.vRandom|, nRefCount := 1);
    CreatedRandom(s.mapInfo, s.vRandom, n, i);
    CreatedTried(s.env, s.key, s.mapInfo, n, i, s.vvTried);
    CreatedTotals(s.mapInfo, n, i, |rs|, 0);
    HomeNewStep(s.env, s.key, s.mapInfo, s.vvNew, n, i);
    IdsNext(s.mapInfo, rs, |rs|, |rs| + 1, r, i);
  }

  lemma TriedStep(s: State, list: seq<Saved>, news: nat, r: Saved)
    requires Tables(s, list, news) && news <= |list| == s.nIdCount && HasRoom(s, r)
    ensures Tables(ReadTried(s, r), list + [r], news)
  {
    var n, i := s.nIdCount, InfoOf(r).(nRandomPos := |s.vRandom|, fInTried := true);
    CreatedRandom(s.mapInfo, s.vRandom, n, i);
    AddrManRoundTrip.ReadTriedTable(s.env, s.key, s.mapInfo, n, i, s.vvTried);
    TriedTotals(s.mapInfo, n, i, news, |list| - news);
    HomeTriedStep(s.env, s.key, s.mapInfo, s.vvNew, n, i);
    IdsNext(s.mapInfo, list, news, news, r, i);
  }

  // ---------------------------------------------------------------- reading the new records

  /** What reading entries never changes. */
  ghost predicate SameFile(s0: State, s: State) {
    s.env == s0.env && s.key == s0.key && s.nNew == s0.nNew
  }

  /** The new records rs have been read. */
  ghost predicate NewsRead(s0: State, s: State, rs: seq<Saved>) {
    && Tables(s, rs, |rs|) && Addrs(s.mapInfo, s.mapAddr, rs)
    && SameFile(s0, s) && s.nTried == s0.nTried && s.vvTried == s0.vvTried
  }

  lemma NewsReadNext(s0: State, s: State, rs: seq<Saved>, r: Saved)
    requires NewsRead(s0, s, rs)
    ensures NewsRead(s0, ReadNew(s, |rs|, r, true), rs + [r])
  {
    NewStep(s, rs, r);
    AddrsNext(s.mapInfo, s.mapAddr, rs, r, |rs|, InfoOf(r).(nRandomPos := |s.vRandom|, nRefCount := 1));
  }

  lemma LastAlone(rs: seq<Saved>)
    requires rs != []
    ensures rs == rs[..|rs| - 1] + [rs[|rs| - 1]]
  {
  }

  /** What reading each new record keeps is kept by reading all of them. */
  lemma {:induction false} NewsThroughout(s0: State, rs: seq<Saved>, inv: (State, seq<Saved>) -> bool)
    requires |s0.vvNew| == NEW_BUCKET_COUNT && inv(s0, [])
    requires forall s: State, p, r: Saved :: |s.vvNew| == NEW_BUCKET_COUNT && inv(s, p) ==> inv(ReadNew(s, |p|, r, true), p + [r])
    ensures inv(ReadNews(s0, rs, true), rs)
    decreases |rs|
  {
    if rs != [] {
      var rest, r := rs[..|rs| - 1], rs[|rs| - 1];
      NewsThroughout(s0, rest, inv);
      LastAlone(rs);
      assert inv(ReadNew(ReadNews(s0, rest, true), |rest|, r, true), rest + [r]);
    }
  }

  lemma ReadAllNews(s0: State, rs: seq<Saved>)
    requires NewsRead(s0, s0, [])
    ensures NewsRead(s0, ReadNews(s0, rs, true), rs)
  {
    var inv := (s: State, p: seq<Saved>) => NewsRead(s0, s, p);
    forall s: State, p, r: Saved | |s.vvNew| == NEW_BUCKET_COUNT && inv(s, p) ensures inv(ReadNew(s, |p|, r, true), p + [r]) {
      NewsReadNext(s0, s, p, r);
    }
    NewsThroughout(s0, rs, inv);
  }

  // ---------------------------------------------------------------- reading the tried records

  /** How many records belong in a tried bucket. */
  ghost function Count(env: Env, key: seq<nat>, ts: seq<Saved>, b: nat): nat {
    if ts == [] then 0
    else Count(env, key, ts[..|ts| - 1], b) + if GetTriedBucket(env, key, ts[|ts| - 1].service) == b then 1 else 0
  }

  /** The tried records that find room: the first ones of each bucket. */
  ghost function Kept(env: Env, key: seq<nat>, ts: seq<Saved>): seq<Saved> {
    if ts == [] then []
    else
      var rest, r := ts[..|ts| - 1], ts[|ts| - 1];
      Kept(env, key, rest) +
      if Count(env, key, rest, GetTriedBucket(env, key, r.service)) < TRIED_BUCKET_SIZE then [r] else []
  }

  lemma KeptSnoc(env: Env, key: seq<nat>, ts: seq<Saved>, r: Saved)
    ensures var room := Count(env, key, ts, GetTriedBucket(env, key, r.service)) < TRIED_BUCKET_SIZE;
            Kept(env, key, ts + [r]) == if room then Kept(env, key, ts) + [r] else Kept(env, key, ts)
  {
    assert (ts + [r])[..|ts|] == ts;
    assert Kept(env, key, ts) + [] == Kept(env, key, ts);
  }

  lemma CountSnoc(env: Env, key: seq<nat>, ts: seq<Saved>, r: Saved, b: nat)
    ensures Count(env, key, ts + [r], b) == Count(env, key, ts, b) + if GetTriedBucket(env, key, r.service) == b then 1 else 0
  {
    assert (ts + [r])[..|ts|] == ts;
  }

  /** A tried bucket has what belongs in it, as far as there is room. */
  ghost predicate Counted(env: Env, key: seq<nat>, vvTried: seq<seq<nat>>, ts: seq<Saved>) {
    && |vvTried| == TRIED_BUCKET_COUNT
    && forall b: nat :: b < TRIED_BUCKET_COUNT ==> Filled(|vvTried[b]|, Count(env, key, ts, b))
  }

  predicate Filled(size: nat, count: nat) {
    size == if count < TRIED_BUCKET_SIZE then count else TRIED_BUCKET_SIZE
  }

  lemma CountedNext(s: State, ts: seq<Saved>, r: Saved)
    requires Counted(s.env, s.key, s.vvTried, ts)
    ensures Counted(s.env, s.key, ReadTried(s, r).vvTried, ts + [r])
    ensures HasRoom(s, r) <==> Count(s.env, s.key, ts, GetTriedBucket(s.env, s.key, r.service)) < TRIED_BUCKET_SIZE
  {
    var vv, vv' := s.vvTried, ReadTried(s, r).vvTried;
    assert Filled(|vv[GetTriedBucket(s.env, s.key, r.service)]|, Count(s.env, s.key, ts, GetTriedBucket(s.env, s.key, r.service)));
    forall b: nat | b < TRIED_BUCKET_COUNT ensures Filled(|vv'[b]|, Count(s.env, s.key, ts + [r], b)) {
      CountSnoc(s.env, s.key, ts, r, b);
      assert Filled(|vv[b]|, Count(s.env, s.key, ts, b));
    }
  }

  /** After the new records rs the records ts have been read; list are the records that have become entries. */
  ghost predicate ListRead(s0: State, s: State, list: seq<Saved>, news: nat, lost: int) {
    && news <= |list| == s.nIdCount && Tables(s, list, news) && Addrs(s.mapInfo, s.mapAddr, list)
    && SameFile(s0, s) && s.nTried == s0.nTried - lost
  }

  lemma FoundRoom(s0: State, s: State, list: seq<Saved>, list': seq<Saved>, news: nat, lost: int, r: Saved)
    requires ListRead(s0, s, list, news, lost) && HasRoom(s, r) && list' == list + [r]
    ensures ListRead(s0, ReadTried(s, r), list', news, lost)
  {
    TriedStep(s, list, news, r);
    AddrsNext(s.mapInfo, s.mapAddr, list, r, s.nIdCount, InfoOf(r).(nRandomPos := |s.vRandom|, fInTried := true));
  }

  lemma NoRoom(s0: State, s: State, list: seq<Saved>, news: nat, lost: int, r: Saved)
    requires ListRead(s0, s, list, news, lost) && !HasRoom(s, r)
    ensures ListRead(s0, ReadTried(s, r), list, news, lost + 1)
  {
  }

  lemma Joined(rs: seq<Saved>, kept: seq<Saved>, r: Saved)
    ensures rs + (kept + [r]) == rs + kept + [r]
  {
  }

  ghost predicate TriedsRead(s0: State, rs: seq<Saved>, s: State, ts: seq<Saved>) {
    && Counted(s0.env, s0.key, s.vvTried, ts)
    && ListRead(s0, s, rs + Kept(s0.env, s0.key, ts), |rs|, |ts| - |Kept(s0.env, s0.key, ts)|)
  }

  lemma TriedsReadNext(s0: State, rs: seq<Saved>, s: State, ts: seq<Saved>, r: Saved)
    requires TriedsRead(s0, rs, s, ts)
    ensures TriedsRead(s0, rs, ReadTried(s, r), ts + [r])
  {
    CountedNext(s, ts, r);
    KeptSnoc(s0.env, s0.key, ts, r);
    var kept := Kept(s0.env, s0.key, ts);
    if HasRoom(s, r) {
      Joined(rs, kept, r);
      FoundRoom(s0, s, rs + kept, rs + (kept + [r]), |rs|, |ts| - |kept|, r);
    } else {
      NoRoom(s0, s, rs + kept, |rs|, |ts| - |kept|, r);
    }
  }

  /** What reading each tried record keeps is kept by reading all of them. */
  lemma {:induction false} TriedsThroughout(s0: State, ts: seq<Saved>, inv: (State, seq<Saved>) -> bool)
    requires |s0.vvTried| == TRIED_BUCKET_COUNT && |s0.vvNew| == NEW_BUCKET_COUNT && inv(s0, [])
    requires forall s: State, p, r: Saved :: |s.vvTried| == TRIED_BUCKET_COUNT && inv(s, p) ==> inv(ReadTried(s, r), p + [r])
    ensures inv(ReadTrieds(s0, ts), ts)
    decreases |ts|
  {
    if ts != [] {
      var rest, r := ts[..|ts| - 1], ts[|ts| - 1];
      TriedsThroughout(s0, rest, inv);
      LastAlone(ts);
      assert inv(ReadTried(ReadTrieds(s0, rest), r), rest + [r]);
    }
  }

  lemma ReadAllTrieds(s0: State, rs: seq<Saved>, ts: seq<Saved>)
    requires |s0.vvTried| == TRIED_BUCKET_COUNT && |s0.vvNew| == NEW_BUCKET_COUNT && TriedsRead(s0, rs, s0, [])
    ensures TriedsRead(s0, rs, ReadTrieds(s0, ts), ts)
  {
    var inv := (s: State, p: seq<Saved>) => TriedsRead(s0, rs, s, p);
    forall s: State, p, r: Saved | |s.vvTried| == TRIED_BUCKET_COUNT && inv(s, p) ensures inv(ReadTried(s, r), p + [r]) {
      TriedsReadNext(s0, rs, s, p, r);
    }
    TriedsThroughout(s0, ts, inv);
  }

  // ---------------------------------------------------------------- all records

  /** The records of a file that become entries. */
  ghost function Entries(env: Env, d: Disk): seq<Saved> {
    d.newInfos + Kept(env, d.key, d.triedInfos)
  }

  lemma ClearedRead(env: Env, d: Disk)
    ensures NewsRead(Cleared(env, d), Cleared(env, d), [])
  {
  }

  lemma NewsDone(env: Env, d: Disk)
    requires Readable(d) && d.nUBuckets != NEW_BUCKET_COUNT
    ensures var s := AfterNew(env, d);
            TriedsRead(s, d.newInfos, s, []) && s.env == env && s.key == d.key && s.nNew == d.nNew && s.nTried == d.nTried
  {
    ClearedRead(env, d);
    ReadAllNews(Cleared(env, d), d.newInfos);
    NewsThen(Cleared(env, d), AfterNew(env, d), d.newInfos);
  }

  lemma NewsThen(s0: State, s: State, rs: seq<Saved>)
    requires NewsRead(s0, s.(nIdCount := s0.nIdCount), rs) && s.nIdCount == |rs| && s0.vvTried == EmptyTried()
    ensures TriedsRead(s, rs, s, [])
  {
    assert rs + [] == rs;
  }

  /** The entries are exactly the new records and the tried records that find room. All tables agree, but for an
      address that comes twice and for the sizes of the new buckets. */
  lemma EntriesRead(env: Env, d: Disk)
    requires Readable(d) && d.nUBuckets != NEW_BUCKET_COUNT
    ensures var s, list := AfterTried(env, d), Entries(env, d);
            && Tables(s, list, |d.newInfos|) && Addrs(s.mapInfo, s.mapAddr, list) && s.nIdCount == |list|
            && s.env == env && s.key == d.key && s.nNew == |d.newInfos| && s.nTried == |list| - |d.newInfos|
  {
    NewsDone(env, d);
    ReadAllTrieds(AfterNew(env, d), d.newInfos, d.triedInfos);
  }

  // ---------------------------------------------------------------- the listings

  /** Every index that the file lists is that of an entry. */
  ghost predicate Named(buckets: seq<seq<nat>>, count: nat) {
    forall b, i :: 0 <= b < |buckets| && 0 <= i < |buckets[b]| ==> buckets[b][i] < count
  }

  /** An entry without a place in the random order. */
  ghost predicate Stray(info: map<nat, Info>) {
    exists n :: n in info && info[n].nRandomPos < 0
  }

  /** From s to s', listings have been read: nothing changed, or there are stray entries beside those there were. */
  ghost predicate Skipped(s: State, s': State, named: bool) {
    if named then s' == s
    else
      && s'.vvNew == s.vvNew && Stray(s'.mapInfo)
      && forall n :: n in s.mapInfo ==> n in s'.mapInfo && s'.mapInfo[n] == s.mapInfo[n]
  }

  lemma SkipIndex(s: State, s1: State, b: nat, n: nat, named: bool, count: nat)
    requires (forall k: nat :: k in s.mapInfo <==> k < count) && Skipped(s, s1, named)
    ensures Skipped(s, ReadIndex(s1, b, n, false), named && n < count)
  {
    if !named && n !in s1.mapInfo {
      var k :| k in s1.mapInfo && s1.mapInfo[k].nRandomPos < 0;
      assert ReadIndex(s1, b, n, false).mapInfo[k] == s1.mapInfo[k];
    } else if named && n >= count {
      assert ReadIndex(s1, b, n, false).mapInfo[n] == BlankInfo();
    }
  }

  ghost predicate Below(ns: seq<nat>, count: nat) {
    forall i :: 0 <= i < |ns| ==> ns[i] < count
  }

  lemma {:induction false} SkipBucket(s: State, s1: State, b: nat, ns: seq<nat>, named: bool, count: nat)
    requires (forall k: nat :: k in s.mapInfo <==> k < count) && Skipped(s, s1, named)
    ensures Skipped(s, ReadBucket(s1, b, ns, false), named && Below(ns, count))
    decreases |ns|
  {
    if ns != [] {
      var rest, n := ns[..|ns| - 1], ns[|ns| - 1];
      SkipBucket(s, s1, b, rest, named, count);
      SkipIndex(s, ReadBucket(s1, b, rest, false), b, n, named && Below(rest, count), count);
      assert Below(ns, count) <==> Below(rest, count) && n < count;
    }
  }

  lemma {:induction false} SkipBuckets(s: State, buckets: seq<seq<nat>>, count: nat)
    requires forall k: nat :: k in s.mapInfo <==> k < count
    ensures Skipped(s, ReadBuckets(s, buckets, false), Named(buckets, count))
    decreases |buckets|
  {
    if buckets != [] {
      var b := |buckets| - 1;
      SkipBuckets(s, buckets[..b], count);
      SkipBucket(s, ReadBuckets(s, buckets[..b], false), b, buckets[b], Named(buckets[..b], count), count);
      NamedSnoc(buckets, count);
    }
  }

  lemma NamedSnoc(buckets: seq<seq<nat>>, count: nat)
    requires buckets != []
    ensures var b := |buckets| - 1; Named(buckets, count) <==> Named(buckets[..b], count) && Below(buckets[b], count)
  {
    var b := |buckets| - 1;
    if Named(buckets[..b], count) && Below(buckets[b], count) {
      forall c, i | 0 <= c < |buckets| && 0 <= i < |buckets[c]| ensures buckets[c][i] < count {
        assert c < b ==> buckets[..b][c] == buckets[c];
      }
    }
  }

  // ---------------------------------------------------------------- the result

  /** The new records at home in bucket b. */
  ghost function Residents(env: Env, d: Disk, b: nat): set<nat> {
    set n: nat | n < |d.newInfos| && Home(env, d.key, d.newInfos[n].service, d.newInfos[n].source) == b
  }

  /** New record n is an entry listed once, in the bucket of its source. */
  ghost predicate AtHome(env: Env, d: Disk, s: State, n: nat)
    requires n < |d.newInfos|
  {
    && n in s.mapInfo && s.mapInfo[n].service == d.newInfos[n].service && s.mapInfo[n].nRefCount == 1
    && BucketsOf(s.vvNew, n) == {Home(env, d.key, d.newInfos[n].service, d.newInfos[n].source)}
  }

  lemma AllAtHome(env: Env, d: Disk, s: State, list: seq<Saved>)
    requires HomeOk(env, d.key, s.mapInfo, s.vvNew) && IdsAre(s.mapInfo, list, |d.newInfos|) && d.newInfos <= list
    ensures forall n :: 0 <= n < |d.newInfos| ==> AtHome(env, d, s, n)
  {
    forall n | 0 <= n < |d.newInfos| ensures AtHome(env, d, s, n) {
      assert list[n] == d.newInfos[n];
      HomeBuckets(env, d.key, s.mapInfo, s.vvNew, n);
    }
  }

  lemma BucketResidents(env: Env, d: Disk, s: State, list: seq<Saved>, b: nat)
    requires HomeOk(env, d.key, s.mapInfo, s.vvNew) && IdsAre(s.mapInfo, list, |d.newInfos|) && d.newInfos <= list && b < |s.vvNew|
    ensures s.vvNew[b] == Residents(env, d, b)
  {
    assert forall n :: 0 <= n < |d.newInfos| ==> list[n] == d.newInfos[n];
    forall n | n in s.vvNew[b] ensures n in Residents(env, d, b) {
      assert n in s.mapInfo && n < |d.newInfos|;
    }
    forall n | n in Residents(env, d, b) ensures n in s.vvNew[b] {
      assert n in s.mapInfo;
    }
  }

  /** Tables without an address that comes twice are consistent. */
  lemma ApartCore(s: State, list: seq<Saved>, news: nat)
    requires Tables(s, list, news) && Addrs(s.mapInfo, s.mapAddr, list) && s.nIdCount == |list|
    requires s.nNew == news && s.nTried == |list| - news && Apart(list)
    ensures Core(s)
  {
    HomeNew(s.env, s.key, s.mapInfo, s.vvNew);
  }

  /** An address that comes twice makes the map of addresses wrong. */
  lemma CoreApart(info: map<nat, Info>, addr: map<NetAddr, nat>, list: seq<Saved>)
    requires AddrOk(info, addr) && forall n :: 0 <= n < |list| ==> n in info && info[n].service == list[n].service
    ensures Apart(list)
  {
    forall i, j | 0 <= i < j < |list| ensures list[i].service.net != list[j].service.net {
      assert addr[info[i].service.net] == i && addr[info[j].service.net] == j;
    }
  }

  lemma CoreExactly(env: Env, d: Disk, s: State, s': State)
    requires var list := Entries(env, d);
             && Tables(s, list, |d.newInfos|) && Addrs(s.mapInfo, s.mapAddr, list) && s.nIdCount == |list|
             && s.nNew == |d.newInfos| && s.nTried == |list| - |d.newInfos|
    requires Skipped(s, s', Named(d.buckets, |Entries(env, d)|))
    ensures Core(s') <==> Apart(Entries(env, d)) && Named(d.buckets, |Entries(env, d)|)
  {
    var list := Entries(env, d);
    if Apart(list) && Named(d.buckets, |list|) {
      ApartCore(s, list, |d.newInfos|);
    }
    if Core(s') {
      CoreApart(s'.mapInfo, s'.mapAddr, list);
    }
  }

  /**
   * For every file with another number of buckets: a new entry is listed once, in the bucket of its source. The
   * tables are consistent exactly if no address comes twice among the entries and no listing names an unknown
   * one; nothing bounds the buckets, which are then within their size exactly if none is the home of too many.
   */
  lemma Rebucketed(env: Env, d: Disk)
    requires Readable(d) && d.nUBuckets != NEW_BUCKET_COUNT
    ensures var s := Loaded(env, d);
            && (forall n :: 0 <= n < |d.newInfos| ==> AtHome(env, d, s, n))
            && (Core(s) <==> Apart(Entries(env, d)) && Named(d.buckets, |Entries(env, d)|))
            && (Core(s) ==> (ViewSized(ViewOf(s)) <==>
                             forall b: nat :: b < NEW_BUCKET_COUNT ==> |Residents(env, d, b)| <= NEW_BUCKET_SIZE))
  {
    var s, s', list := AfterTried(env, d), Loaded(env, d), Entries(env, d);
    EntriesRead(env, d);
    SkipBuckets(s, d.buckets, |list|);
    AllAtHome(env, d, s, list);
    StillAtHome(env, d, s, s');
    CoreExactly(env, d, s, s');
    if Core(s') {
      SizedExactly(env, d, s', list);
    }
  }

  lemma StillAtHome(env: Env, d: Disk, s: State, s': State)
    requires Skipped(s, s', Named(d.buckets, |Entries(env, d)|)) && forall n :: 0 <= n < |d.newInfos| ==> AtHome(env, d, s, n)
    ensures forall n :: 0 <= n < |d.newInfos| ==> AtHome(env, d, s', n)
  {
    forall n | 0 <= n < |d.newInfos| ensures AtHome(env, d, s', n) {
      assert AtHome(env, d, s, n);
    }
  }

  lemma SizedExactly(env: Env, d: Disk, s: State, list: seq<Saved>)
    requires Core(s) && HomeOk(env, d.key, s.mapInfo, s.vvNew) && IdsAre(s.mapInfo, list, |d.newInfos|) && d.newInfos <= list
    ensures ViewSized(ViewOf(s)) <==> forall b: nat :: b < NEW_BUCKET_COUNT ==> |Residents(env, d, b)| <= NEW_BUCKET_SIZE
  {
    forall b: nat | b < NEW_BUCKET_COUNT ensures |Listed(ViewOf(s), b)| == |Residents(env, d, b)| {
      BucketResidents(env, d, s, list, b);
      ListedCount(s, {}, b);
    }
  }

  // ---------------------------------------------------------------- an overfull bucket

  /** The new records whose source is of one group. */
  ghost function FromGroup(env: Env, d: Disk, source: seq<nat>): set<nat> {
    set n: nat | n < |d.newInfos| && env.group(d.newInfos[n].source) == source
  }

  /** The new records of one group whose source is of one group. */
  ghost function OfGroup(env: Env, d: Disk, group: seq<nat>, source: seq<nat>): set<nat> {
    set n: nat | n in FromGroup(env, d, source) && env.group(d.newInfos[n].service.net) == group
  }

  /** A bucket that is the home of too many is overfull. */
  lemma ManyResidents(env: Env, d: Disk, b: nat, ids: set<nat>)
    requires Readable(d) && d.nUBuckets != NEW_BUCKET_COUNT && Apart(Entries(env, d)) && Named(d.buckets, |Entries(env, d)|)
    requires b < NEW_BUCKET_COUNT && |ids| > NEW_BUCKET_SIZE && ids <= Residents(env, d, b)
    ensures Core(Loaded(env, d)) && !ViewSized(ViewOf(Loaded(env, d)))
  {
    Rebucketed(env, d);
    Fewer(ids, Residents(env, d, b));
  }

  lemma Fewer(a: set<nat>, b: set<nat>)
    requires a <= b
    ensures |a| <= |b|
  {
    assert b == a + (b - a);
  }

  /** For every hash and key: more addresses of one group from one source group than a bucket takes overfill one. */
  lemma OverfullGroup(env: Env, d: Disk, group: seq<nat>, source: seq<nat>)
    requires Readable(d) && d.nUBuckets != NEW_BUCKET_COUNT && Apart(Entries(env, d)) && Named(d.buckets, |Entries(env, d)|)
    requires |OfGroup(env, d, group, source)| > 64
    ensures Core(Loaded(env, d)) && !ViewSized(ViewOf(Loaded(env, d)))
  {
    var ids := OfGroup(env, d, group, source);
    Fewer({}, ids);
    var m :| m in ids;
    ManyResidents(env, d, Home(env, d.key, d.newInfos[m].service, d.newInfos[m].source), ids);
  }

  /** The bucket that source group's addresses go to, the first hash being r. */
  ghost function HomeAt(env: Env, key: seq<nat>, source: seq<nat>, r: nat): (b: nat)
    ensures b < NEW_BUCKET_COUNT
  {
    env.hash64(Prefixed(key) + Prefixed(source) + [r]) % 256
  }

  ghost function FirstHash(env: Env, key: seq<nat>, net: NetAddr, source: seq<nat>): (r: nat)
    ensures r < 32
  {
    env.hash64(Prefixed(key) + Prefixed(env.group(net)) + Prefixed(source)) % 32
  }

  ghost function HashedTo(env: Env, d: Disk, source: seq<nat>, r: nat): set<nat> {
    set n: nat | n in FromGroup(env, d, source) && FirstHash(env, d.key, d.newInfos[n].service.net, source) == r
  }

  ghost function HashedBelow(env: Env, d: Disk, source: seq<nat>, k: nat): set<nat> {
    set n: nat | n in FromGroup(env, d, source) && FirstHash(env, d.key, d.newInfos[n].service.net, source) < k
  }

  /** Too many records for k values of the first hash: one value has more than a bucket takes. */
  lemma {:induction false} SomeHashed(env: Env, d: Disk, source: seq<nat>, k: nat) returns (r: nat)
    requires |HashedBelow(env, d, source, k)| > k * NEW_BUCKET_SIZE
    ensures |HashedTo(env, d, source, r)| > NEW_BUCKET_SIZE
    decreases k
  {
    r := 0;
    if k > 0 {
      r := k - 1;
      if |HashedTo(env, d, source, r)| <= NEW_BUCKET_SIZE {
        assert HashedBelow(env, d, source, k) == HashedBelow(env, d, source, r) + HashedTo(env, d, source, r);
        r := SomeHashed(env, d, source, r);
      }
    }
  }

  /** For every hash, key and grouping: a source group reaches so few buckets that enough of its addresses overfill one. */
  lemma OverfullSource(env: Env, d: Disk, source: seq<nat>)
    requires Readable(d) && d.nUBuckets != NEW_BUCKET_COUNT && Apart(Entries(env, d)) && Named(d.buckets, |Entries(env, d)|)
    requires |FromGroup(env, d, source)| > 32 * 64
    ensures Core(Loaded(env, d)) && !ViewSized(ViewOf(Loaded(env, d)))
  {
    assert HashedBelow(env, d, source, 32) == FromGroup(env, d, source);
    var r := SomeHashed(env, d, source, 32);
    forall n | n in HashedTo(env, d, source, r) ensures n in Residents(env, d, HomeAt(env, d.key, source, r)) {
    }
    ManyResidents(env, d, HomeAt(env, d.key, source, r), HashedTo(env, d, source, r));
  }

  function NetOf(i: nat): NetAddr {
    NetAddr([0, 0, 0, 0, 0, 0, 0, 0, 0, 0, 0, 0, 0, 0, i / 0x100, i % 0x100])
  }

  /** Records of different addresses and one source. */
  function Crowd(n: nat): (rs: seq<Saved>)
    ensures |rs| == n && forall i: nat :: i < n ==> rs[i].service.net == NetOf(i) && rs[i].source == NetOf(0)
  {
    seq(n, (i: nat) => Saved(Service(NetOf(i), 0), 0, 1, NetOf(0), 0, 0))
  }

  lemma CrowdApart(n: nat)
    ensures Apart(Crowd(n))
  {
    forall i: nat, j: nat | i < j < n ensures Crowd(n)[i].service.net != Crowd(n)[j].service.net {
      assert NetOf(i).ip[14] == i / 0x100 && NetOf(i).ip[15] == i % 0x100;
      assert NetOf(j).ip[14] == j / 0x100 && NetOf(j).ip[15] == j % 0x100;
    }
  }

  ghost function FirstIds(n: nat): (ids: set<nat>)
    ensures |ids| == n && forall i: nat :: i in ids <==> i < n
  {
    if n == 0 then {} else FirstIds(n - 1) + {n - 1}
  }

  /** Whatever the hash, the key and the grouping, some file loads consistently and leaves a bucket overfull. */
  lemma Overfull(env: Env, key: seq<nat>) returns (d: Disk)
    ensures Readable(d) && d.nUBuckets != NEW_BUCKET_COUNT && d.key == key
    ensures Core(Loaded(env, d)) && !ViewSized(ViewOf(Loaded(env, d)))
  {
    var n := 32 * 64 + 1;
    d := Disk(0, key, n, 0, 0, Crowd(n), [], []);
    assert Entries(env, d) == d.newInfos;
    CrowdApart(n);
    assert FromGroup(env, d, env.group(NetOf(0))) == FirstIds(n);
    OverfullSource(env, d, env.group(NetOf(0)));
  }
}
