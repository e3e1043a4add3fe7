/** Writing the manager's tables out and reading them back, as the loops that do it. */
module AddrManStorage {
  import opened AddrManState
  import opened AddrMan
  import opened AddrManDisk
  import AddrManRoundTrip

  // ---------------------------------------------------------------- saving

  lemma SelectPrefix(info: map<nat, Info>, tried: bool, m: nat, n: nat)
    requires m <= n
    ensures Select(info, tried, m) <= Select(info, tried, n)
    decreases n
  {
    if m < n {
      SelectPrefix(info, tried, m, n - 1);
    }
  }

  /** These records are those of these ids. */
  ghost predicate Recorded(info: map<nat, Info>, ids: seq<nat>, rs: seq<Saved>) {
    |rs| == |ids| && forall i :: 0 <= i < |ids| ==> ids[i] in info && rs[i] == SavedOf(info[ids[i]])
  }

  /** Once as many entries have been seen as there are, no more will come. */
  lemma SelectComplete(info: map<nat, Info>, tried: bool, m: nat, n: nat)
    requires m <= n && (m == n || |Select(info, tried, m)| == |Select(info, tried, n)|)
    ensures Select(info, tried, m) == Select(info, tried, n)
    ensures forall k :: k in info && info[k].fInTried == tried && k < n ==> k < m
  {
    SelectPrefix(info, tried, m, n);
    SelectExact(info, tried, m);
    SelectExact(info, tried, n);
    assert Select(info, tried, m) == Select(info, tried, n);
  }

  /** Every entry below id has been given its number. */
  ghost predicate Numbered(info: map<nat, Info>, id: nat, mapUnkIds: map<nat, nat>) {
    forall n :: n in info && n < id ==> n in mapUnkIds && mapUnkIds[n] == Rank(info, n)
  }

  method SaveNewEntry(info: map<nat, Info>, id: nat, rs: seq<Saved>, mapUnkIds: map<nat, nat>)
    returns (rs': seq<Saved>, mapUnkIds': map<nat, nat>)
    requires Recorded(info, Select(info, false, id), rs) && Numbered(info, id, mapUnkIds)
    requires id in info && (info[id].nRefCount != 0 <==> !info[id].fInTried)
    ensures Recorded(info, Select(info, false, id + 1), rs') && Numbered(info, id + 1, mapUnkIds')
  {
    rs', mapUnkIds' := rs, mapUnkIds[id := |rs|];
    if info[id].nRefCount != 0 {
      rs' := rs + [SavedOf(info[id])];
    }
  }

  /** The new entries in order of id, and the number each gets. */
  method SaveNew(info: map<nat, Info>, nIdCount: nat, nNew: int) returns (rs: seq<Saved>, mapUnkIds: map<nat, nat>)
    requires nNew == |Select(info, false, nIdCount)|
    requires forall n :: n in info ==> (info[n].nRefCount != 0 <==> !info[n].fInTried)
    ensures Recorded(info, Select(info, false, nIdCount), rs)
    ensures forall n :: n in info && !info[n].fInTried && n < nIdCount ==> n in mapUnkIds && mapUnkIds[n] == Rank(info, n)
  {
    rs, mapUnkIds := [], map[];
    var id := 0;
    while id < nIdCount && |rs| != nNew
      invariant id <= nIdCount
      invariant Recorded(info, Select(info, false, id), rs) && Numbered(info, id, mapUnkIds)
    {
      if id in info {
        rs, mapUnkIds := SaveNewEntry(info, id, rs, mapUnkIds);
      } else {
        NoEntry(info, id, rs, mapUnkIds);
      }
      id := id + 1;
    }
    SelectComplete(info, false, id, nIdCount);
  }

  lemma NoEntry(info: map<nat, Info>, id: nat, rs: seq<Saved>, mapUnkIds: map<nat, nat>)
    requires id !in info && Recorded(info, Select(info, false, id), rs) && Numbered(info, id, mapUnkIds)
    ensures Recorded(info, Select(info, false, id + 1), rs) && Numbered(info, id + 1, mapUnkIds)
  {
  }

  method SaveTried(info: map<nat, Info>, nIdCount: nat, nTried: int) returns (rs: seq<Saved>)
    requires nTried == |Select(info, true, nIdCount)|
    ensures Recorded(info, Select(info, true, nIdCount), rs)
  {
    rs := [];
    var id, nIds := 0, 0;
    while id < nIdCount && nIds != nTried
      invariant id <= nIdCount && nIds == |rs|
      invariant Recorded(info, Select(info, true, id), rs)
    {
      if id in info && info[id].fInTried {
        rs := rs + [SavedOf(info[id])];
        nIds := nIds + 1;
      }
      id := id + 1;
    }
    SelectComplete(info, true, id, nIdCount);
  }

  method SaveBucket(bucket: set<nat>, ghost info: map<nat, Info>, upTo: nat, mapUnkIds: map<nat, nat>) returns (ns: seq<nat>)
    requires forall n :: n in bucket ==> n in mapUnkIds && mapUnkIds[n] == Rank(info, n)
    ensures ns == Ranks(info, Members(bucket, upTo))
  {
    ns := [];
    var id := 0;
    while id < upTo
      invariant id <= upTo && ns == Ranks(info, Members(bucket, id))
    {
      if id in bucket {
        ns := ns + [mapUnkIds[id]];
        assert Members(bucket, id + 1) == Members(bucket, id) + [id];
      }
      id := id + 1;
    }
  }

  /** What a consistent state promises the loops that write it. */
  ghost predicate Writable(s: State) {
    && s.nNew == |Select(s.mapInfo, false, s.nIdCount)| && s.nTried == |Select(s.mapInfo, true, s.nIdCount)|
    && (forall n :: n in s.mapInfo ==> (s.mapInfo[n].nRefCount != 0 <==> !s.mapInfo[n].fInTried))
    && (forall b :: 0 <= b < |s.vvNew| ==> BucketWritable(s.mapInfo, s.vvNew[b], s.nIdCount))
  }

  ghost predicate BucketWritable(info: map<nat, Info>, bucket: set<nat>, nIdCount: nat) {
    forall n :: n in bucket ==> n in info && !info[n].fInTried && n < nIdCount
  }

  lemma ConsistentWritable(s: State)
    requires Core(s)
    ensures Writable(s)
  {
    AddrManRoundTrip.SelectCounts(s);
    forall n | n in s.mapInfo ensures s.mapInfo[n].nRefCount != 0 <==> !s.mapInfo[n].fInTried {
      assert CountOk(s.mapInfo[n], s.vvNew, n, 0);
    }
    forall b | 0 <= b < |s.vvNew| ensures BucketWritable(s.mapInfo, s.vvNew[b], s.nIdCount) {
      forall n | n in s.vvNew[b] ensures n in s.mapInfo && !s.mapInfo[n].fInTried && n < s.nIdCount {
        assert n in s.mapInfo;
      }
    }
  }

  method SaveBuckets(vvNew: seq<set<nat>>, ghost info: map<nat, Info>, nIdCount: nat, mapUnkIds: map<nat, nat>)
    returns (buckets: seq<seq<nat>>)
    requires forall b, n :: 0 <= b < |vvNew| && n in vvNew[b] ==> n in mapUnkIds && mapUnkIds[n] == Rank(info, n)
    ensures |buckets| == |vvNew|
    ensures forall b :: 0 <= b < |vvNew| ==> buckets[b] == Ranks(info, Members(vvNew[b], nIdCount))
  {
    buckets := [];
    var b := 0;
    while b < |vvNew|
      invariant b == |buckets| <= |vvNew|
      invariant forall c :: 0 <= c < b ==> buckets[c] == Ranks(info, Members(vvNew[c], nIdCount))
    {
      var ns := SaveBucket(vvNew[b], info, nIdCount, mapUnkIds);
      buckets := buckets + [ns];
      b := b + 1;
    }
  }

  method Save(m: AddrMan) returns (d: Disk)
    requires Core(m.S())
    ensures d == DiskOf(m.S())
  {
    ConsistentWritable(m.S());
    d := Write(m);
  }

  method Write(m: AddrMan) returns (d: Disk)
    requires Writable(m.S())
    ensures d == DiskOf(m.S())
  {
    var newInfos, mapUnkIds := SaveNew(m.mapInfo, m.nIdCount, m.nNew);
    var triedInfos := SaveTried(m.mapInfo, m.nIdCount, m.nTried);
    var buckets := SaveBuckets(m.vvNew, m.mapInfo, m.nIdCount, mapUnkIds);
    d := Disk(0, m.key, m.nNew, m.nTried, NEW_BUCKET_COUNT, newInfos, triedInfos, buckets);
    SavedExactly(m.S(), d);
  }

  lemma SavedExactly(s: State, d: Disk)
    requires d == Disk(0, s.key, s.nNew, s.nTried, NEW_BUCKET_COUNT, d.newInfos, d.triedInfos, d.buckets)
    requires Recorded(s.mapInfo, Select(s.mapInfo, false, s.nIdCount), d.newInfos)
    requires Recorded(s.mapInfo, Select(s.mapInfo, true, s.nIdCount), d.triedInfos)
    requires |d.buckets| == |s.vvNew|
    requires forall b :: 0 <= b < |s.vvNew| ==> d.buckets[b] == Ranks(s.mapInfo, Members(s.vvNew[b], s.nIdCount))
    ensures d == DiskOf(s)
  {
    var e := DiskOf(s);
    assert d.newInfos == e.newInfos;
    assert d.triedInfos == e.triedInfos;
    assert d.buckets == e.buckets;
  }

  // ---------------------------------------------------------------- loading

  method LoadNewEntry(m: AddrMan, n: nat, r: Saved, rebucket: bool)
    requires |m.vvNew| == NEW_BUCKET_COUNT
    modifies m`mapInfo, m`mapAddr, m`vRandom, m`vvNew
    ensures m.S() == ReadNew(old(m.S()), n, r, rebucket)
  {
    var i := InfoOf(r);
    m.mapAddr := m.mapAddr[r.service.net := n];
    i := i.(nRandomPos := |m.vRandom|);
    m.vRandom := m.vRandom + [n];
    if rebucket {
      var b := GetNewBucket(m.env, m.key, r.service.net, r.source);
      m.vvNew := m.vvNew[b := m.vvNew[b] + {n}];
      i := i.(nRefCount := i.nRefCount + 1);
    }
    m.mapInfo := m.mapInfo[n := i];
  }

  method LoadTriedEntry(m: AddrMan, r: Saved) returns (lost: bool)
    requires |m.vvTried| == TRIED_BUCKET_COUNT
    modifies m`nIdCount, m`mapInfo, m`mapAddr, m`vRandom, m`vvTried
    ensures lost <==> !HasRoom(old(m.S()), r)
    ensures m.S().(nTried := m.nTried - if lost then 1 else 0) == ReadTried(old(m.S()), r)
  {
    var k := GetTriedBucket(m.env, m.key, r.service);
    lost := |m.vvTried[k]| >= TRIED_BUCKET_SIZE;
    if !lost {
      var i := InfoOf(r).(nRandomPos := |m.vRandom|, fInTried := true);
      m.vRandom := m.vRandom + [m.nIdCount];
      m.mapInfo := m.mapInfo[m.nIdCount := i];
      m.mapAddr := m.mapAddr[r.service.net := m.nIdCount];
      m.vvTried := m.vvTried[k := m.vvTried[k] + [m.nIdCount]];
      m.nIdCount := m.nIdCount + 1;
    }
  }

  method LoadIndex(m: AddrMan, b: nat, n: nat, sameCount: bool)
    requires sameCount ==> b < |m.vvNew|
    modifies m`mapInfo, m`vvNew
    ensures m.S() == ReadIndex(old(m.S()), b, n, sameCount)
  {
    if n !in m.mapInfo {
      m.mapInfo := m.mapInfo[n := BlankInfo()];
    }
    if sameCount && m.mapInfo[n].nRefCount < NEW_BUCKETS_PER_ADDRESS {
      m.mapInfo := m.mapInfo[n := m.mapInfo[n].(nRefCount := m.mapInfo[n].nRefCount + 1)];
      m.vvNew := m.vvNew[b := m.vvNew[b] + {n}];
    }
  }

  method LoadNews(m: AddrMan, rs: seq<Saved>, rebucket: bool)
    requires |m.vvNew| == NEW_BUCKET_COUNT
    modifies m
    ensures m.S() == ReadNews(old(m.S()), rs, rebucket)
  {
    ghost var s := m.S();
    var n := 0;
    while n < |rs|
      invariant n <= |rs| && |m.vvNew| == NEW_BUCKET_COUNT
      invariant m.S() == ReadNews(s, rs[..n], rebucket)
    {
      LoadNewEntry(m, n, rs[n], rebucket);
      n := n + 1;
      assert rs[..n][..n - 1] == rs[..n - 1];
    }
    assert rs[..n] == rs;
  }

  method LoadTrieds(m: AddrMan, rs: seq<Saved>)
    requires |m.vvTried| == TRIED_BUCKET_COUNT && |m.vvNew| == NEW_BUCKET_COUNT
    modifies m
    ensures m.S() == ReadTrieds(old(m.S()), rs)
  {
    ghost var s := m.S();
    var n, nLost := 0, 0;
    while n < |rs|
      invariant n <= |rs| && |m.vvTried| == TRIED_BUCKET_COUNT
      invariant m.S().(nTried := m.nTried - nLost) == ReadTrieds(s, rs[..n])
    {
      LoadTriedStep(m, rs[n], nLost);
      var lost := LoadTriedEntry(m, rs[n]);
      if lost {
        nLost := nLost + 1;
      }
      n := n + 1;
      assert rs[..n][..n - 1] == rs[..n - 1];
    }
    assert rs[..n] == rs;
    m.nTried := m.nTried - nLost;
  }

  /** Whether an entry is lost does not depend on the running total. */
  lemma LoadTriedStep(m: AddrMan, r: Saved, nLost: int)
    requires |m.vvTried| == TRIED_BUCKET_COUNT
    ensures var s := m.S();
            var s1 := s.(nTried := s.nTried - nLost);
            ReadTried(s1, r) == ReadTried(s, r).(nTried := ReadTried(s, r).nTried - nLost)
  {
  }

  method LoadBuckets(m: AddrMan, buckets: seq<seq<nat>>, sameCount: bool)
    requires sameCount ==> |buckets| <= |m.vvNew|
    modifies m
    ensures m.S() == ReadBuckets(old(m.S()), buckets, sameCount)
  {
    ghost var s := m.S();
    var b := 0;
    while b < |buckets|
      invariant b <= |buckets| && (sameCount ==> |buckets| <= |m.vvNew|)
      invariant m.S() == ReadBuckets(s, buckets[..b], sameCount)
    {
      LoadBucket(m, b, buckets[b], sameCount);
      b := b + 1;
      assert buckets[..b][..b - 1] == buckets[..b - 1];
    }
    assert buckets[..b] == buckets;
  }

  method LoadBucket(m: AddrMan, b: nat, ns: seq<nat>, sameCount: bool)
    requires sameCount ==> b < |m.vvNew|
    modifies m
    ensures m.S() == ReadBucket(old(m.S()), b, ns, sameCount)
  {
    ghost var s := m.S();
    var n := 0;
    while n < |ns|
      invariant n <= |ns| && (sameCount ==> b < |m.vvNew|)
      invariant m.S() == ReadBucket(s, b, ns[..n], sameCount)
    {
      LoadIndex(m, b, ns[n], sameCount);
      n := n + 1;
      assert ns[..n][..n - 1] == ns[..n - 1];
    }
    assert ns[..n] == ns;
  }

  method Clear(m: AddrMan, d: Disk)
    modifies m
    ensures m.S() == Cleared(m.env, d)
  {
    m.key, m.nNew, m.nTried := d.key, d.nNew, d.nTried;
    m.nIdCount, m.mapInfo, m.mapAddr, m.vRandom := 0, map[], map[], [];
    m.vvTried, m.vvNew := EmptyTried(), EmptyNew();
  }

  method Load(m: AddrMan, d: Disk)
    requires Readable(d)
    modifies m
    ensures m.S() == Loaded(m.env, d)
  {
    Clear(m, d);
    LoadNews(m, d.newInfos, d.nUBuckets != NEW_BUCKET_COUNT);
    m.nIdCount := |d.newInfos|;
    LoadTrieds(m, d.triedInfos);
    LoadBuckets(m, d.buckets, d.nUBuckets == NEW_BUCKET_COUNT);
  }

  /** Saving a manager and loading the file into another one. */
  method Transfer(m: AddrMan, m': AddrMan)
    requires Core(m.S()) && m' != m && m'.env == m.env
    modifies m'
    ensures Core(m'.S())
    ensures ViewOf(m'.S()) == AddrManRoundTrip.Reloaded(old(ViewOf(m.S())))
    ensures m'.nTried == m.nTried && m'.key == m.key
  {
    AddrManRoundTrip.RoundTrip(m.S());
    var d := Save(m);
    Load(m', d);
  }
}
