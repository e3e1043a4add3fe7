/** Loading what was saved: the tables are consistent again and every address is as it was,
    although all ids have been renumbered. */
module AddrManRoundTrip {
  import opened AddrManState
  import opened AddrManSteps
  import opened AddrManDisk

  // ---------------------------------------------------------------- the renumbering

  /** The ids in the order their entries are written; loading renumbers them by position. */
  ghost function Order(s: State): seq<nat> {
    Select(s.mapInfo, false, s.nIdCount) + Select(s.mapInfo, true, s.nIdCount)
  }

  /** A listing of all entries, each once. */
  ghost predicate Lists(info: map<nat, Info>, order: seq<nat>) {
    Distinct(order) && forall n :: n in order <==> n in info
  }

  lemma OrderLists(s: State)
    requires IdsOk(s.mapInfo, s.nIdCount)
    ensures Lists(s.mapInfo, Order(s))
  {
    SelectExact(s.mapInfo, false, s.nIdCount);
    SelectExact(s.mapInfo, true, s.nIdCount);
    var news, trieds := Select(s.mapInfo, false, s.nIdCount), Select(s.mapInfo, true, s.nIdCount);
    forall i, j | 0 <= i < |news| && 0 <= j < |trieds| ensures news[i] != trieds[j] {
      assert news[i] in news && trieds[j] in trieds;
    }
  }

  lemma SelectCounts(s: State)
    requires IdsOk(s.mapInfo, s.nIdCount)
    ensures |Select(s.mapInfo, false, s.nIdCount)| == |NewIds(s.mapInfo)|
    ensures |Select(s.mapInfo, true, s.nIdCount)| == |TriedIds(s.mapInfo)|
  {
    SelectExact(s.mapInfo, false, s.nIdCount);
    SelectExact(s.mapInfo, true, s.nIdCount);
    DistinctCount(Select(s.mapInfo, false, s.nIdCount), NewIds(s.mapInfo));
    DistinctCount(Select(s.mapInfo, true, s.nIdCount), TriedIds(s.mapInfo));
  }

  /** An entry as it is read back under number k, not yet listed in any new bucket. */
  ghost function Reread(i: Info, k: nat): Info {
    i.(nLastTry := 0, nRefCount := 0, nRandomPos := k)
  }

  /** The first n entries have been read back. */
  ghost predicate Reads(info: map<nat, Info>, order: seq<nat>, read: map<nat, Info>, n: nat) {
    && n <= |order|
    && (forall k: nat :: k in read <==> k < n)
    && (forall k :: 0 <= k < n ==> order[k] in info && read[k] == Reread(info[order[k]], k))
  }

  lemma ReadsNext(info: map<nat, Info>, order: seq<nat>, read: map<nat, Info>, n: nat)
    requires Reads(info, order, read, n) && n < |order| && order[n] in info
    ensures Reads(info, order, read[n := Reread(info[order[n]], n)], n + 1)
  {
  }

  lemma UnreadNet(info: map<nat, Info>, addr: map<NetAddr, nat>, order: seq<nat>, read: map<nat, Info>,
                  readAddr: map<NetAddr, nat>, n: nat)
    requires AddrOk(info, addr) && Lists(info, order) && Reads(info, order, read, n) && n < |order|
    requires AddrOk(read, readAddr)
    ensures order[n] in info && info[order[n]].service.net !in readAddr
  {
    assert order[n] in order;
    forall k | 0 <= k < n ensures read[k].service.net != info[order[n]].service.net {
      assert order[k] != order[n];
      assert addr[info[order[k]].service.net] == order[k];
    }
  }

  // ---------------------------------------------------------------- reading the entries

  /** All tables but the new buckets, after the first n entries. */
  ghost predicate Partial(s: State, st: State, n: nat) {
    && Reads(s.mapInfo, Order(s), st.mapInfo, n)
    && AddrOk(st.mapInfo, st.mapAddr)
    && RandomOk(st.mapInfo, st.vRandom) && |st.vRandom| == n
    && TriedOk(s.env, s.key, st.mapInfo, st.vvTried)
    && st.env == s.env && st.key == s.key && st.vvNew == EmptyNew()
  }

  lemma ReadNewStep(s: State, st: State, n: nat)
    requires IdsOk(s.mapInfo, s.nIdCount) && AddrOk(s.mapInfo, s.mapAddr)
    requires Partial(s, st, n) && n < |Select(s.mapInfo, false, s.nIdCount)|
    ensures Order(s)[n] in s.mapInfo
    ensures Partial(s, ReadNew(st, n, SavedOf(s.mapInfo[Order(s)[n]]), false), n + 1)
  {
    OrderLists(s);
    UnreadNet(s.mapInfo, s.mapAddr, Order(s), st.mapInfo, st.mapAddr, n);
    SelectExact(s.mapInfo, false, s.nIdCount);
    var i := s.mapInfo[Order(s)[n]];
    assert Order(s)[n] in Select(s.mapInfo, false, s.nIdCount);
    assert InfoOf(SavedOf(i)).(nRandomPos := n) == Reread(i, n);
    ReadsNext(s.mapInfo, Order(s), st.mapInfo, n);
    CreatedAddr(st.mapInfo, st.mapAddr, n, Reread(i, n));
    CreatedRandom(st.mapInfo, st.vRandom, n, Reread(i, n));
    CreatedTried(s.env, s.key, st.mapInfo, n, Reread(i, n), st.vvTried);
  }

  lemma ReadTriedTable(env: Env, key: seq<nat>, info: map<nat, Info>, n: nat, i: Info, vvTried: seq<seq<nat>>)
    requires TriedOk(env, key, info, vvTried) && n !in info && i.fInTried
    requires |vvTried[GetTriedBucket(env, key, i.service)]| < TRIED_BUCKET_SIZE
    ensures var k := GetTriedBucket(env, key, i.service);
            TriedOk(env, key, info[n := i], vvTried[k := vvTried[k] + [n]])
  {
  }

  /** What has been read back into a tried bucket was in that bucket. */
  lemma ReadFrom(env: Env, key: seq<nat>, info: map<nat, Info>, vvTried: seq<seq<nat>>, order: seq<nat>,
                 read: map<nat, Info>, readTried: seq<seq<nat>>, n: nat, b: nat, k: nat)
    requires TriedOk(env, key, info, vvTried) && TriedOk(env, key, read, readTried)
    requires Reads(info, order, read, n) && b < TRIED_BUCKET_COUNT && k in readTried[b]
    ensures k < n && order[k] in vvTried[b]
  {
    assert k in read && read[k].fInTried;
    assert read[k] == Reread(info[order[k]], k);
  }

  /** A tried entry that is still to be read finds room: the saved bucket held it beside all those
      already read. */
  lemma ReadRoom(env: Env, key: seq<nat>, info: map<nat, Info>, vvTried: seq<seq<nat>>, order: seq<nat>,
                 read: map<nat, Info>, readTried: seq<seq<nat>>, n: nat)
    requires TriedOk(env, key, info, vvTried) && TriedOk(env, key, read, readTried)
    requires Distinct(order) && Reads(info, order, read, n) && n < |order|
    requires order[n] in info && info[order[n]].fInTried
    ensures |readTried[GetTriedBucket(env, key, info[order[n]].service)]| < TRIED_BUCKET_SIZE
  {
    var b := GetTriedBucket(env, key, info[order[n]].service);
    var ks := set k | k in readTried[b];
    var ids := set m | m in vvTried[b];
    DistinctCount(readTried[b], ks);
    DistinctCount(vvTried[b], ids);
    assert order[n] in vvTried[b];
    forall k | k in ks ensures k < n && order[k] in ids - {order[n]} {
      ReadFrom(env, key, info, vvTried, order, read, readTried, n, b, k);
      assert order[k] != order[n];
    }
    ImageBound(order, ks, ids - {order[n]});
  }

  /** Distinct positions hold distinct ids, so a set of positions is no larger than a set that
      contains all its ids. */
  lemma {:induction false} ImageBound(order: seq<nat>, ks: set<nat>, ids: set<nat>)
    requires Distinct(order) && forall k :: k in ks ==> k < |order| && order[k] in ids
    ensures |ks| <= |ids|
  {
    if |ks| > 0 {
      var k :| k in ks;
      ImageBound(order, ks - {k}, ids - {order[k]});
    }
  }

  lemma ReadTriedStep(s: State, st: State, n: nat)
    requires IdsOk(s.mapInfo, s.nIdCount) && AddrOk(s.mapInfo, s.mapAddr) && TriedOk(s.env, s.key, s.mapInfo, s.vvTried)
    requires Partial(s, st, n) && |Select(s.mapInfo, false, s.nIdCount)| <= n < |Order(s)| && st.nIdCount == n
    ensures Order(s)[n] in s.mapInfo
    ensures var st' := ReadTried(st, SavedOf(s.mapInfo[Order(s)[n]]));
            Partial(s, st', n + 1) && st'.nIdCount == n + 1 && st'.nTried == st.nTried
  {
    OrderLists(s);
    UnreadNet(s.mapInfo, s.mapAddr, Order(s), st.mapInfo, st.mapAddr, n);
    SelectExact(s.mapInfo, true, s.nIdCount);
    var i := s.mapInfo[Order(s)[n]];
    assert Order(s)[n] in Select(s.mapInfo, true, s.nIdCount);
    ReadRoom(s.env, s.key, s.mapInfo, s.vvTried, Order(s), st.mapInfo, st.vvTried, n);
    assert InfoOf(SavedOf(i)).(nRandomPos := n, fInTried := true) == Reread(i, n);
    ReadsNext(s.mapInfo, Order(s), st.mapInfo, n);
    CreatedAddr(st.mapInfo, st.mapAddr, n, Reread(i, n));
    CreatedRandom(st.mapInfo, st.vRandom, n, Reread(i, n));
    ReadTriedTable(s.env, s.key, st.mapInfo, n, Reread(i, n), st.vvTried);
  }

  /** The records rs are those of the entries from place start on. */
  ghost predicate Written(s: State, rs: seq<Saved>, start: nat) {
    && start + |rs| <= |Order(s)|
    && forall i :: 0 <= i < |rs| ==> WrittenAt(s, rs[i], start + i)
  }

  ghost predicate WrittenAt(s: State, r: Saved, k: nat) {
    k < |Order(s)| && Order(s)[k] in s.mapInfo && r == SavedOf(s.mapInfo[Order(s)[k]])
  }

  lemma {:induction false} ReadAllNew(s: State, st0: State, rs: seq<Saved>)
    requires IdsOk(s.mapInfo, s.nIdCount) && AddrOk(s.mapInfo, s.mapAddr)
    requires Written(s, rs, 0) && |rs| <= |Select(s.mapInfo, false, s.nIdCount)|
    requires Partial(s, st0, 0)
    ensures var st := ReadNews(st0, rs, false);
            Partial(s, st, |rs|) && st.nTried == st0.nTried && st.nNew == st0.nNew
  {
    if rs != [] {
      var n := |rs| - 1;
      ReadAllNew(s, st0, rs[..n]);
      assert WrittenAt(s, rs[n], n);
      ReadNewStep(s, ReadNews(st0, rs[..n], false), n);
    }
  }

  lemma {:induction false} ReadAllTried(s: State, st0: State, rs: seq<Saved>)
    requires IdsOk(s.mapInfo, s.nIdCount) && AddrOk(s.mapInfo, s.mapAddr) && TriedOk(s.env, s.key, s.mapInfo, s.vvTried)
    requires Written(s, rs, |Select(s.mapInfo, false, s.nIdCount)|)
    requires Partial(s, st0, |Select(s.mapInfo, false, s.nIdCount)|)
    requires st0.nIdCount == |Select(s.mapInfo, false, s.nIdCount)|
    ensures var st, n := ReadTrieds(st0, rs), |Select(s.mapInfo, false, s.nIdCount)| + |rs|;
            Partial(s, st, n) && st.nIdCount == n && st.nTried == st0.nTried && st.nNew == st0.nNew
  {
    if rs != [] {
      var n := |rs| - 1;
      ReadAllTried(s, st0, rs[..n]);
      assert WrittenAt(s, rs[n], |Select(s.mapInfo, false, s.nIdCount)| + n);
      ReadTriedStep(s, ReadTrieds(st0, rs[..n]), |Select(s.mapInfo, false, s.nIdCount)| + n);
    }
  }

  lemma StartPartial(s: State, d: Disk)
    requires d.key == s.key
    ensures Partial(s, Cleared(s.env, d), 0)
  {
  }

  /** All entries are read back and none is lost. */
  lemma ReadEntries(s: State)
    requires Core(s)
    ensures Readable(DiskOf(s))
    ensures var st := AfterTried(s.env, DiskOf(s));
            Partial(s, st, |Order(s)|) && st.nIdCount == |Order(s)| && st.nTried == s.nTried && st.nNew == s.nNew
  {
    var d := DiskOf(s);
    SelectCounts(s);
    WrittenNew(s);
    WrittenTried(s);
    StartPartial(s, d);
    ReadAllNew(s, Cleared(s.env, d), d.newInfos);
    ReadAllTried(s, AfterNew(s.env, d), d.triedInfos);
  }

  lemma WrittenNew(s: State)
    requires IdsOk(s.mapInfo, s.nIdCount)
    ensures Written(s, DiskOf(s).newInfos, 0) && |DiskOf(s).newInfos| == |Select(s.mapInfo, false, s.nIdCount)|
  {
    SelectExact(s.mapInfo, false, s.nIdCount);
    var ids := Select(s.mapInfo, false, s.nIdCount);
    forall i | 0 <= i < |ids| ensures WrittenAt(s, DiskOf(s).newInfos[i], i) {
      assert ids[i] in ids;
    }
  }

  lemma WrittenTried(s: State)
    requires IdsOk(s.mapInfo, s.nIdCount)
    ensures Written(s, DiskOf(s).triedInfos, |Select(s.mapInfo, false, s.nIdCount)|)
    ensures |DiskOf(s).triedInfos| == |Select(s.mapInfo, true, s.nIdCount)|
  {
    SelectExact(s.mapInfo, true, s.nIdCount);
    var ids, start := Select(s.mapInfo, true, s.nIdCount), |Select(s.mapInfo, false, s.nIdCount)|;
    forall i | 0 <= i < |ids|
      ensures WrittenAt(s, DiskOf(s).triedInfos[i], start + i)
    {
      assert ids[i] in ids && Order(s)[start + i] == ids[i];
    }
  }

  // ---------------------------------------------------------------- reading the new buckets

  /** The buckets vv hold, under their new numbers, the entries that the buckets listed hold. */
  ghost predicate Mirrors(order: seq<nat>, news: nat, listed: seq<set<nat>>, vv: seq<set<nat>>) {
    && |listed| == |vv| && news <= |order|
    && forall c :: 0 <= c < |vv| ==> MirrorsBucket(order, news, listed[c], vv[c])
  }

  ghost predicate MirrorsBucket(order: seq<nat>, news: nat, ids: set<nat>, bucket: set<nat>)
    requires news <= |order|
  {
    && (forall k :: k in bucket ==> k < news && order[k] in ids)
    && (forall k: nat :: k < news && order[k] in ids ==> k in bucket)
  }

  /** Entries as read, with their reference counts. */
  ghost predicate Counted(read0: map<nat, Info>, read: map<nat, Info>, vv: seq<set<nat>>) {
    && (forall k :: k in read <==> k in read0)
    && (forall k :: k in read ==> read[k] == read0[k].(nRefCount := |BucketsOf(vv, k)|))
  }

  lemma MirrorBuckets(order: seq<nat>, news: nat, listed: seq<set<nat>>, vv: seq<set<nat>>, k: nat)
    requires Mirrors(order, news, listed, vv) && k < news
    ensures BucketsOf(vv, k) == BucketsOf(listed, order[k])
  {
    forall c: nat | c < |vv| ensures k in vv[c] <==> order[k] in listed[c] {
      assert MirrorsBucket(order, news, listed[c], vv[c]);
    }
  }

  lemma MirrorsStep(order: seq<nat>, news: nat, listed: seq<set<nat>>, vv: seq<set<nat>>, b: nat, k: nat)
    requires Mirrors(order, news, listed, vv) && Distinct(order) && b < |vv| && k < news
    ensures Mirrors(order, news, listed[b := listed[b] + {order[k]}], vv[b := vv[b] + {k}])
  {
    assert MirrorsBucket(order, news, listed[b], vv[b]);
    forall m: nat | m < news && order[m] in listed[b] + {order[k]} ensures m in vv[b] + {k} {
      assert m == k || order[m] != order[k];
    }
  }

  lemma CountedStep(read0: map<nat, Info>, read: map<nat, Info>, vv: seq<set<nat>>, b: nat, k: nat)
    requires Counted(read0, read, vv) && k in read && b < |vv| && k !in vv[b]
    ensures Counted(read0, read[k := read[k].(nRefCount := read[k].nRefCount + 1)], vv[b := vv[b] + {k}])
  {
    var read' := read[k := read[k].(nRefCount := read[k].nRefCount + 1)];
    var vv' := vv[b := vv[b] + {k}];
    forall m | m in read' ensures read'[m] == read0[m].(nRefCount := |BucketsOf(vv', m)|) {
      BucketsUpdate(vv, b, vv[b] + {k}, m);
      if m != k { assert BucketsOf(vv', m) == BucketsOf(vv, m); }
    }
  }

  /** What has been listed so far is part of what was saved. */
  ghost predicate PartOf(listed: seq<set<nat>>, vvNew: seq<set<nat>>) {
    |listed| == |vvNew| && forall c :: 0 <= c < |listed| ==> listed[c] <= vvNew[c]
  }

  /** A listing still to be read is always admitted: fewer than the saved references are there yet. */
  lemma Admitted(info: map<nat, Info>, vvNew: seq<set<nat>>, listed: seq<set<nat>>, b: nat, m: nat)
    requires NewOk(info, vvNew, {}) && PartOf(listed, vvNew) && b < |vvNew| && m in vvNew[b] && m !in listed[b]
    ensures |BucketsOf(listed, m)| < NEW_BUCKETS_PER_ADDRESS
  {
    assert CountOk(info[m], vvNew, m, 0);
    assert BucketsOf(listed, m) + {b} <= BucketsOf(vvNew, m);
    SubsetCount(BucketsOf(listed, m) + {b}, BucketsOf(vvNew, m));
  }

  /** The state while the new buckets are being read. */
  ghost predicate Listing(s: State, st0: State, st: State, listed: seq<set<nat>>) {
    && st.env == st0.env && st.key == st0.key && st.nIdCount == st0.nIdCount && st.mapAddr == st0.mapAddr
    && st.vRandom == st0.vRandom && st.nTried == st0.nTried && st.vvTried == st0.vvTried && st.nNew == st0.nNew
    && Counted(st0.mapInfo, st.mapInfo, st.vvNew)
    && Mirrors(Order(s), |Select(s.mapInfo, false, s.nIdCount)|, listed, st.vvNew)
  }

  lemma ReadIndexStep(s: State, st0: State, st: State, listed: seq<set<nat>>, b: nat, m: nat)
    requires IdsOk(s.mapInfo, s.nIdCount) && NewOk(s.mapInfo, s.vvNew, {})
    requires forall k: nat :: k < |Order(s)| ==> k in st0.mapInfo
    requires Listing(s, st0, st, listed) && PartOf(listed, s.vvNew)
    requires b < |s.vvNew| && m in s.vvNew[b] && m !in listed[b]
    ensures Listing(s, st0, ReadIndex(st, b, Rank(s.mapInfo, m), true), listed[b := listed[b] + {m}])
  {
    var news, k := Select(s.mapInfo, false, s.nIdCount), Rank(s.mapInfo, m);
    OrderLists(s);
    RankPlace(s.mapInfo, m, s.nIdCount);
    assert Order(s)[k] == m;
    MirrorBuckets(Order(s), |news|, listed, st.vvNew, k);
    Admitted(s.mapInfo, s.vvNew, listed, b, m);
    CountedStep(st0.mapInfo, st.mapInfo, st.vvNew, b, k);
    MirrorsStep(Order(s), |news|, listed, st.vvNew, b, k);
  }

  ghost function Elements(ids: seq<nat>): set<nat> { set m | m in ids }

  lemma {:induction false} ReadBucketOk(s: State, st0: State, st: State, listed: seq<set<nat>>, b: nat, ids: seq<nat>)
    requires IdsOk(s.mapInfo, s.nIdCount) && NewOk(s.mapInfo, s.vvNew, {})
    requires forall k: nat :: k < |Order(s)| ==> k in st0.mapInfo
    requires Listing(s, st0, st, listed) && PartOf(listed, s.vvNew)
    requires b < |s.vvNew| && listed[b] == {} && Distinct(ids) && forall m :: m in ids ==> m in s.vvNew[b]
    ensures Listing(s, st0, ReadBucket(st, b, Ranks(s.mapInfo, ids), true), listed[b := Elements(ids)])
  {
    if ids == [] {
      assert Elements(ids) == {};
      assert listed[b := Elements(ids)] == listed;
    } else {
      var n := |ids| - 1;
      ElementsNext(ids, listed, b);
      RanksNext(s.mapInfo, ids);
      ReadBucketOk(s, st0, st, listed, b, ids[..n]);
      ReadIndexStep(s, st0, ReadBucket(st, b, Ranks(s.mapInfo, ids[..n]), true), listed[b := Elements(ids[..n])], b, ids[n]);
    }
  }

  lemma ElementsNext(ids: seq<nat>, listed: seq<set<nat>>, b: nat)
    requires |ids| > 0 && b < |listed|
    ensures var n := |ids| - 1;
            var before := listed[b := Elements(ids[..n])];
            before[b := before[b] + {ids[n]}] == listed[b := Elements(ids)]
  {
    var n := |ids| - 1;
    assert ids == ids[..n] + [ids[n]];
    assert Elements(ids) == Elements(ids[..n]) + {ids[n]};
  }

  lemma RanksNext(info: map<nat, Info>, ids: seq<nat>)
    requires |ids| > 0
    ensures var n, ranks := |ids| - 1, Ranks(info, ids);
            ranks[..n] == Ranks(info, ids[..n]) && ranks[n] == Rank(info, ids[n])
  {
  }

  /** The first b buckets of what was saved. */
  ghost function FirstBuckets(vvNew: seq<set<nat>>, b: nat): (listed: seq<set<nat>>)
    ensures PartOf(listed, vvNew)
  {
    seq(|vvNew|, c requires 0 <= c < |vvNew| => if c < b then vvNew[c] else {})
  }

  ghost predicate BucketsWritten(s: State, buckets: seq<seq<nat>>) {
    && |buckets| <= |s.vvNew|
    && forall b :: 0 <= b < |buckets| ==> buckets[b] == Ranks(s.mapInfo, Members(s.vvNew[b], s.nIdCount))
  }

  lemma {:induction false} ReadBucketsOk(s: State, st0: State, buckets: seq<seq<nat>>)
    requires IdsOk(s.mapInfo, s.nIdCount) && NewOk(s.mapInfo, s.vvNew, {})
    requires forall k: nat :: k < |Order(s)| ==> k in st0.mapInfo
    requires Listing(s, st0, st0, FirstBuckets(s.vvNew, 0)) && BucketsWritten(s, buckets)
    ensures Listing(s, st0, ReadBuckets(st0, buckets, true), FirstBuckets(s.vvNew, |buckets|))
  {
    if buckets != [] {
      var b := |buckets| - 1;
      ReadBucketsOk(s, st0, buckets[..b]);
      var ids := Members(s.vvNew[b], s.nIdCount);
      MembersExact(s.vvNew[b], s.nIdCount);
      ReadBucketOk(s, st0, ReadBuckets(st0, buckets[..b], true), FirstBuckets(s.vvNew, b), b, ids);
      WholeBucket(s, b);
    }
  }

  lemma WholeBucket(s: State, b: nat)
    requires IdsOk(s.mapInfo, s.nIdCount) && NewOk(s.mapInfo, s.vvNew, {}) && b < |s.vvNew|
    ensures FirstBuckets(s.vvNew, b)[b := Elements(Members(s.vvNew[b], s.nIdCount))] == FirstBuckets(s.vvNew, b + 1)
  {
    MembersExact(s.vvNew[b], s.nIdCount);
    forall m | m in s.vvNew[b] ensures m in Elements(Members(s.vvNew[b], s.nIdCount)) {
      assert m in s.mapInfo;
    }
    assert Elements(Members(s.vvNew[b], s.nIdCount)) == s.vvNew[b];
  }

  // ---------------------------------------------------------------- the tables are consistent again

  lemma CountedKeeps(env: Env, key: seq<nat>, read0: map<nat, Info>, read: map<nat, Info>, vv: seq<set<nat>>,
                     addr: map<NetAddr, nat>, vRandom: seq<nat>, vvTried: seq<seq<nat>>)
    requires Counted(read0, read, vv)
    requires AddrOk(read0, addr) && RandomOk(read0, vRandom) && TriedOk(env, key, read0, vvTried)
    ensures AddrOk(read, addr) && RandomOk(read, vRandom) && TriedOk(env, key, read, vvTried)
  {
  }

  /** Numbers below the count of new entries are new entries, the others are tried. */
  lemma ReadKinds(s: State, read0: map<nat, Info>, k: nat)
    requires IdsOk(s.mapInfo, s.nIdCount) && Reads(s.mapInfo, Order(s), read0, |Order(s)|) && k < |Order(s)|
    ensures k in read0 && Order(s)[k] in s.mapInfo && read0[k] == Reread(s.mapInfo[Order(s)[k]], k)
    ensures read0[k].fInTried <==> k >= |Select(s.mapInfo, false, s.nIdCount)|
  {
    SelectExact(s.mapInfo, false, s.nIdCount);
    SelectExact(s.mapInfo, true, s.nIdCount);
    var news, trieds := Select(s.mapInfo, false, s.nIdCount), Select(s.mapInfo, true, s.nIdCount);
    if k < |news| {
      assert Order(s)[k] == news[k] && news[k] in news;
    } else {
      assert Order(s)[k] == trieds[k - |news|] && trieds[k - |news|] in trieds;
    }
  }

  lemma ReadCount(s: State, read0: map<nat, Info>, i: Info, vv: seq<set<nat>>, k: nat)
    requires IdsOk(s.mapInfo, s.nIdCount) && NewOk(s.mapInfo, s.vvNew, {})
    requires Reads(s.mapInfo, Order(s), read0, |Order(s)|) && k < |Order(s)|
    requires Mirrors(Order(s), |Select(s.mapInfo, false, s.nIdCount)|, s.vvNew, vv)
    requires k in read0 && i == read0[k].(nRefCount := |BucketsOf(vv, k)|)
    ensures CountOk(i, vv, k, 0)
    ensures Order(s)[k] in s.mapInfo && BucketsOf(vv, k) == BucketsOf(s.vvNew, Order(s)[k])
  {
    ReadKinds(s, read0, k);
    var m := Order(s)[k];
    assert CountOk(s.mapInfo[m], s.vvNew, m, 0);
    if i.fInTried {
      forall c | 0 <= c < |vv| ensures k !in vv[c] {
        assert MirrorsBucket(Order(s), |Select(s.mapInfo, false, s.nIdCount)|, s.vvNew[c], vv[c]);
      }
      assert BucketsOf(vv, k) == {};
    } else {
      MirrorBuckets(Order(s), |Select(s.mapInfo, false, s.nIdCount)|, s.vvNew, vv, k);
    }
  }

  lemma ReadNewOk(s: State, read0: map<nat, Info>, read: map<nat, Info>, vv: seq<set<nat>>)
    requires IdsOk(s.mapInfo, s.nIdCount) && NewOk(s.mapInfo, s.vvNew, {})
    requires Reads(s.mapInfo, Order(s), read0, |Order(s)|) && Counted(read0, read, vv)
    requires Mirrors(Order(s), |Select(s.mapInfo, false, s.nIdCount)|, s.vvNew, vv)
    ensures NewOk(read, vv, {})
  {
    forall c | 0 <= c < |vv| ensures forall k: nat :: k in vv[c] ==> k in read && !read[k].fInTried {
      ReadBucketKept(s, read0, read, vv, c);
    }
    forall k: nat | k in read ensures CountOk(read[k], vv, k, 0) {
      ReadCount(s, read0, read[k], vv, k);
    }
  }

  lemma ReadBucketKept(s: State, read0: map<nat, Info>, read: map<nat, Info>, vv: seq<set<nat>>, c: nat)
    requires IdsOk(s.mapInfo, s.nIdCount) && NewOk(s.mapInfo, s.vvNew, {}) && c < |vv|
    requires Reads(s.mapInfo, Order(s), read0, |Order(s)|) && Counted(read0, read, vv)
    requires Mirrors(Order(s), |Select(s.mapInfo, false, s.nIdCount)|, s.vvNew, vv)
    ensures forall k: nat :: k in vv[c] ==> k in read && !read[k].fInTried
  {
    OrderLists(s);
    var news := |Select(s.mapInfo, false, s.nIdCount)|;
    forall k: nat | k in vv[c] ensures k in read && !read[k].fInTried {
      assert MirrorsBucket(Order(s), news, s.vvNew[c], vv[c]);
      ReadKinds(s, read0, k);
    }
  }

  ghost function Numbers(from: nat, count: nat): (ks: seq<nat>)
    ensures |ks| == count && Distinct(ks) && forall k: nat :: k in ks <==> from <= k < from + count
  {
    if count == 0 then []
    else
      var rest := Numbers(from, count - 1);
      assert forall i :: 0 <= i < |rest| ==> rest[i] in rest;
      rest + [from + count - 1]
  }

  lemma ReadTotals(s: State, read0: map<nat, Info>, read: map<nat, Info>, vv: seq<set<nat>>)
    requires IdsOk(s.mapInfo, s.nIdCount) && TotalsOk(s.mapInfo, s.nNew, s.nTried)
    requires Reads(s.mapInfo, Order(s), read0, |Order(s)|) && Counted(read0, read, vv)
    ensures TotalsOk(read, s.nNew, s.nTried)
  {
    SelectCounts(s);
    var news, trieds := |Select(s.mapInfo, false, s.nIdCount)|, |Select(s.mapInfo, true, s.nIdCount)|;
    forall k: nat | k in read ensures k < |Order(s)| && (read[k].fInTried <==> k >= news) {
      ReadKinds(s, read0, k);
    }
    DistinctCount(Numbers(0, news), NewIds(read));
    DistinctCount(Numbers(news, trieds), TriedIds(read));
  }

  // ---------------------------------------------------------------- every address is as it was

  /** The view after a reload: only the time of the last attempt is forgotten. */
  ghost function Reloaded(v: View): View {
    map a | a in v :: v[a].(nLastTry := 0)
  }

  lemma ReadEntry(s: State, read0: map<nat, Info>, read: map<nat, Info>, addr: map<NetAddr, nat>, vv: seq<set<nat>>, a: NetAddr)
    requires IdsOk(s.mapInfo, s.nIdCount) && AddrOk(s.mapInfo, s.mapAddr) && NewOk(s.mapInfo, s.vvNew, {})
    requires Reads(s.mapInfo, Order(s), read0, |Order(s)|) && Counted(read0, read, vv) && AddrOk(read, addr)
    requires Mirrors(Order(s), |Select(s.mapInfo, false, s.nIdCount)|, s.vvNew, vv)
    requires a in addr
    ensures a in s.mapAddr
    ensures EntryOf(read[addr[a]], BucketsOf(vv, addr[a])) ==
            EntryOf(s.mapInfo[s.mapAddr[a]], BucketsOf(s.vvNew, s.mapAddr[a])).(nLastTry := 0)
  {
    var k := addr[a];
    assert k in read && read[k].service.net == a;
    ReadKinds(s, read0, k);
    ReadCount(s, read0, read[k], vv, k);
    assert s.mapAddr[a] == Order(s)[k];
  }

  lemma ReadKnows(s: State, read0: map<nat, Info>, read: map<nat, Info>, addr: map<NetAddr, nat>, vv: seq<set<nat>>, a: NetAddr)
    requires IdsOk(s.mapInfo, s.nIdCount) && AddrOk(s.mapInfo, s.mapAddr)
    requires Reads(s.mapInfo, Order(s), read0, |Order(s)|) && Counted(read0, read, vv) && AddrOk(read, addr)
    requires a in s.mapAddr
    ensures a in addr
  {
    OrderLists(s);
    assert s.mapAddr[a] in Order(s);
    var k :| 0 <= k < |Order(s)| && Order(s)[k] == s.mapAddr[a];
    ReadKinds(s, read0, k);
    assert read[k].service.net == a;
  }

  lemma ReadView(s: State, read0: map<nat, Info>, read: map<nat, Info>, addr: map<NetAddr, nat>, vv: seq<set<nat>>)
    requires IdsOk(s.mapInfo, s.nIdCount) && AddrOk(s.mapInfo, s.mapAddr) && NewOk(s.mapInfo, s.vvNew, {})
    requires Reads(s.mapInfo, Order(s), read0, |Order(s)|) && Counted(read0, read, vv) && AddrOk(read, addr)
    requires Mirrors(Order(s), |Select(s.mapInfo, false, s.nIdCount)|, s.vvNew, vv)
    ensures ViewFrom(read, addr, vv) == Reloaded(ViewOf(s))
  {
    forall a | a in s.mapAddr ensures a in addr {
      ReadKnows(s, read0, read, addr, vv, a);
    }
    forall a | a in addr ensures a in s.mapAddr && EntryReloaded(s, read, addr, vv, a) {
      ReadEntry(s, read0, read, addr, vv, a);
    }
    SameView(s, read, addr, vv);
  }

  ghost predicate EntryReloaded(s: State, read: map<nat, Info>, addr: map<NetAddr, nat>, vv: seq<set<nat>>, a: NetAddr)
    requires AddrOk(s.mapInfo, s.mapAddr) && AddrOk(read, addr) && a in addr && a in s.mapAddr
  {
    EntryOf(read[addr[a]], BucketsOf(vv, addr[a])) ==
    EntryOf(s.mapInfo[s.mapAddr[a]], BucketsOf(s.vvNew, s.mapAddr[a])).(nLastTry := 0)
  }

  lemma SameView(s: State, read: map<nat, Info>, addr: map<NetAddr, nat>, vv: seq<set<nat>>)
    requires AddrOk(s.mapInfo, s.mapAddr) && AddrOk(read, addr)
    requires forall a :: a in addr <==> a in s.mapAddr
    requires forall a :: a in addr ==> EntryReloaded(s, read, addr, vv, a)
    ensures ViewFrom(read, addr, vv) == Reloaded(ViewOf(s))
  {
    var v, v' := Reloaded(ViewOf(s)), ViewFrom(read, addr, vv);
    forall a | a in v' ensures v'[a] == v[a] {
      assert EntryReloaded(s, read, addr, vv, a);
    }
  }

  // ---------------------------------------------------------------- the round trip

  lemma NothingListed(s: State, st0: State)
    requires IdsOk(s.mapInfo, s.nIdCount) && |s.vvNew| == NEW_BUCKET_COUNT
    requires Reads(s.mapInfo, Order(s), st0.mapInfo, |Order(s)|) && st0.vvNew == EmptyNew()
    ensures Listing(s, st0, st0, FirstBuckets(s.vvNew, 0))
  {
    forall k: nat | k in st0.mapInfo ensures st0.mapInfo[k] == st0.mapInfo[k].(nRefCount := |BucketsOf(st0.vvNew, k)|) {
      assert BucketsOf(st0.vvNew, k) == {};
    }
  }

  lemma ListingDone(s: State, st0: State, st: State)
    requires Core(s) && Partial(s, st0, |Order(s)|) && st0.nIdCount == |Order(s)|
    requires st0.nTried == s.nTried && st0.nNew == s.nNew
    requires Listing(s, st0, st, s.vvNew)
    ensures Core(st) && ViewOf(st) == Reloaded(ViewOf(s))
  {
    CountedKeeps(s.env, s.key, st0.mapInfo, st.mapInfo, st.vvNew, st.mapAddr, st.vRandom, st.vvTried);
    ReadNewOk(s, st0.mapInfo, st.mapInfo, st.vvNew);
    ReadTotals(s, st0.mapInfo, st.mapInfo, st.vvNew);
    ReadView(s, st0.mapInfo, st.mapInfo, st.mapAddr, st.vvNew);
  }

  lemma ReloadedSized(v: View)
    ensures ViewSized(Reloaded(v)) <==> ViewSized(v)
  {
    forall b: nat ensures Listed(Reloaded(v), b) == Listed(v, b) {
    }
  }

  /** Loading a saved manager re-establishes every consistency condition, loses no entry, and keeps
      of every address its persisted fields, its tried or new status and its exact new buckets. */
  lemma RoundTrip(s: State)
    requires Core(s)
    ensures Readable(DiskOf(s))
    ensures Core(Loaded(s.env, DiskOf(s)))
    ensures ViewOf(Loaded(s.env, DiskOf(s))) == Reloaded(ViewOf(s))
    ensures Loaded(s.env, DiskOf(s)).nTried == s.nTried && Loaded(s.env, DiskOf(s)).key == s.key
    ensures ViewSized(ViewOf(Loaded(s.env, DiskOf(s)))) <==> ViewSized(ViewOf(s))
  {
    ReloadedSized(ViewOf(s));
    ReadEntries(s);
    Relisted(s);
    ListingDone(s, AfterTried(s.env, DiskOf(s)), Loaded(s.env, DiskOf(s)));
  }

  /** Reading the buckets back lists every new entry where it was listed. */
  lemma Relisted(s: State)
    requires Core(s) && Readable(DiskOf(s)) && Partial(s, AfterTried(s.env, DiskOf(s)), |Order(s)|)
    ensures Listing(s, AfterTried(s.env, DiskOf(s)), Loaded(s.env, DiskOf(s)), s.vvNew)
  {
    RelistedFrom(s, AfterTried(s.env, DiskOf(s)), DiskOf(s).buckets);
  }

  lemma RelistedFrom(s: State, st0: State, buckets: seq<seq<nat>>)
    requires Core(s) && Partial(s, st0, |Order(s)|) && BucketsWritten(s, buckets) && |buckets| == |s.vvNew|
    ensures Listing(s, st0, ReadBuckets(st0, buckets, true), s.vvNew)
  {
    NothingListed(s, st0);
    AllBuckets(s.vvNew);
    AllRead(s, st0);
    ReadBucketsOk(s, st0, buckets);
  }

  lemma AllBuckets(vvNew: seq<set<nat>>)
    ensures FirstBuckets(vvNew, |vvNew|) == vvNew
  {
  }

  lemma AllRead(s: State, st: State)
    requires Partial(s, st, |Order(s)|)
    ensures forall k: nat :: k < |Order(s)| ==> k in st.mapInfo
  {
  }
}
