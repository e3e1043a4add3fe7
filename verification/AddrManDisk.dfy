/** Saving the address manager and loading it back. */
module AddrManDisk {
  import opened AddrManState

  /** The fields of an entry that are written out. */
  datatype Saved = Saved(service: Service, nServices: bv64, nTime: nat, source: NetAddr, nLastSuccess: int, nAttempts: int)

  /** The records of the file, in the order they are written. */
  datatype Disk = Disk(nVersion: nat, key: seq<nat>, nNew: int, nTried: int, nUBuckets: nat,
                       newInfos: seq<Saved>, triedInfos: seq<Saved>, buckets: seq<seq<nat>>)

  function SavedOf(i: Info): Saved {
    Saved(i.service, i.nServices, i.nTime, i.source, i.nLastSuccess, i.nAttempts)
  }

  /** A freshly read entry: what was not written starts from its initial value. */
  function InfoOf(r: Saved): Info {
    Info(r.service, r.nServices, r.nTime, 0, r.source, r.nLastSuccess, r.nAttempts, 0, false, -1)
  }

  // ---------------------------------------------------------------- what is written

  /** The ids below upTo of the tried or of the new entries, in order. */
  function Select(info: map<nat, Info>, tried: bool, upTo: nat): (ids: seq<nat>) {
    if upTo == 0 then []
    else
      var n := upTo - 1;
      Select(info, tried, n) + if n in info && info[n].fInTried == tried then [n] else []
  }

  function Records(info: map<nat, Info>, ids: seq<nat>): seq<Saved>
    requires forall i :: 0 <= i < |ids| ==> ids[i] in info
  {
    seq(|ids|, i requires 0 <= i < |ids| => SavedOf(info[ids[i]]))
  }

  /** The members of a bucket below upTo, in order. */
  function Members(bucket: set<nat>, upTo: nat): (ids: seq<nat>) {
    if upTo == 0 then []
    else Members(bucket, upTo - 1) + if upTo - 1 in bucket then [upTo - 1] else []
  }

  /** The number under which a new entry is written: how many new entries precede it. */
  function Rank(info: map<nat, Info>, n: nat): nat { |Select(info, false, n)| }

  function Ranks(info: map<nat, Info>, ids: seq<nat>): (ranks: seq<nat>) {
    seq(|ids|, i requires 0 <= i < |ids| => Rank(info, ids[i]))
  }

  lemma {:induction false} SelectExact(info: map<nat, Info>, tried: bool, upTo: nat)
    ensures var ids := Select(info, tried, upTo);
            && (forall n :: n in ids <==> n < upTo && n in info && info[n].fInTried == tried)
            && (forall i, j :: 0 <= i < j < |ids| ==> ids[i] < ids[j])
  {
    if upTo > 0 {
      SelectExact(info, tried, upTo - 1);
      var rest, ids := Select(info, tried, upTo - 1), Select(info, tried, upTo);
      forall n ensures n in ids <==> n < upTo && n in info && info[n].fInTried == tried {
        assert n in ids <==> n in rest || (n == upTo - 1 && n in info && info[n].fInTried == tried);
      }
      forall i, j | 0 <= i < j < |ids| ensures ids[i] < ids[j] {
        assert ids[i] == rest[i] && rest[i] in rest;
      }
    }
  }

  lemma {:induction false} MembersExact(bucket: set<nat>, upTo: nat)
    ensures var ids := Members(bucket, upTo);
            && (forall n :: n in ids <==> n < upTo && n in bucket)
            && (forall i, j :: 0 <= i < j < |ids| ==> ids[i] < ids[j])
  {
    if upTo > 0 {
      MembersExact(bucket, upTo - 1);
      var rest, ids := Members(bucket, upTo - 1), Members(bucket, upTo);
      forall n ensures n in ids <==> n < upTo && n in bucket {
        assert n in ids <==> n in rest || (n == upTo - 1 && n in bucket);
      }
      forall i, j | 0 <= i < j < |ids| ensures ids[i] < ids[j] {
        assert ids[i] == rest[i] && rest[i] in rest;
      }
    }
  }

  /** A new entry is written in the place its rank names. */
  lemma {:induction false} RankPlace(info: map<nat, Info>, n: nat, upTo: nat)
    requires n in info && !info[n].fInTried && n < upTo
    ensures Rank(info, n) < |Select(info, false, upTo)|
    ensures Select(info, false, upTo)[Rank(info, n)] == n
    decreases upTo
  {
    if n < upTo - 1 {
      RankPlace(info, n, upTo - 1);
    }
  }

  ghost function DiskOf(s: State): Disk {
    SelectExact(s.mapInfo, false, s.nIdCount);
    SelectExact(s.mapInfo, true, s.nIdCount);
    Disk(0, s.key, s.nNew, s.nTried, NEW_BUCKET_COUNT,
         Records(s.mapInfo, Select(s.mapInfo, false, s.nIdCount)),
         Records(s.mapInfo, Select(s.mapInfo, true, s.nIdCount)),
         seq(|s.vvNew|, b requires 0 <= b < |s.vvNew| => Ranks(s.mapInfo, Members(s.vvNew[b], s.nIdCount))))
  }

  // ---------------------------------------------------------------- what is read

  function EmptyTried(): seq<seq<nat>> { seq(TRIED_BUCKET_COUNT, _ => []) }
  function EmptyNew(): seq<set<nat>> { seq(NEW_BUCKET_COUNT, _ => {}) }

  /** The tables as cleared before reading. */
  function Cleared(env: Env, d: Disk): State {
    State(env, d.key, 0, map[], map[], [], d.nTried, EmptyTried(), d.nNew, EmptyNew())
  }

  /** Reading the n-th new entry. When the number of buckets has changed it is rebucketed at once. */
  function ReadNew(s: State, n: nat, r: Saved, rebucket: bool): State
    requires |s.vvNew| == NEW_BUCKET_COUNT
  {
    var i := InfoOf(r).(nRandomPos := |s.vRandom|);
    var s1 := s.(mapAddr := s.mapAddr[r.service.net := n], vRandom := s.vRandom + [n]);
    if rebucket then
      var b := GetNewBucket(s.env, s.key, r.service.net, r.source);
      s1.(mapInfo := s.mapInfo[n := i.(nRefCount := 1)], vvNew := s.vvNew[b := s.vvNew[b] + {n}])
    else
      s1.(mapInfo := s.mapInfo[n := i])
  }

  function ReadNews(s: State, rs: seq<Saved>, rebucket: bool): (s': State)
    requires |s.vvNew| == NEW_BUCKET_COUNT
    ensures |s'.vvNew| == NEW_BUCKET_COUNT && s'.vvTried == s.vvTried
  {
    if rs == [] then s
    else ReadNew(ReadNews(s, rs[..|rs| - 1], rebucket), |rs| - 1, rs[|rs| - 1], rebucket)
  }

  predicate HasRoom(s: State, r: Saved)
    requires |s.vvTried| == TRIED_BUCKET_COUNT
  {
    |s.vvTried[GetTriedBucket(s.env, s.key, r.service)]| < TRIED_BUCKET_SIZE
  }

  /** Reading one tried entry; it is lost if its bucket is full. */
  function ReadTried(s: State, r: Saved): State
    requires |s.vvTried| == TRIED_BUCKET_COUNT
  {
    if !HasRoom(s, r) then s.(nTried := s.nTried - 1)
    else
      var k, n := GetTriedBucket(s.env, s.key, r.service), s.nIdCount;
      s.(nIdCount := n + 1,
         mapInfo := s.mapInfo[n := InfoOf(r).(nRandomPos := |s.vRandom|, fInTried := true)],
         mapAddr := s.mapAddr[r.service.net := n],
         vRandom := s.vRandom + [n],
         vvTried := s.vvTried[k := s.vvTried[k] + [n]])
  }

  function ReadTrieds(s: State, rs: seq<Saved>): (s': State)
    requires |s.vvTried| == TRIED_BUCKET_COUNT && |s.vvNew| == NEW_BUCKET_COUNT
    ensures |s'.vvTried| == TRIED_BUCKET_COUNT && |s'.vvNew| == NEW_BUCKET_COUNT
  {
    if rs == [] then s else ReadTried(ReadTrieds(s, rs[..|rs| - 1]), rs[|rs| - 1])
  }

  /** Reading one entry of new bucket b. Naming an unknown index creates a blank entry. */
  function ReadIndex(s: State, b: nat, n: nat, sameCount: bool): State
    requires sameCount ==> b < |s.vvNew|
  {
    var info := if n in s.mapInfo then s.mapInfo else s.mapInfo[n := BlankInfo()];
    if sameCount && info[n].nRefCount < NEW_BUCKETS_PER_ADDRESS then
      s.(mapInfo := info[n := info[n].(nRefCount := info[n].nRefCount + 1)], vvNew := s.vvNew[b := s.vvNew[b] + {n}])
    else
      s.(mapInfo := info)
  }

  function BlankInfo(): Info {
    InfoOf(Saved(Service(NetAddr([]), 0), 0, 0, NetAddr([]), 0, 0))
  }

  function ReadBucket(s: State, b: nat, ns: seq<nat>, sameCount: bool): (s': State)
    requires sameCount ==> b < |s.vvNew|
    ensures |s'.vvNew| == |s.vvNew|
  {
    if ns == [] then s else ReadIndex(ReadBucket(s, b, ns[..|ns| - 1], sameCount), b, ns[|ns| - 1], sameCount)
  }

  function ReadBuckets(s: State, buckets: seq<seq<nat>>, sameCount: bool): (s': State)
    requires sameCount ==> |buckets| <= |s.vvNew|
    ensures |s'.vvNew| == |s.vvNew|
  {
    if buckets == [] then s
    else
      var b := |buckets| - 1;
      ReadBucket(ReadBuckets(s, buckets[..b], sameCount), b, buckets[b], sameCount)
  }

  /** The file has as many records and listings as it says. */
  predicate Readable(d: Disk) {
    d.nNew == |d.newInfos| && d.nTried == |d.triedInfos| && d.nUBuckets == |d.buckets|
  }

  function AfterNew(env: Env, d: Disk): (s: State)
    requires Readable(d)
    ensures |s.vvTried| == TRIED_BUCKET_COUNT && |s.vvNew| == NEW_BUCKET_COUNT
  {
    ReadNews(Cleared(env, d), d.newInfos, d.nUBuckets != NEW_BUCKET_COUNT).(nIdCount := |d.newInfos|)
  }

  function AfterTried(env: Env, d: Disk): (s: State)
    requires Readable(d)
    ensures |s.vvNew| == NEW_BUCKET_COUNT
  {
    ReadTrieds(AfterNew(env, d), d.triedInfos)
  }

  function Loaded(env: Env, d: Disk): State
    requires Readable(d)
  {
    ReadBuckets(AfterTried(env, d), d.buckets, d.nUBuckets == NEW_BUCKET_COUNT)
  }
}
