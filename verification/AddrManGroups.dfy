/** How much of the tried table one group of addresses can take, and how much the manager can know at all. */
module AddrManGroups {
  import opened AddrManState
  import opened AddrManSteps
  import opened AddrMan
  import opened AddrManRuns
  import AddrManBuckets

  // ---------------------------------------------------------------- the buckets of a group

  /** The tried bucket that a group has for each of four choices. */
  ghost function GroupBucket(env: Env, key: seq<nat>, group: seq<nat>, r: nat): (b: nat)
    ensures b < 64
  {
    env.hash64(Prefixed(key) + Prefixed(group) + [r]) % 64
  }

  /** Which of the four a service takes, by its address and port. */
  ghost function Choice(env: Env, key: seq<nat>, service: Service): (r: nat)
    ensures r < 4
  {
    env.hash64(Prefixed(key) + Prefixed(service.Key())) % 4
  }

  lemma TriedBucketIs(env: Env, key: seq<nat>, service: Service)
    ensures GetTriedBucket(env, key, service) == GroupBucket(env, key, env.group(service.net), Choice(env, key, service))
  {
  }

  /** A vector written with its length in front can be told from what follows it. */
  lemma PrefixedApart(u: seq<nat>, u': seq<nat>, t: seq<nat>, t': seq<nat>)
    requires Prefixed(u) + t == Prefixed(u') + t'
    ensures u == u' && t == t'
  {
    var w, w' := Prefixed(u) + t, Prefixed(u') + t';
    assert w[0] == |u| && w'[0] == |u'|;
    assert u == w[1..|u| + 1] && u' == w'[1..|u'| + 1];
    assert t == w[|u| + 1..] && t' == w'[|u'| + 1..];
  }

  /** Services are told apart by what is hashed of them. */
  lemma KeyApart(s: Service, t: Service)
    requires |s.net.ip| == |t.net.ip| && s.Key() == t.Key()
    ensures s == t
  {
    var n := |s.net.ip|;
    assert s.net.ip == s.Key()[..n] && t.net.ip == t.Key()[..n];
    assert s.Key()[n] == s.port / 0x100 && s.Key()[n + 1] == s.port % 0x100;
    assert t.Key()[n] == t.port / 0x100 && t.Key()[n + 1] == t.port % 0x100;
    assert s.port == 0x100 * (s.port / 0x100) + s.port % 0x100;
    assert t.port == 0x100 * (t.port / 0x100) + t.port % 0x100;
  }

  ghost function BucketsFor(env: Env, key: seq<nat>, services: set<Service>): set<nat> {
    set s | s in services :: GetTriedBucket(env, key, s)
  }

  /** For every hash, key and grouping: the services of one group reach at most four tried buckets. */
  lemma GroupReach(env: Env, key: seq<nat>, services: set<Service>, group: seq<nat>)
    requires forall s :: s in services ==> env.group(s.net) == group
    ensures |BucketsFor(env, key, services)| <= 4
  {
    var four := {GroupBucket(env, key, group, 0), GroupBucket(env, key, group, 1), GroupBucket(env, key, group, 2), GroupBucket(env, key, group, 3)};
    forall b | b in BucketsFor(env, key, services) ensures b in four {
      var s :| s in services && GetTriedBucket(env, key, s) == b;
      TriedBucketIs(env, key, s);
    }
    Subset(BucketsFor(env, key, services), four);
  }

  lemma Subset<T>(a: set<T>, b: set<T>)
    requires a <= b
    ensures |a| <= |b|
  {
    assert b == a + (b - a);
  }

  // ---------------------------------------------------------------- the addresses of a group

  /** Entries are filed under their address, and no tried bucket is overfull. */
  ghost predicate Filed(env: Env, key: seq<nat>, v: View) {
    && (forall a :: a in v ==> v[a].service.net == a)
    && forall k: nat :: k < 64 ==> |TriedListed(env, key, v, k)| <= 64
  }

  ghost function TriedOf(env: Env, v: View, group: seq<nat>): set<NetAddr> {
    set a | a in v && v[a].inTried && env.group(a) == group
  }

  /** The tried addresses of a group with a choice below n. */
  ghost function TriedBelow(env: Env, key: seq<nat>, v: View, group: seq<nat>, n: nat): set<NetAddr> {
    set a | a in TriedOf(env, v, group) && Choice(env, key, v[a].service) < n
  }

  lemma {:induction false} TriedBelowBound(env: Env, key: seq<nat>, v: View, group: seq<nat>, n: nat)
    requires Filed(env, key, v)
    ensures |TriedBelow(env, key, v, group, n)| <= 64 * n
  {
    if n == 0 {
      assert TriedBelow(env, key, v, group, n) == {};
    } else {
      TriedBelowBound(env, key, v, group, n - 1);
      var b := GroupBucket(env, key, group, n - 1);
      var all, before := TriedBelow(env, key, v, group, n), TriedBelow(env, key, v, group, n - 1);
      forall a | a in all && a !in before ensures a in TriedListed(env, key, v, b) {
        TriedBucketIs(env, key, v[a].service);
      }
      Subset(all, before + TriedListed(env, key, v, b));
      UnionSize(before, TriedListed(env, key, v, b));
    }
  }

  lemma UnionSize(a: set<NetAddr>, b: set<NetAddr>)
    ensures |a + b| <= |a| + |b|
  {
  }

  lemma GroupBound(env: Env, key: seq<nat>, v: View, group: seq<nat>)
    requires Filed(env, key, v)
    ensures |TriedOf(env, v, group)| <= 4 * 64
  {
    TriedBelowBound(env, key, v, group, 4);
    assert TriedBelow(env, key, v, group, 4) == TriedOf(env, v, group);
  }

  /** Whenever the tables are consistent, at most 4 * 64 addresses of a group are tried. */
  lemma ConsistentGroups(s: State, group: seq<nat>)
    requires Core(s)
    ensures |TriedOf(s.env, ViewOf(s), group)| <= 4 * 64
  {
    forall k: nat | k < 64 ensures |TriedListed(s.env, s.key, ViewOf(s), k)| <= 64 {
      TriedListedCount(s, k);
    }
    GroupBound(s.env, s.key, ViewOf(s), group);
  }

  // ---------------------------------------------------------------- runs

  lemma FewerTried(env: Env, key: seq<nat>, v: View, v': View)
    requires Filed(env, key, v)
    requires forall a :: a in v' ==> v'[a].service.net == a
    requires forall a :: a in v' && v'[a].inTried ==> a in v && v[a].inTried && v'[a].service == v[a].service
    ensures Filed(env, key, v')
  {
    forall k: nat | k < 64 ensures |TriedListed(env, key, v', k)| <= 64 {
      Subset(TriedListed(env, key, v', k), TriedListed(env, key, v, k));
    }
  }

  lemma PlaceFiled(env: Env, key: seq<nat>, v: View, v': View, a: NetAddr, b: nat, now: int)
    requires Filed(env, key, v) && PlaceEffect(v, v', a, b, now)
    ensures Filed(env, key, v')
  {
    if b !in v[a].newBuckets {
      var v1 :| RoomEffect(v, v1, b, now) && v' == Relisted(v1, a, v[a].newBuckets + {b});
      RoomKeeps(v, v1, b, now);
      FewerTried(env, key, v, v');
    }
  }

  lemma AddFiled(env: Env, key: seq<nat>, v: View, v': View, addr: Address, source: NetAddr, penalty: int, now: int, rnd: nat, fNew: bool)
    requires Filed(env, key, v) && AddEffect(env, key, v, v', addr, source, penalty, now, rnd, fNew)
    ensures Filed(env, key, v')
  {
    var a := addr.service.net;
    if env.routable(a) {
      var e := if a in v then RefreshedEntry(v[a], addr, penalty, now) else FreshEntry(addr, source, penalty);
      FewerTried(env, key, v, v[a := e]);
      if v' != v[a := e] {
        PlaceFiled(env, key, v[a := e], v', a, GetNewBucket(env, key, a, source), now);
      }
    }
  }

  lemma PromotedFiled(env: Env, key: seq<nat>, v: View, a: NetAddr, b: nat)
    requires Filed(env, key, v) && a in v && b == GetTriedBucket(env, key, v[a].service) && |TriedListed(env, key, v, b)| < 64
    ensures Filed(env, key, Tried(v, a))
  {
    forall k: nat | k < 64 ensures |TriedListed(env, key, Tried(v, a), k)| <= 64 {
      assert TriedListed(env, key, Tried(v, a), k) <= TriedListed(env, key, v, k) + if k == b then {a} else {};
      Subset(TriedListed(env, key, Tried(v, a), k), TriedListed(env, key, v, k) + if k == b then {a} else {});
    }
  }

  lemma ExchangedFiled(env: Env, key: seq<nat>, v: View, a: NetAddr, b: nat, w: NetAddr, c: nat)
    requires Filed(env, key, v) && a in v && b == GetTriedBucket(env, key, v[a].service) && !v[a].inTried
    requires w in TriedListed(env, key, v, b)
    ensures Filed(env, key, Untried(Tried(v, a), w, c))
  {
    var v' := Untried(Tried(v, a), w, c);
    forall k: nat | k < 64 ensures |TriedListed(env, key, v', k)| <= 64 {
      var was := TriedListed(env, key, v, k);
      ExchangedListed(env, key, v, v', a, b, w, c, k);
      Subset(TriedListed(env, key, v', k), if k == b then was - {w} + {a} else was);
    }
  }

  lemma ExchangedListed(env: Env, key: seq<nat>, v: View, v': View, a: NetAddr, b: nat, w: NetAddr, c: nat, k: nat)
    requires a in v && b == GetTriedBucket(env, key, v[a].service) && !v[a].inTried && w in v && v[w].inTried
    requires v' == Untried(Tried(v, a), w, c)
    ensures var was := TriedListed(env, key, v, k);
            TriedListed(env, key, v', k) <= if k == b then was - {w} + {a} else was
  {
    forall x | x in TriedListed(env, key, v', k) ensures x == a || x in TriedListed(env, key, v, k) - {w} {
      assert x != w && x != a ==> v'[x] == v[x];
    }
  }

  /** An address goes into a bucket with room, or into the place of another one of its bucket. */
  lemma MakeTriedFiled(env: Env, key: seq<nat>, v: View, v': View, a: NetAddr, origin: nat)
    requires Filed(env, key, v) && MakeTriedEffect(env, key, v, v', a, origin) && !v[a].inTried
    ensures Filed(env, key, v')
  {
    var b := GetTriedBucket(env, key, v[a].service);
    if |TriedListed(env, key, v, b)| < 64 {
      PromotedFiled(env, key, v, a, b);
    } else {
      var w :| w in TriedListed(env, key, v, b) && EvictEffect(env, key, v, v', a, origin, w);
      var home := GetNewBucket(env, key, w, v[w].source);
      ExchangedFiled(env, key, v, a, b, w, if |Listed(Tried(v, a), home)| < NEW_BUCKET_SIZE then home else origin);
    }
  }

  lemma GoodFiled(env: Env, key: seq<nat>, v: View, v': View, service: Service, nTime: int)
    requires Filed(env, key, v) && GoodEffect(env, key, v, v', service, nTime)
    ensures Filed(env, key, v')
  {
    if Known(v, service) {
      var a := service.net;
      var v1 := v[a := Succeeded(v[a], nTime)];
      FewerTried(env, key, v, v1);
      if !v[a].inTried {
        var origin :| origin in v[a].newBuckets && MakeTriedEffect(env, key, v1, v', a, origin);
        MakeTriedFiled(env, key, v1, v', a, origin);
      }
    }
  }

  lemma EffectFiled(env: Env, key: seq<nat>, v: View, op: Op, v': View)
    requires Filed(env, key, v) && Effect(env, key, v, op, v')
    ensures Filed(env, key, v')
  {
    match op
    case OpAdd(addr, source, penalty, now, rnd) =>
      var fNew :| AddEffect(env, key, v, v', addr, source, penalty, now, rnd, fNew);
      AddFiled(env, key, v, v', addr, source, penalty, now, rnd, fNew);
    case OpGood(service, nTime) =>
      GoodFiled(env, key, v, v', service, nTime);
    case OpAttempt(service, nTime) =>
      FewerTried(env, key, v, v');
    case OpConnected(service, nTime) =>
      FewerTried(env, key, v, v');
    case OpGetAddr =>
  }

  lemma {:induction false} RunFiled(env: Env, key: seq<nat>, views: seq<View>, ops: seq<Op>, k: nat)
    requires Runs(env, key, views, ops) && views[0] == map[] && k < |views|
    ensures Filed(env, key, views[k])
  {
    if k == 0 {
      forall b: nat ensures TriedListed(env, key, views[0], b) == {} {
      }
    } else {
      RunFiled(env, key, views, ops, k - 1);
      EffectFiled(env, key, views[k - 1], ops[k - 1], views[k - 1 + 1]);
    }
  }

  /** In every state of every run from an empty manager, at most 4 * 64 addresses of a group are tried. */
  lemma RunGroups(env: Env, key: seq<nat>, views: seq<View>, ops: seq<Op>, k: nat, group: seq<nat>)
    requires Runs(env, key, views, ops) && views[0] == map[] && k < |views|
    ensures |TriedOf(env, views[k], group)| <= 4 * 64
  {
    RunFiled(env, key, views, ops, k);
    GroupBound(env, key, views[k], group);
  }

  // ---------------------------------------------------------------- all there is room for

  ghost function Union(buckets: seq<set<nat>>): set<nat> {
    if buckets == [] then {} else Union(buckets[..|buckets| - 1]) + buckets[|buckets| - 1]
  }

  lemma {:induction false} UnionBound(buckets: seq<set<nat>>)
    requires forall b :: 0 <= b < |buckets| ==> |buckets[b]| <= 64
    ensures |Union(buckets)| <= 64 * |buckets|
  {
    if buckets != [] {
      UnionBound(buckets[..|buckets| - 1]);
    }
  }

  lemma {:induction false} UnionHas(buckets: seq<set<nat>>, b: nat, n: nat)
    requires b < |buckets| && n in buckets[b]
    ensures n in Union(buckets)
  {
    if b < |buckets| - 1 {
      UnionHas(buckets[..|buckets| - 1], b, n);
    }
  }

  /** The ids in each tried bucket. */
  ghost function IdSets(vvTried: seq<seq<nat>>): (r: seq<set<nat>>)
    ensures |r| == |vvTried| && forall k :: 0 <= k < |r| ==> forall n :: n in r[k] <==> n in vvTried[k]
  {
    seq(|vvTried|, k requires 0 <= k < |vvTried| => set n | n in vvTried[k])
  }

  lemma TriedRoom(s: State)
    requires Core(s)
    ensures |TriedIds(s.mapInfo)| <= 64 * 64
  {
    var sets := IdSets(s.vvTried);
    forall k | 0 <= k < |sets| ensures |sets[k]| <= 64 {
      DistinctCount(s.vvTried[k], sets[k]);
    }
    forall n | n in TriedIds(s.mapInfo) ensures n in Union(sets) {
      UnionHas(sets, GetTriedBucket(s.env, s.key, s.mapInfo[n].service), n);
    }
    UnionBound(sets);
    Subset(TriedIds(s.mapInfo), Union(sets));
  }

  lemma NewRoom(s: State)
    requires Core(s) && ViewSized(ViewOf(s))
    ensures |NewIds(s.mapInfo)| <= 256 * 64
  {
    forall b | 0 <= b < |s.vvNew| ensures |s.vvNew[b]| <= 64 {
      ListedCount(s, {}, b);
    }
    forall n | n in NewIds(s.mapInfo) ensures n in Union(s.vvNew) {
      assert CountOk(s.mapInfo[n], s.vvNew, n, 0);
      assert BucketsOf(s.vvNew, n) != {};
      var b :| b in BucketsOf(s.vvNew, n);
      UnionHas(s.vvNew, b, n);
    }
    UnionBound(s.vvNew);
    Subset(NewIds(s.mapInfo), Union(s.vvNew));
  }

  /** After any run from an empty manager at most 64 * 64 addresses are tried and at most 256 * 64 are new, and each
      new one is in one to four buckets. */
  lemma RunCapacity(env: Env, key: seq<nat>, s: State, views: seq<View>, ops: seq<Op>)
    requires Ran(env, key, s, views, ops)
    ensures s.nTried <= 64 * 64 && s.nNew <= 256 * 64 && |ViewOf(s)| == s.nTried + s.nNew
    ensures forall a :: a in ViewOf(s) && !ViewOf(s)[a].inTried ==> 1 <= |ViewOf(s)[a].newBuckets| <= 4
  {
    AddrManBuckets.RunSized(env, key, views, ops, |ops|);
    TriedRoom(s);
    NewRoom(s);
    RandomCount(s.mapInfo, s.vRandom);
    AddrMan.KnownCount(s);
    forall a | a in ViewOf(s) && !ViewOf(s)[a].inTried ensures 1 <= |ViewOf(s)[a].newBuckets| <= 4 {
      assert CountOk(s.mapInfo[s.mapAddr[a]], s.vvNew, s.mapAddr[a], 0);
    }
  }
}
