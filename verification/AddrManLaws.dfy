/** What hearing of an address and a success change, said in numbers, without the functions the manager computes with. */
module AddrManLaws {
  import opened AddrManState
  import opened AddrManSteps
  import opened AddrMan
  import opened AddrManRuns

  // ---------------------------------------------------------------- hearing of a known address

  /** A set of service flags has one of the given flags. */
  ghost predicate Offers(services: bv64, flags: bv64) {
    services & flags != 0
  }

  lemma Distributes(s: bv64, t: bv64, flags: bv64)
    ensures (s | t) & flags == (s & flags) | (t & flags)
  {
  }

  lemma BothZero(x: bv64, y: bv64)
    ensures x | y == 0 <==> x == 0 && y == 0
  {
  }

  /** The services are those of both and no others. */
  ghost predicate Together(s: bv64, t: bv64, u: bv64) {
    forall flags :: Offers(u, flags) <==> Offers(s, flags) || Offers(t, flags)
  }

  lemma OrTogether(s: bv64, t: bv64)
    ensures Together(s, t, s | t)
  {
    forall flags ensures Offers(s | t, flags) <==> Offers(s, flags) || Offers(t, flags) {
      Distributes(s, t, flags);
      BothZero(s & flags, t & flags);
    }
  }

  /** A recorded time is to be replaced: there is none, or it is too far behind the one heard, by an hour for an
      address seen in the last day and by a day otherwise. */
  ghost predicate Outdated(recorded: nat, heard: nat, penalty: int, now: int) {
    heard != 0 && (recorded == 0 || recorded + penalty + (if now - heard >= 86400 then 86400 else 3600) < heard)
  }

  /** The time heard, less the penalty and not below zero, in 32 bits. */
  ghost function Penalized(heard: nat, penalty: int): (t: nat)
    ensures penalty >= heard ==> t == 0
    ensures 0 <= penalty <= heard < 0x1_0000_0000 ==> t == heard - penalty
  {
    if penalty >= heard then 0 else (heard - penalty) % 0x1_0000_0000
  }

  /** What is known of an address that was known before. */
  ghost predicate Refreshment(e: Entry, e': Entry, addr: Address, penalty: int, now: int) {
    && Together(e.nServices, addr.nServices, e'.nServices)
    && e'.nTime == (if Outdated(e.nTime, addr.nTime, penalty, now) then Penalized(addr.nTime, penalty) else e.nTime)
    && e'.service == e.service && e'.source == e.source && e'.inTried == e.inTried
    && e'.nLastTry == e.nLastTry && e'.nLastSuccess == e.nLastSuccess && e'.nAttempts == e.nAttempts
  }

  lemma RefreshedLaw(e: Entry, addr: Address, penalty: int, now: int)
    ensures Refreshment(e, RefreshedEntry(e, addr, penalty, now), addr, penalty, now)
    ensures RefreshedEntry(e, addr, penalty, now).newBuckets == e.newBuckets
  {
    OrTogether(e.nServices, addr.nServices);
  }

  /** There is news, the address is not tried, it is in less than four buckets, and of two to the power of these
      the random number hits one. */
  ghost predicate GetsBucket(e': Entry, known: set<nat>, heard: nat, rnd: nat) {
    && heard != 0 && (e'.nTime == 0 || e'.nTime < heard) && !e'.inTried
    && (|known| == 0 || (|known| == 1 && rnd % 2 == 0) || (|known| == 2 && rnd % 4 == 0) || (|known| == 3 && rnd % 8 == 0))
  }

  lemma LuckyLaw(refs: nat, rnd: nat)
    ensures Lucky(refs, rnd) <==>
              refs == 0 || (refs == 1 && rnd % 2 == 0) || (refs == 2 && rnd % 4 == 0) || (refs == 3 && rnd % 8 == 0)
  {
    assert Odds(0) == 1 && Odds(1) == 2 && Odds(2) == 4 && Odds(3) == 8;
  }

  /** From v to v', entries may have lost their place in bucket b and nothing else. */
  ghost predicate Thinned(v: View, v': View, b: nat) {
    forall x :: x in v' ==> x in v && v'[x] == v[x].(newBuckets := v'[x].newBuckets)
                            && (v'[x].newBuckets == v[x].newBuckets || v'[x].newBuckets == v[x].newBuckets - {b})
  }

  lemma RoomThins(v: View, v': View, b: nat, now: int)
    requires RoomEffect(v, v', b, now)
    ensures Thinned(v, v', b)
  {
    if |Listed(v, b)| == NEW_BUCKET_SIZE {
      var w :| w in Listed(v, b) && ForgetEffect(v, v', b, now, w);
    }
  }

  /** Getting a place in a bucket changes nothing else of the address, and of others at most their place there. */
  lemma PlaceLaw(v: View, v': View, a: NetAddr, b: nat, now: int)
    requires PlaceEffect(v, v', a, b, now)
    ensures a in v' && v'[a] == v[a].(newBuckets := v[a].newBuckets + {b})
    ensures Thinned(v - {a}, v' - {a}, b)
  {
    if b in v[a].newBuckets {
      assert v[a].newBuckets + {b} == v[a].newBuckets;
    } else {
      var v1 :| RoomEffect(v, v1, b, now) && v' == Relisted(v1, a, v[a].newBuckets + {b});
      RoomThins(v, v1, b, now);
      RoomKeeps(v, v1, b, now);
    }
  }

  /** Hearing of a known address again: its services grow by those heard, its time moves exactly if it is outdated,
      it gets the bucket of the source exactly if there is news and luck, and nothing else of it changes. */
  lemma AddKnownLaw(env: Env, key: seq<nat>, v: View, v': View, addr: Address, source: NetAddr, penalty: int, now: int, rnd: nat, fNew: bool)
    requires AddEffect(env, key, v, v', addr, source, penalty, now, rnd, fNew)
    requires env.routable(addr.service.net) && addr.service.net in v
    ensures !fNew && HeardAgain(v, v', addr, penalty, now, rnd, GetNewBucket(env, key, addr.service.net, source))
  {
    var a := addr.service.net;
    var b := GetNewBucket(env, key, a, source);
    var e := RefreshedEntry(v[a], addr, penalty, now);
    RefreshedLaw(v[a], addr, penalty, now);
    LuckyLaw(|e.newBuckets|, rnd);
    if GetsBucket(e, v[a].newBuckets, addr.nTime, rnd) {
      PlaceLaw(v[a := e], v', a, b, now);
      assert v[a := e] - {a} == v - {a};
    } else {
      assert v' - {a} == v - {a};
    }
  }

  /** What hearing of a known address does, b being the bucket of the source. */
  ghost predicate HeardAgain(v: View, v': View, addr: Address, penalty: int, now: int, rnd: nat, b: nat)
    requires addr.service.net in v
  {
    var a := addr.service.net;
    && a in v' && Refreshment(v[a], v'[a], addr, penalty, now) && Thinned(v - {a}, v' - {a}, b)
    && if GetsBucket(v'[a], v[a].newBuckets, addr.nTime, rnd) then v'[a].newBuckets == v[a].newBuckets + {b}
       else v'[a].newBuckets == v[a].newBuckets && v' - {a} == v - {a}
  }

  /** Without a penalty an address whose time is refreshed keeps its set of buckets. */
  lemma RefreshedStays(env: Env, key: seq<nat>, v: View, v': View, addr: Address, source: NetAddr, now: int, rnd: nat, fNew: bool)
    requires AddEffect(env, key, v, v', addr, source, 0, now, rnd, fNew)
    requires env.routable(addr.service.net) && addr.service.net in v && addr.nTime < 0x1_0000_0000
    requires Outdated(v[addr.service.net].nTime, addr.nTime, 0, now)
    ensures var a := addr.service.net;
            a in v' && v'[a].nTime == addr.nTime && v'[a].newBuckets == v[a].newBuckets && v' - {a} == v - {a}
  {
    AddKnownLaw(env, key, v, v', addr, source, 0, now, rnd, fNew);
  }

  /** A new address is known as it was heard, with the time less the penalty, untried, in the bucket of the source. */
  lemma AddNewLaw(env: Env, key: seq<nat>, v: View, v': View, addr: Address, source: NetAddr, penalty: int, now: int, rnd: nat, fNew: bool)
    requires AddEffect(env, key, v, v', addr, source, penalty, now, rnd, fNew)
    requires env.routable(addr.service.net) && addr.service.net !in v
    ensures var a := addr.service.net;
            && fNew && a in v'
            && v'[a] == Entry(addr.service, addr.nServices, Penalized(addr.nTime, penalty), 0, source, 0, 0, false,
                              {GetNewBucket(env, key, a, source)})
            && Thinned(v - {a}, v' - {a}, GetNewBucket(env, key, a, source))
  {
    var a := addr.service.net;
    PlaceLaw(v[a := FreshEntry(addr, source, penalty)], v', a, GetNewBucket(env, key, a, source), now);
    assert v[a := FreshEntry(addr, source, penalty)] - {a} == v - {a};
  }

  // ---------------------------------------------------------------- a success

  /** Becoming tried costs an address its new buckets, and one other address at most its tried place. */
  lemma MakeTriedLaw(env: Env, key: seq<nat>, v: View, v': View, a: NetAddr, origin: nat)
    requires MakeTriedEffect(env, key, v, v', a, origin) && !v[a].inTried
    ensures v'.Keys == v.Keys && v'[a] == v[a].(inTried := true, newBuckets := {})
    ensures v' - {a} == v - {a} || exists w :: Demotes(v - {a}, v' - {a}, w)
  {
    if v' == Tried(v, a) {
      assert v' - {a} == v - {a};
    } else {
      var w :| w in TriedListed(env, key, v, GetTriedBucket(env, key, v[a].service)) && EvictEffect(env, key, v, v', a, origin, w);
      var home := GetNewBucket(env, key, w, v[w].source);
      ExchangeDemotes(v, v', a, w, if |Listed(Tried(v, a), home)| < NEW_BUCKET_SIZE then home else origin);
    }
  }

  lemma ExchangeDemotes(v: View, v': View, a: NetAddr, w: NetAddr, c: nat)
    requires a in v && w in v && a != w && v[w].inTried && v' == Untried(Tried(v, a), w, c)
    ensures v'.Keys == v.Keys && v'[a] == v[a].(inTried := true, newBuckets := {}) && Demotes(v - {a}, v' - {a}, w)
  {
    var u, u' := v - {a}, v' - {a};
    assert u' - {w} == u - {w};
    assert u'[w] == v'[w] == v[w].(inTried := false, newBuckets := {c});
  }

  /** After a success of a known service its times are those of the success, it has no failures and is tried; one
      other address at most is changed, and that only loses its tried place. */
  lemma GoodLaw(env: Env, key: seq<nat>, v: View, v': View, service: Service, nTime: int)
    requires GoodEffect(env, key, v, v', service, nTime) && TriedApart(v) && Known(v, service)
    ensures var a := service.net;
            && v'.Keys == v.Keys
            && v'[a] == Entry(v[a].service, v[a].nServices, nTime % 0x1_0000_0000, nTime, v[a].source, nTime, 0, true, {})
            && (v' - {a} == v - {a} || exists w :: Demotes(v - {a}, v' - {a}, w))
  {
    var a := service.net;
    var v1 := v[a := Succeeded(v[a], nTime)];
    assert v1 - {a} == v - {a};
    if !v[a].inTried {
      var origin :| origin in v[a].newBuckets && MakeTriedEffect(env, key, v1, v', a, origin);
      MakeTriedLaw(env, key, v1, v', a, origin);
    }
  }

  /** From v to v' only w has changed: it was tried and is now in one new bucket. */
  ghost predicate Demotes(v: View, v': View, w: NetAddr) {
    && w in v && w in v' && v[w].inTried && v' - {w} == v - {w}
    && v'[w] == v[w].(inTried := false, newBuckets := v'[w].newBuckets) && |v'[w].newBuckets| == 1
  }

  // ---------------------------------------------------------------- what is not worth keeping

  /** An entry is worth keeping for a minute after a try, and otherwise not if its time is more than ten minutes
      ahead, missing or more than thirty days old, if three attempts never succeeded, or if ten have failed since a
      success more than a week ago. */
  lemma TerribleExactly(i: Info, now: int)
    ensures IsTerrible(i, now) <==>
            && (i.nLastTry == 0 || i.nLastTry + 60 < now)
            && (|| i.nTime == 0 || i.nTime > now + 600 || i.nTime + 2592000 < now
                || (i.nLastSuccess == 0 && i.nAttempts >= 3) || (i.nLastSuccess + 604800 < now && i.nAttempts >= 10))
  {
  }

  /** Unless its time was ahead, an entry that is not worth keeping never gets better by waiting. */
  lemma StaysTerrible(i: Info, now: int, later: int)
    requires IsTerrible(i, now) && i.nTime <= now + 600 && now <= later
    ensures IsTerrible(i, later)
  {
    TerribleExactly(i, now);
    TerribleExactly(i, later);
  }
}
