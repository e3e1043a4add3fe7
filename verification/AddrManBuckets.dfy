/** How many addresses a new bucket lists: the bound that every operation keeps, and what happens beyond it. */
module AddrManBuckets {
  import opened AddrManState
  import opened AddrManSteps
  import opened AddrMan
  import opened AddrManRuns

  lemma AtMost(a: set<NetAddr>, b: set<NetAddr>)
    requires a <= b
    ensures |a| <= |b|
  {
    assert b == a + (b - a);
  }

  // ---------------------------------------------------------------- adding

  /** Making room takes at most one address out of the bucket, and touches no other bucket. */
  lemma RoomListed(v: View, v': View, b: nat, now: int)
    requires RoomEffect(v, v', b, now)
    ensures forall c: nat :: c != b ==> Listed(v', c) == Listed(v, c)
    ensures if |Listed(v, b)| == NEW_BUCKET_SIZE then Listed(v', b) < Listed(v, b) else v' == v
  {
    if |Listed(v, b)| == NEW_BUCKET_SIZE {
      var w :| w in Listed(v, b) && ForgetEffect(v, v', b, now, w);
      assert w !in Listed(v', b);
      forall c: nat | c != b ensures Listed(v', c) == Listed(v, c) {
      }
    }
  }

  lemma RelistedListed(v: View, a: NetAddr, b: nat)
    requires a in v
    ensures var v' := Relisted(v, a, v[a].newBuckets + {b});
            Listed(v', b) == Listed(v, b) + {a} && forall c: nat :: c != b ==> Listed(v', c) == Listed(v, c)
  {
  }

  lemma PlaceListed(v: View, v': View, a: NetAddr, b: nat, now: int)
    requires PlaceEffect(v, v', a, b, now)
    ensures forall c: nat :: c != b ==> Listed(v', c) == Listed(v, c)
    ensures |Listed(v, b)| <= NEW_BUCKET_SIZE ==> |Listed(v', b)| <= NEW_BUCKET_SIZE
    ensures |Listed(v, b)| != NEW_BUCKET_SIZE ==> Listed(v', b) == Listed(v, b) + {a}
  {
    if b in v[a].newBuckets {
      assert Listed(v, b) + {a} == Listed(v, b);
    } else {
      var v1 :| RoomEffect(v, v1, b, now) && v' == Relisted(v1, a, v[a].newBuckets + {b});
      RoomListed(v, v1, b, now);
      RoomKeeps(v, v1, b, now);
      RelistedListed(v1, a, b);
      if |Listed(v, b)| == NEW_BUCKET_SIZE {
        Fewer(Listed(v1, b), Listed(v, b));
      }
    }
  }

  lemma Fewer(a: set<NetAddr>, b: set<NetAddr>)
    requires a < b
    ensures |a| < |b|
  {
    var x :| x in b && x !in a;
    AtMost(a, b - {x});
  }

  /** An entry that is rewritten in place is listed where it was. */
  lemma RewrittenListed(v: View, v': View, a: NetAddr, e: Entry)
    requires v' == v[a := e] && if a in v then e.newBuckets == v[a].newBuckets else e.newBuckets == {}
    ensures forall c: nat :: Listed(v', c) == Listed(v, c)
  {
  }

  /** Adding an address changes only the listing of the bucket of its source: an exactly full bucket loses one
      address for it, and any other bucket only gains. */
  lemma AddListed(env: Env, key: seq<nat>, v: View, v': View, addr: Address, source: NetAddr, penalty: int, now: int, rnd: nat, fNew: bool)
    requires AddEffect(env, key, v, v', addr, source, penalty, now, rnd, fNew)
    ensures var a := addr.service.net;
            var b := GetNewBucket(env, key, a, source);
            && (forall c: nat :: c != b ==> Listed(v', c) == Listed(v, c))
            && (|Listed(v, b)| <= 64 ==> |Listed(v', b)| <= 64)
            && (|Listed(v, b)| != 64 ==> Listed(v, b) <= Listed(v', b) <= Listed(v, b) + {a})
            && (|Listed(v, b)| != 64 && fNew ==> Listed(v', b) == Listed(v, b) + {a})
  {
    var a := addr.service.net;
    var b := GetNewBucket(env, key, a, source);
    if env.routable(a) {
      var e := if a in v then RefreshedEntry(v[a], addr, penalty, now) else FreshEntry(addr, source, penalty);
      RewrittenListed(v, v[a := e], a, e);
      if a !in v || v' != v[a := e] {
        PlaceListed(v[a := e], v', a, b, now);
      }
    }
  }

  // ---------------------------------------------------------------- the bound

  lemma AddSized(env: Env, key: seq<nat>, v: View, v': View, addr: Address, source: NetAddr, penalty: int, now: int, rnd: nat, fNew: bool)
    requires ViewSized(v) && AddEffect(env, key, v, v', addr, source, penalty, now, rnd, fNew)
    ensures ViewSized(v')
  {
    AddListed(env, key, v, v', addr, source, penalty, now, rnd, fNew);
  }

  lemma RewrittenSized(v: View, v': View, a: NetAddr, e: Entry)
    requires ViewSized(v) && a in v && v' == v[a := e] && e.newBuckets == v[a].newBuckets
    ensures ViewSized(v')
  {
    RewrittenListed(v, v', a, e);
  }

  lemma TriedListing(v: View, a: NetAddr)
    requires a in v
    ensures forall c: nat :: Listed(Tried(v, a), c) == Listed(v, c) - {a}
  {
  }

  lemma UntriedListing(v: View, w: NetAddr, c: nat)
    requires w in v
    ensures Listed(Untried(v, w, c), c) == Listed(v, c) + {w}
    ensures forall d: nat :: d != c ==> Listed(Untried(v, w, c), d) <= Listed(v, d)
  {
  }

  /** There is always room for an evicted address: the bucket the other one came from has just lost that. */
  lemma MakeTriedSized(env: Env, key: seq<nat>, v: View, v': View, a: NetAddr, origin: nat)
    requires ViewSized(v) && MakeTriedEffect(env, key, v, v', a, origin) && origin in v[a].newBuckets
    ensures ViewSized(v')
  {
    var u := Tried(v, a);
    TriedListing(v, a);
    forall c: nat | c < NEW_BUCKET_COUNT ensures |Listed(u, c)| <= NEW_BUCKET_SIZE {
      AtMost(Listed(u, c), Listed(v, c));
    }
    if v' != u {
      var k := GetTriedBucket(env, key, v[a].service);
      var w :| w in TriedListed(env, key, v, k) && EvictEffect(env, key, v, v', a, origin, w);
      var home := GetNewBucket(env, key, w, v[w].source);
      var c := if |Listed(u, home)| < NEW_BUCKET_SIZE then home else origin;
      assert a in Listed(v, origin);
      UntriedListing(u, w, c);
      UntriedSized(u, v', w, c);
    }
  }

  lemma UntriedSized(u: View, v': View, w: NetAddr, c: nat)
    requires ViewSized(u) && (c < NEW_BUCKET_COUNT ==> |Listed(u, c)| < NEW_BUCKET_SIZE)
    requires Listed(v', c) == Listed(u, c) + {w} && forall d: nat :: d != c ==> Listed(v', d) <= Listed(u, d)
    ensures ViewSized(v')
  {
    forall d: nat | d < NEW_BUCKET_COUNT ensures |Listed(v', d)| <= NEW_BUCKET_SIZE {
      if d != c {
        AtMost(Listed(v', d), Listed(u, d));
      }
    }
  }

  lemma GoodSized(env: Env, key: seq<nat>, v: View, v': View, service: Service, nTime: int)
    requires ViewSized(v) && GoodEffect(env, key, v, v', service, nTime)
    ensures ViewSized(v')
  {
    if Known(v, service) {
      var a := service.net;
      var v1 := v[a := Succeeded(v[a], nTime)];
      RewrittenSized(v, v1, a, Succeeded(v[a], nTime));
      if !v[a].inTried {
        var origin :| origin in v[a].newBuckets && MakeTriedEffect(env, key, v1, v', a, origin);
        MakeTriedSized(env, key, v1, v', a, origin);
      }
    }
  }

  lemma EffectSized(env: Env, key: seq<nat>, v: View, op: Op, v': View)
    requires ViewSized(v) && Effect(env, key, v, op, v')
    ensures ViewSized(v')
  {
    match op
    case OpAdd(addr, source, penalty, now, rnd) =>
      var fNew :| AddEffect(env, key, v, v', addr, source, penalty, now, rnd, fNew);
      AddSized(env, key, v, v', addr, source, penalty, now, rnd, fNew);
    case OpGood(service, nTime) =>
      GoodSized(env, key, v, v', service, nTime);
    case OpAttempt(service, nTime) =>
      if Known(v, service) {
        RewrittenSized(v, v', service.net, v'[service.net]);
      }
    case OpConnected(service, nTime) =>
      if v' != v {
        RewrittenSized(v, v', service.net, v'[service.net]);
      }
    case OpGetAddr =>
  }

  /** In every run that starts empty, or with no bucket overfull, no bucket ever is. */
  lemma {:induction false} RunSized(env: Env, key: seq<nat>, views: seq<View>, ops: seq<Op>, k: nat)
    requires Runs(env, key, views, ops) && (views[0] == map[] || ViewSized(views[0])) && k < |views|
    ensures ViewSized(views[k])
  {
    if k == 0 {
      EmptySized();
    } else {
      RunSized(env, key, views, ops, k - 1);
      EffectSized(env, key, views[k - 1], ops[k - 1], views[k - 1 + 1]);
    }
  }

  lemma EmptySized()
    ensures ViewSized(map[])
  {
    forall b: nat ensures Listed(map[], b) == {} {
    }
  }

  // ---------------------------------------------------------------- beyond the bound

  /** A bucket that is overfull is never shrunk by adding: however many addresses are added, it lists all it did. */
  lemma {:induction false} OverfullStays(env: Env, key: seq<nat>, views: seq<View>, ops: seq<Op>, k: nat, b: nat)
    requires Runs(env, key, views, ops) && k < |views| && forall i :: 0 <= i < |ops| ==> ops[i].OpAdd?
    requires |Listed(views[0], b)| > NEW_BUCKET_SIZE
    ensures Listed(views[0], b) <= Listed(views[k], b) && |Listed(views[k], b)| > NEW_BUCKET_SIZE
  {
    if k > 0 {
      OverfullStays(env, key, views, ops, k - 1, b);
      var v, v', op := views[k - 1], views[k - 1 + 1], ops[k - 1];
      assert Effect(env, key, v, op, v');
      var fNew :| AddEffect(env, key, v, v', op.addr, op.source, op.penalty, op.now, op.rnd, fNew);
      AddListed(env, key, v, v', op.addr, op.source, op.penalty, op.now, op.rnd, fNew);
      AtMost(Listed(v, b), Listed(v', b));
    }
  }
}
