/** What whole runs of the address manager keep, seen through the view. */
module AddrManRuns {
  import opened AddrManState
  import opened AddrManSteps
  import opened AddrMan
  import AddrManCheck

  // ---------------------------------------------------------------- recorded times

  lemma AttemptTimes(v: View, service: Service, nTime: int)
    requires ViewTimesOk(v)
    ensures ViewTimesOk(AttemptView(v, service, nTime)) <==> nTime >= 0 || !Known(v, service)
  {
    var v' := AttemptView(v, service, nTime);
    if Known(v, service) && ViewTimesOk(v') {
      assert TimesOk(v'[service.net].inTried, v'[service.net].nLastTry, v'[service.net].nLastSuccess);
    }
  }

  lemma ConnectedTimes(v: View, service: Service, nTime: int)
    requires ViewTimesOk(v)
    ensures ViewTimesOk(ConnectedView(v, service, nTime))
  {
  }

  /** Moving an entry to the tried table rewrites no times; the entry ends tried. */
  lemma MakeTriedTimes(env: Env, key: seq<nat>, v: View, v': View, a: NetAddr, origin: nat)
    requires MakeTriedEffect(env, key, v, v', a, origin) && !v[a].inTried
    ensures v'.Keys == v.Keys && v'[a].inTried
    ensures forall x :: x in v ==> v'[x].nLastTry == v[x].nLastTry && v'[x].nLastSuccess == v[x].nLastSuccess
    ensures forall x :: x in v && x != a && v'[x].inTried ==> v[x].inTried
  {
  }

  /** A success keeps the recorded times in order exactly when it happens after time zero,
      or to an address that is not known. */
  lemma GoodTimes(env: Env, key: seq<nat>, v: View, v': View, service: Service, nTime: int)
    requires ViewTimesOk(v) && GoodEffect(env, key, v, v', service, nTime)
    ensures ViewTimesOk(v') <==> nTime > 0 || !Known(v, service)
  {
    if Known(v, service) {
      var a := service.net;
      var v1 := v[a := Succeeded(v[a], nTime)];
      if !v[a].inTried {
        var origin :| origin in v[a].newBuckets && MakeTriedEffect(env, key, v1, v', a, origin);
        MakeTriedTimes(env, key, v1, v', a, origin);
      }
      assert v'[a].inTried && v'[a].nLastSuccess == nTime;
      if nTime > 0 {
        forall x | x in v' ensures TimesOk(v'[x].inTried, v'[x].nLastTry, v'[x].nLastSuccess) {
          assert TimesOk(v[x].inTried, v[x].nLastTry, v[x].nLastSuccess);
        }
      }
    }
  }

  /** After a success the check passes exactly if the success was after time zero or its service is unknown. */
  lemma GoodPasses(s: State, s': State, service: Service, nTime: int)
    requires Core(s) && AddrManCheck.CheckPasses(s) && Core(s')
    requires GoodEffect(s.env, s.key, ViewOf(s), ViewOf(s'), service, nTime)
    ensures AddrManCheck.CheckPasses(s') <==> nTime > 0 || !Known(ViewOf(s), service)
  {
    AddrManCheck.PassesTimely(s);
    GoodTimes(s.env, s.key, ViewOf(s), ViewOf(s'), service, nTime);
    PassesIfTimely(s');
  }

  /** After an attempt the check passes exactly if its time is not negative or its service is unknown. */
  lemma AttemptPasses(s: State, s': State, service: Service, nTime: int)
    requires Core(s) && AddrManCheck.CheckPasses(s) && Core(s')
    requires ViewOf(s') == AttemptView(ViewOf(s), service, nTime)
    ensures AddrManCheck.CheckPasses(s') <==> nTime >= 0 || !Known(ViewOf(s), service)
  {
    AddrManCheck.PassesTimely(s);
    AttemptTimes(ViewOf(s), service, nTime);
    PassesIfTimely(s');
  }

  lemma PassesIfTimely(s: State)
    requires Core(s)
    ensures AddrManCheck.CheckPasses(s) <==> ViewTimesOk(ViewOf(s))
  {
    if ViewTimesOk(ViewOf(s)) {
      AddrManCheck.ConsistentPasses(s);
    }
    if AddrManCheck.CheckPasses(s) {
      AddrManCheck.PassesTimely(s);
    }
  }

  lemma PlaceTimes(v: View, v': View, a: NetAddr, b: nat, now: int)
    requires PlaceEffect(v, v', a, b, now) && ViewTimesOk(v)
    ensures ViewTimesOk(v')
  {
    if b !in v[a].newBuckets {
      var v1 :| RoomEffect(v, v1, b, now) && v' == Relisted(v1, a, v[a].newBuckets + {b});
      RoomKeeps(v, v1, b, now);
    }
  }

  lemma AddTimes(env: Env, key: seq<nat>, v: View, v': View, addr: Address, source: NetAddr, penalty: int, now: int, rnd: nat, fNew: bool)
    requires ViewTimesOk(v) && AddEffect(env, key, v, v', addr, source, penalty, now, rnd, fNew)
    ensures ViewTimesOk(v')
  {
    var a := addr.service.net;
    var b := GetNewBucket(env, key, a, source);
    if env.routable(a) {
      if a !in v {
        PlaceTimes(v[a := FreshEntry(addr, source, penalty)], v', a, b, now);
      } else {
        var v1 := v[a := RefreshedEntry(v[a], addr, penalty, now)];
        assert ViewTimesOk(v1);
        if v' != v1 {
          PlaceTimes(v1, v', a, b, now);
        }
      }
    }
  }

  // ---------------------------------------------------------------- nothing tried is forgotten

  /** Making room in a bucket unlists one entry of that bucket at most, and changes no other. */
  lemma RoomKeeps(v: View, v': View, b: nat, now: int)
    requires RoomEffect(v, v', b, now)
    ensures v'.Keys <= v.Keys
    ensures forall x :: x in v && b !in v[x].newBuckets ==> x in v' && v'[x] == v[x]
    ensures forall x :: x in v' ==> v'[x] == v[x].(newBuckets := v'[x].newBuckets)
  {
    if |Listed(v, b)| == NEW_BUCKET_SIZE {
      var w :| w in Listed(v, b) && ForgetEffect(v, v', b, now, w);
      assert forall x :: x in v && x != w ==> x in v' && v'[x] == v[x];
    }
  }

  /** Adding never forgets a tried address, and forgets at most one address. */
  lemma AddKeepsTried(env: Env, key: seq<nat>, v: View, v': View, addr: Address, source: NetAddr,
                      penalty: int, now: int, rnd: nat, fNew: bool)
    requires AddEffect(env, key, v, v', addr, source, penalty, now, rnd, fNew)
    requires forall x :: x in v && v[x].inTried ==> v[x].newBuckets == {}
    ensures forall x :: x in v && v[x].inTried ==> x in v' && v'[x].inTried
    ensures exists w :: v.Keys - v'.Keys <= {w}
  {
    var a := addr.service.net;
    var b := GetNewBucket(env, key, a, source);
    if env.routable(a) && a !in v {
      PlaceKeepsTried(v[a := FreshEntry(addr, source, penalty)], v', a, b, now);
    } else if env.routable(a) {
      var v1 := v[a := RefreshedEntry(v[a], addr, penalty, now)];
      if v' != v1 {
        PlaceKeepsTried(v1, v', a, b, now);
      } else {
        assert v.Keys - v'.Keys <= {a};
      }
    } else {
      assert v.Keys - v'.Keys <= {a};
    }
  }

  lemma PlaceKeepsTried(v: View, v': View, a: NetAddr, b: nat, now: int)
    requires PlaceEffect(v, v', a, b, now)
    requires forall x :: x in v && v[x].inTried ==> v[x].newBuckets == {}
    ensures forall x :: x in v && v[x].inTried ==> x in v' && v'[x].inTried
    ensures exists w :: v.Keys - v'.Keys <= {w}
  {
    if b in v[a].newBuckets {
      assert v.Keys - v'.Keys <= {a};
    } else {
      var v1 :| RoomEffect(v, v1, b, now) && v' == Relisted(v1, a, v[a].newBuckets + {b});
      RoomKeeps(v, v1, b, now);
      assert v'.Keys == v1.Keys;
      if |Listed(v, b)| == NEW_BUCKET_SIZE {
        var w :| w in Listed(v, b) && ForgetEffect(v, v1, b, now, w);
        assert v.Keys - v'.Keys <= {w};
      } else {
        assert v.Keys - v'.Keys <= {a};
      }
    }
  }

  // ---------------------------------------------------------------- runs

  datatype Op =
    | OpAdd(addr: Address, source: NetAddr, penalty: int, now: int, rnd: nat)
    | OpGood(service: Service, nTime: int)
    | OpAttempt(service: Service, nTime: int)
    | OpConnected(service: Service, nTime: int)
    | OpGetAddr

  predicate Timely(op: Op) {
    match op
    case OpGood(_, nTime) => nTime > 0
    case OpAttempt(_, nTime) => nTime >= 0
    case _ => true
  }

  /** What an operation may do to the view, whatever the random choices. */
  ghost predicate Effect(env: Env, key: seq<nat>, v: View, op: Op, v': View) {
    match op
    case OpAdd(addr, source, penalty, now, rnd) => exists fNew :: AddEffect(env, key, v, v', addr, source, penalty, now, rnd, fNew)
    case OpGood(service, nTime) => GoodEffect(env, key, v, v', service, nTime)
    case OpAttempt(service, nTime) => v' == AttemptView(v, service, nTime)
    case OpConnected(service, nTime) => v' == ConnectedView(v, service, nTime)
    case OpGetAddr => v' == v
  }

  /** views[k] is what is known before operation k. */
  ghost predicate Runs(env: Env, key: seq<nat>, views: seq<View>, ops: seq<Op>) {
    |views| == |ops| + 1 && forall k :: 0 <= k < |ops| ==> Effect(env, key, views[k], ops[k], views[k + 1])
  }

  lemma EffectTimes(env: Env, key: seq<nat>, v: View, op: Op, v': View)
    requires ViewTimesOk(v) && Timely(op) && Effect(env, key, v, op, v')
    ensures ViewTimesOk(v')
  {
    match op
    case OpAdd(addr, source, penalty, now, rnd) =>
      var fNew :| AddEffect(env, key, v, v', addr, source, penalty, now, rnd, fNew);
      AddTimes(env, key, v, v', addr, source, penalty, now, rnd, fNew);
    case OpGood(service, nTime) =>
      GoodTimes(env, key, v, v', service, nTime);
    case OpAttempt(service, nTime) =>
      AttemptTimes(v, service, nTime);
    case OpConnected(service, nTime) =>
      ConnectedTimes(v, service, nTime);
    case OpGetAddr =>
  }

  /** In every run of timely operations from an empty manager the recorded times stay in order throughout. */
  lemma {:induction false} RunTimes(env: Env, key: seq<nat>, views: seq<View>, ops: seq<Op>, k: nat)
    requires Runs(env, key, views, ops) && views[0] == map[] && k < |views|
    requires forall i :: 0 <= i < |ops| ==> Timely(ops[i])
    ensures ViewTimesOk(views[k])
  {
    if k > 0 {
      RunTimes(env, key, views, ops, k - 1);
      EffectTimes(env, key, views[k - 1], ops[k - 1], views[k - 1 + 1]);
    }
  }

  // ---------------------------------------------------------------- what is never forgotten

  /** A tried address is in no new bucket. */
  ghost predicate TriedApart(v: View) {
    forall a :: a in v && v[a].inTried ==> v[a].newBuckets == {}
  }

  lemma PlaceApart(v: View, v': View, a: NetAddr, b: nat, now: int)
    requires TriedApart(v) && PlaceEffect(v, v', a, b, now) && !v[a].inTried
    ensures TriedApart(v')
  {
    if b !in v[a].newBuckets {
      var v1 :| RoomEffect(v, v1, b, now) && v' == Relisted(v1, a, v[a].newBuckets + {b});
      RoomKeeps(v, v1, b, now);
    }
  }

  lemma AddApart(env: Env, key: seq<nat>, v: View, v': View, addr: Address, source: NetAddr, penalty: int, now: int, rnd: nat, fNew: bool)
    requires TriedApart(v) && AddEffect(env, key, v, v', addr, source, penalty, now, rnd, fNew)
    ensures TriedApart(v')
  {
    var a := addr.service.net;
    var b := GetNewBucket(env, key, a, source);
    if env.routable(a) && a !in v {
      PlaceApart(v[a := FreshEntry(addr, source, penalty)], v', a, b, now);
    } else if env.routable(a) {
      var v1 := v[a := RefreshedEntry(v[a], addr, penalty, now)];
      if v' != v1 {
        PlaceApart(v1, v', a, b, now);
      }
    }
  }

  lemma GoodApart(env: Env, key: seq<nat>, v: View, v': View, service: Service, nTime: int)
    requires TriedApart(v) && GoodEffect(env, key, v, v', service, nTime)
    ensures TriedApart(v') && v'.Keys == v.Keys
  {
  }

  lemma EffectApart(env: Env, key: seq<nat>, v: View, op: Op, v': View)
    requires TriedApart(v) && Effect(env, key, v, op, v')
    ensures TriedApart(v')
    ensures forall a :: a in v && v[a].inTried ==> a in v'
    ensures exists w :: v.Keys - v'.Keys <= {w}
  {
    match op
    case OpAdd(addr, source, penalty, now, rnd) =>
      var fNew :| AddEffect(env, key, v, v', addr, source, penalty, now, rnd, fNew);
      AddApart(env, key, v, v', addr, source, penalty, now, rnd, fNew);
      AddKeepsTried(env, key, v, v', addr, source, penalty, now, rnd, fNew);
    case OpGood(service, nTime) =>
      GoodApart(env, key, v, v', service, nTime);
      assert v.Keys - v'.Keys <= {service.net};
    case OpAttempt(service, nTime) =>
      assert v.Keys - v'.Keys <= {service.net};
    case OpConnected(service, nTime) =>
      assert v.Keys - v'.Keys <= {service.net};
    case OpGetAddr =>
      assert v.Keys - v'.Keys <= {NetAddr([])};
  }

  /** In every run from an empty manager no step forgets a tried address, and none forgets more than one address. */
  lemma {:induction false} RunKeepsTried(env: Env, key: seq<nat>, views: seq<View>, ops: seq<Op>, k: nat)
    requires Runs(env, key, views, ops) && views[0] == map[] && k < |views|
    ensures TriedApart(views[k])
    ensures k > 0 ==> forall a :: a in views[k - 1] && views[k - 1][a].inTried ==> a in views[k]
    ensures k > 0 ==> exists w :: views[k - 1].Keys - views[k].Keys <= {w}
  {
    if k > 0 {
      RunKeepsTried(env, key, views, ops, k - 1);
      EffectApart(env, key, views[k - 1], ops[k - 1], views[k - 1 + 1]);
    }
  }

  // ---------------------------------------------------------------- the manager runs

  /** One operation, with any random choices. */
  method Perform(m: AddrMan, op: Op)
    requires Core(m.S())
    modifies m
    ensures Core(m.S()) && m.key == old(m.key)
    ensures Effect(m.env, m.key, old(ViewOf(m.S())), op, ViewOf(m.S()))
  {
    match op
    case OpAdd(addr, source, penalty, now, rnd) =>
      var fNew := m.Add(addr, source, penalty, now, rnd);
    case OpGood(service, nTime) =>
      m.Good(service, nTime);
    case OpAttempt(service, nTime) =>
      m.Attempt(service, nTime);
    case OpConnected(service, nTime) =>
      m.Connected(service, nTime);
    case OpGetAddr =>
      var answer := m.GetAddr();
  }

  /** The manager is in the state that the operations lead to. */
  ghost predicate Ran(env: Env, key: seq<nat>, s: State, views: seq<View>, ops: seq<Op>) {
    && Core(s) && s.env == env && s.key == key
    && Runs(env, key, views, ops) && views[0] == map[] && views[|ops|] == ViewOf(s)
  }

  lemma RanThen(env: Env, key: seq<nat>, s: State, views: seq<View>, ops: seq<Op>, op: Op, s': State)
    requires Ran(env, key, s, views, ops) && Core(s') && s'.env == env && s'.key == key
    requires Effect(env, key, ViewOf(s), op, ViewOf(s'))
    ensures Ran(env, key, s', views + [ViewOf(s')], ops + [op])
  {
    LongerRun(env, key, views, ops, op, ViewOf(s'));
  }

  lemma LongerRun(env: Env, key: seq<nat>, views: seq<View>, ops: seq<Op>, op: Op, v': View)
    requires Runs(env, key, views, ops) && Effect(env, key, views[|ops|], op, v')
    ensures Runs(env, key, views + [v'], ops + [op])
  {
    var views' := views + [v'];
    forall k | 0 <= k < |ops| + 1 ensures Effect(env, key, views'[k], (ops + [op])[k], views'[k + 1]) {
      if k < |ops| {
        assert Effect(env, key, views[k], ops[k], views[k + 1]);
      }
    }
  }

  lemma RanPasses(env: Env, key: seq<nat>, s: State, views: seq<View>, ops: seq<Op>)
    requires Ran(env, key, s, views, ops) && forall i :: 0 <= i < |ops| ==> Timely(ops[i])
    ensures AddrManCheck.CheckPasses(s)
  {
    RunTimes(env, key, views, ops, |ops|);
    AddrManCheck.ConsistentPasses(s);
  }

  method Continue(env: Env, key: seq<nat>, m: AddrMan, op: Op, ghost views: seq<View>, ghost done: seq<Op>)
    returns (ghost views': seq<View>)
    requires Ran(env, key, m.S(), views, done)
    modifies m
    ensures Ran(env, key, m.S(), views', done + [op])
  {
    ghost var s := m.S();
    Perform(m, op);
    views' := views + [ViewOf(m.S())];
    RanThen(env, key, s, views, done, op, m.S());
  }

  method RunAll(env: Env, key: seq<nat>, ops: seq<Op>) returns (m: AddrMan, ghost views: seq<View>)
    ensures fresh(m) && Ran(env, key, m.S(), views, ops)
  {
    m := new AddrMan(env, key);
    views := [ViewOf(m.S())];
    ghost var done := [];
    for n := 0 to |ops|
      invariant fresh(m) && done == ops[..n] && Ran(env, key, m.S(), views, done)
    {
      OneMore(ops, n);
      views := Continue(env, key, m, ops[n], views, done);
      done := done + [ops[n]];
    }
    OneMore(ops, |ops|);
  }

  lemma OneMore(ops: seq<Op>, n: nat)
    requires n <= |ops|
    ensures if n < |ops| then ops[..n] + [ops[n]] == ops[..n + 1] else ops[..n] == ops
  {
  }

  /** Whatever an empty manager performs, with any random choices, is a run in which its tables stay consistent;
      after timely operations it passes its own check. */
  method Run(env: Env, key: seq<nat>, ops: seq<Op>) returns (m: AddrMan, ghost views: seq<View>)
    ensures fresh(m) && Core(m.S())
    ensures Runs(env, key, views, ops) && views[0] == map[] && views[|ops|] == ViewOf(m.S())
    ensures (forall i :: 0 <= i < |ops| ==> Timely(ops[i])) ==> AddrManCheck.CheckPasses(m.S())
  {
    m, views := RunAll(env, key, ops);
    if forall i :: 0 <= i < |ops| ==> Timely(ops[i]) {
      RanPasses(env, key, m.S(), views, ops);
    }
  }
}
