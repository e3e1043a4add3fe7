/** The heights a block locator names, and how it resolves against another chain. */
module Locator {

  function Below(h: nat, step: nat): nat {
    if h >= step then h - step else 0
  }

  /** The heights named from h downwards when count entries stand before it and the next step is step. */
  function Heights(h: nat, step: nat, count: nat): (hs: seq<nat>)
    requires step >= 1
    ensures |hs| > 0 && hs[0] == h && hs[|hs| - 1] == 0
    ensures forall i, j :: 0 <= i < j < |hs| ==> hs[i] > hs[j]
    decreases h
  {
    if h == 0 then [0]
    else [h] + Heights(Below(h, step), NextStep(step, count + 1), count + 1)
  }

  function NextStep(step: nat, size: nat): nat {
    if size > 10 then 2 * step else step
  }

  // ---------------------------------------------------------------- length

  function Pow2(k: nat): (p: nat)
    ensures p >= 1
  {
    if k == 0 then 1 else 2 * Pow2(k - 1)
  }

  /** The position of the highest set bit. */
  function Log2(n: nat): (k: nat)
    ensures n >= 1 ==> Pow2(k) <= n < Pow2(k + 1)
  {
    if n <= 1 then 0 else 1 + Log2(n / 2)
  }

  /** How far k doubling steps lead. */
  ghost function Reach(step: nat, k: nat): nat
    decreases k
  {
    if k == 0 then 0 else step + Reach(2 * step, k - 1)
  }

  lemma {:induction false} ReachDoubles(step: nat, k: nat)
    ensures Reach(2 * step, k) == 2 * Reach(step, k)
    decreases k
  {
    if k > 0 {
      ReachDoubles(2 * step, k - 1);
    }
  }

  lemma {:induction false} ReachOne(k: nat)
    ensures Reach(1, k) == Pow2(k) - 1
  {
    if k > 0 {
      ReachOne(k - 1);
      ReachDoubles(1, k - 1);
    }
  }

  lemma {:induction false} DoublingLength(h: nat, step: nat, count: nat, k: nat)
    requires step >= 1 && count >= 10 && h <= Reach(step, k)
    ensures |Heights(h, step, count)| <= 1 + k
    decreases k
  {
    if h > 0 {
      DoublingLength(Below(h, step), 2 * step, count + 1, k - 1);
    }
  }

  lemma {:induction false} HeightsLength(h: nat, count: nat, k: nat)
    requires count <= 10 && h <= 10 - count + Reach(1, k)
    ensures |Heights(h, 1, count)| <= 11 - count + k
    decreases 10 - count
  {
    if count == 10 {
      DoublingLength(h, 1, count, k);
    } else if h > 0 {
      HeightsLength(h - 1, count + 1, k);
    }
  }

  /** A locator is logarithmic in the height it starts from. */
  lemma LocatorShort(h: nat)
    requires h >= 1
    ensures |Heights(h, 1, 0)| <= 12 + Log2(h)
  {
    ReachOne(Log2(h) + 1);
    HeightsLength(h, 0, Log2(h) + 1);
  }

  // ---------------------------------------------------------------- resolution

  /** The first named height that is not above f. */
  function Hit(h: nat, step: nat, count: nat, f: nat): (e: nat)
    requires step >= 1
    ensures e <= f
    decreases h
  {
    if h <= f then h else Hit(Below(h, step), NextStep(step, count + 1), count + 1, f)
  }

  /** It is nearer to f than f is to the top of the locator. */
  lemma {:induction false} HitNear(top: nat, h: nat, step: nat, count: nat, f: nat)
    requires step >= 1 && h <= top && top - h >= step - 1 && f < h
    ensures f - Hit(h, step, count, f) < top - f
    decreases h
  {
    if Below(h, step) > f {
      HitNear(top, Below(h, step), NextStep(step, count + 1), count + 1, f);
    }
  }

  /** The first twelve named heights are consecutive. */
  lemma {:induction false} HitExact(top: nat, h: nat, f: nat)
    requires f <= h <= top && top - f <= 11
    ensures Hit(h, 1, top - h, f) == f
    decreases h
  {
    if f < h {
      if h - 1 > f {
        HitExact(top, h - 1, f);
      }
    }
  }

  function Pick<T>(p: seq<T>, hs: seq<nat>): (r: seq<T>)
    requires forall i :: 0 <= i < |hs| ==> hs[i] < |p|
    ensures |r| == |hs| && forall i :: 0 <= i < |hs| ==> r[i] == p[hs[i]]
  {
    seq(|hs|, i requires 0 <= i < |hs| => p[hs[i]])
  }

  /** The place of the first entry of v that stands in q. */
  ghost function First<T>(v: seq<T>, q: seq<T>): (i: nat)
    ensures i <= |v| && (i < |v| ==> v[i] in q) && forall j :: 0 <= j < i ==> v[j] !in q
  {
    if v == [] || v[0] in q then 0 else 1 + First(v[1..], q)
  }

  lemma {:induction false} HitPlace(h: nat, step: nat, count: nat, f: nat) returns (i: nat)
    requires step >= 1
    ensures var hs := Heights(h, step, count);
            i < |hs| && hs[i] == Hit(h, step, count, f) && forall j :: 0 <= j < i ==> hs[j] > f
    decreases h
  {
    if h <= f {
      i := 0;
    } else {
      var k := HitPlace(Below(h, step), NextStep(step, count + 1), count + 1, f);
      i := k + 1;
    }
  }

  /** On a chain that holds exactly the blocks of p up to height f, the first match is the hit. */
  lemma FirstIsHit<T>(p: seq<T>, q: seq<T>, h: nat, step: nat, count: nat, f: nat)
    requires step >= 1 && h < |p| && forall e :: 0 <= e < |p| ==> (p[e] in q <==> e <= f)
    ensures var hs := Heights(h, step, count);
            var i := First(Pick(p, hs), q);
            i < |hs| && hs[i] == Hit(h, step, count, f)
  {
    var hs := Heights(h, step, count);
    var k := HitPlace(h, step, count, f);
    var v := Pick(p, hs);
    assert v[k] in q && forall j :: 0 <= j < k ==> v[j] !in q;
    assert First(v, q) == k;
  }

  // ---------------------------------------------------------------- building

  /** v names the first heights of all, the last of them h, and the remaining ones follow from h. */
  ghost predicate Partial<T>(p: seq<T>, all: seq<nat>, v: seq<T>, h: nat, step: nat) {
    && step >= 1 && 1 <= |v| <= |all|
    && all[|v| - 1..] == Heights(h, step, |v| - 1)
    && (forall i :: 0 <= i < |all| ==> all[i] < |p|)
    && (forall i :: 0 <= i < |v| ==> v[i] == p[all[i]])
  }

  lemma PartialStep<T>(p: seq<T>, all: seq<nat>, v: seq<T>, h: nat, step: nat)
    requires Partial(p, all, v, h, step) && h > 0 && h < |p|
    ensures Partial(p, all, v + [p[Below(h, step)]], Below(h, step), NextStep(step, |v|))
  {
    var rest := all[|v| - 1..];
    assert rest[1..] == all[|v|..];
    assert all[|v|] == rest[1] == Below(h, step);
  }

  lemma PartialDone<T>(p: seq<T>, all: seq<nat>, v: seq<T>, step: nat)
    requires Partial(p, all, v, 0, step)
    ensures v == Pick(p, all)
  {
    assert |all[|v| - 1..]| == 1;
  }
}
