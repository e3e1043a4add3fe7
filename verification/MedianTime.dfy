/** The median time past of a chain of headers and the rule that a new header must lie after it. */
module MedianTime {

  const SPAN := 11

  predicate Sorted(s: seq<int>) {
    forall i, j :: 0 <= i < j < |s| ==> s[i] <= s[j]
  }

  function Insert(x: int, s: seq<int>): (r: seq<int>)
    ensures |r| == |s| + 1
  {
    if s == [] || x <= s[0] then [x] + s else [s[0]] + Insert(x, s[1..])
  }

  function Sort(s: seq<int>): (r: seq<int>)
    ensures |r| == |s|
  {
    if s == [] then [] else Insert(s[0], Sort(s[1..]))
  }

  lemma {:induction false} InsertPermutes(x: int, s: seq<int>)
    ensures multiset(Insert(x, s)) == multiset{x} + multiset(s)
    decreases |s|
  {
    if s == [] || x <= s[0] {
      assert multiset([x] + s) == multiset{x} + multiset(s);
    } else {
      InsertPermutes(x, s[1..]);
      assert s == [s[0]] + s[1..];
    }
  }

  lemma {:induction false} InsertSorted(x: int, s: seq<int>)
    requires Sorted(s)
    ensures Sorted(Insert(x, s)) && Insert(x, s)[0] == if s == [] || x <= s[0] then x else s[0]
    decreases |s|
  {
    if s != [] && x > s[0] {
      InsertSorted(x, s[1..]);
    }
  }

  /** Sorting gives the same entries in order. */
  lemma {:induction false} SortOk(s: seq<int>)
    ensures Sorted(Sort(s)) && multiset(Sort(s)) == multiset(s)
    decreases |s|
  {
    if s != [] {
      SortOk(s[1..]);
      InsertPermutes(s[0], Sort(s[1..]));
      InsertSorted(s[0], Sort(s[1..]));
      assert s == [s[0]] + s[1..];
    }
  }

  /** The times of the last blocks of a chain. */
  function Window(times: seq<int>): seq<int> {
    if |times| <= SPAN then times else times[|times| - SPAN..]
  }

  function Median(w: seq<int>): int
    requires w != []
  {
    Sort(w)[|w| / 2]
  }

  /** Walk back from the last block, fill the buffer from its end, sort the filled part. */
  method GetMedianTimePast(times: seq<int>) returns (median: int)
    requires times != []
    ensures median == Median(Window(times))
    ensures Middle(LastOf(times, 11), median)
  {
    var pmedian := new int[SPAN];
    var pbegin, i, index := SPAN, 0, |times|;
    while i < SPAN && index > 0
      invariant pmedian.Length == SPAN && 0 <= i <= SPAN && index == |times| - i && pbegin == SPAN - i && index >= 0
      invariant pmedian[pbegin..] == times[index..]
    {
      pbegin := pbegin - 1;
      index := index - 1;
      ghost var filled := pmedian[pbegin + 1..];
      pmedian[pbegin] := times[index];
      assert pmedian[pbegin..] == [times[index]] + filled;
      i := i + 1;
    }
    var sorted := Sort(pmedian[pbegin..]);
    assert times[0..] == times;
    median := sorted[(SPAN - pbegin) / 2];
    MedianMiddle(Window(times));
  }

  // ---------------------------------------------------------------- counting

  ghost function Below(s: seq<int>, m: int): (n: nat)
    ensures n <= |s|
  {
    if s == [] then 0 else (if s[0] < m then 1 else 0) + Below(s[1..], m)
  }

  lemma {:induction false} BelowSum(a: seq<int>, b: seq<int>, m: int)
    ensures Below(a + b, m) == Below(a, m) + Below(b, m)
    decreases |a|
  {
    if a == [] {
      assert a + b == b;
    } else {
      assert (a + b)[1..] == a[1..] + b;
      BelowSum(a[1..], b, m);
    }
  }

  lemma {:induction false} BelowInsert(x: int, s: seq<int>, m: int)
    ensures Below(Insert(x, s), m) == Below(s, m) + if x < m then 1 else 0
    decreases |s|
  {
    if s == [] || x <= s[0] {
      assert ([x] + s)[1..] == s;
    } else {
      BelowInsert(x, s[1..], m);
      assert ([s[0]] + Insert(x, s[1..]))[1..] == Insert(x, s[1..]);
    }
  }

  lemma {:induction false} BelowSort(s: seq<int>, m: int)
    ensures Below(Sort(s), m) == Below(s, m)
    decreases |s|
  {
    if s != [] {
      BelowSort(s[1..], m);
      BelowInsert(s[0], Sort(s[1..]), m);
    }
  }

  /** In a sorted sequence more than i entries lie below m exactly if the one at i does. */
  lemma {:induction false} BelowSorted(s: seq<int>, i: nat, m: int)
    requires Sorted(s) && i < |s|
    ensures Below(s, m) > i <==> s[i] < m
    decreases |s|
  {
    if s[0] >= m {
      NoneBelow(s, m);
    } else if i > 0 {
      BelowSorted(s[1..], i - 1, m);
    }
  }

  lemma {:induction false} NoneBelow(s: seq<int>, m: int)
    requires forall i :: 0 <= i < |s| ==> s[i] >= m
    ensures Below(s, m) == 0
  {
    if s != [] {
      NoneBelow(s[1..], m);
    }
  }

  /** The median is below m exactly if more than half of the entries are. */
  lemma MedianBelow(w: seq<int>, m: int)
    requires w != []
    ensures Median(w) < m <==> Below(w, m) > |w| / 2
  {
    BelowSort(w, m);
    SortOk(w);
    BelowSorted(Sort(w), |w| / 2, m);
  }

  /** The last n of a list, or all of it. */
  ghost function LastOf(times: seq<int>, n: nat): seq<int> {
    if |times| <= n then times else times[|times| - n..]
  }

  /** m is one of the entries, at most half of them lie below it, and more than half do not lie above it. */
  ghost predicate Middle(w: seq<int>, m: int) {
    m in w && Below(w, m) <= |w| / 2 && Below(w, m + 1) > |w| / 2
  }

  lemma MedianMiddle(w: seq<int>)
    requires w != []
    ensures Middle(w, Median(w))
  {
    MedianBelow(w, Median(w));
    MedianBelow(w, Median(w) + 1);
    SortOk(w);
    assert Sort(w)[|w| / 2] in multiset(Sort(w));
  }

  // ---------------------------------------------------------------- along a chain

  lemma MedianStep(times: seq<int>, t: int)
    requires times != [] && t > Median(Window(times))
    ensures Median(Window(times)) <= Median(Window(times + [t]))
  {
    var w, w' := Window(times), Window(times + [t]);
    var m := Median(w);
    MedianBelow(w, m);
    MedianBelow(w', m);
    BelowSum(w, [t], m);
    if |times| < SPAN {
      assert w' == w + [t];
    } else {
      assert w + [t] == [w[0]] + w';
      BelowSum([w[0]], w', m);
    }
  }

  /** Every header but the first lies after the median time past of the headers before it. */
  ghost predicate Accepted(times: seq<int>) {
    |times| <= 1 ||
    (Accepted(times[..|times| - 1]) && times[|times| - 1] > Median(Window(times[..|times| - 1])))
  }

  /** The median time past at every height. */
  ghost function Medians(times: seq<int>): (m: seq<int>)
    ensures |m| == |times|
  {
    if times == [] then [] else Medians(times[..|times| - 1]) + [Median(Window(times))]
  }

  /** The medians of a chain start with those of every part of it that starts at the same block. */
  lemma {:induction false} MediansPrefix(p: seq<int>, q: seq<int>)
    ensures Medians(p + q)[..|p|] == Medians(p)
    decreases |q|
  {
    if q == [] {
      assert p + q == p;
    } else {
      var r := q[..|q| - 1];
      MediansPrefix(p, r);
      assert (p + q)[..|p + q| - 1] == p + r;
    }
  }

  lemma {:induction false} MediansSorted(times: seq<int>)
    requires Accepted(times)
    ensures Sorted(Medians(times))
    decreases |times|
  {
    if |times| > 1 {
      var p, t := times[..|times| - 1], times[|times| - 1];
      MediansSorted(p);
      assert p + [t] == times;
      MedianStep(p, t);
      Appended(Medians(p), Median(Window(p)), Median(Window(times)));
    }
  }

  /** Along an accepted chain the median time past never decreases: it is no larger at any earlier block p. */
  lemma MedianNeverDecreases(p: seq<int>, q: seq<int>)
    requires p != [] && Accepted(p + q)
    ensures Median(Window(p)) <= Median(Window(p + q))
  {
    MediansSorted(p + q);
    MediansPrefix(p, q);
    LastMedian(p);
    LastMedian(p + q);
    LastOfPart(Medians(p + q), Medians(p));
  }

  lemma LastMedian(times: seq<int>)
    requires times != []
    ensures Medians(times)[|times| - 1] == Median(Window(times))
  {
  }

  lemma LastOfPart(m: seq<int>, part: seq<int>)
    requires Sorted(m) && 0 < |part| <= |m| && m[..|part|] == part
    ensures part[|part| - 1] <= m[|m| - 1]
  {
    assert part[|part| - 1] == m[|part| - 1];
  }

  lemma Appended(s: seq<int>, last: int, x: int)
    requires Sorted(s) && s != [] && s[|s| - 1] == last <= x
    ensures Sorted(s + [x])
  {
  }

  /** The header check: the new time must be after the median of the chain it extends. */
  method AcceptTime(times: seq<int>, t: int) returns (ok: bool)
    requires times != [] && Accepted(times)
    ensures ok <==> Accepted(times + [t])
    ensures ok <==> Below(LastOf(times, 11), t) > |LastOf(times, 11)| / 2
    ensures ok ==> Sorted(Medians(times + [t]))
  {
    var median := GetMedianTimePast(times);
    ok := t > median;
    MedianBelow(Window(times), t);
    assert (times + [t])[..|times|] == times;
    if ok {
      MediansSorted(times + [t]);
    }
  }
}
