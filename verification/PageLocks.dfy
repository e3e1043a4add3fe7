/** Stacking memory locks: a count of locked ranges for every page. */
module PageLocks {

  datatype Range = Range(addr: nat, size: nat)

  /** A page holds a byte of a range. */
  ghost predicate Touches(r: Range, page: nat, pageSize: nat)
    requires pageSize >= 1
  {
    r.size > 0 && page % pageSize == 0 && page < r.addr + r.size && r.addr < page + pageSize
  }

  /** How many ranges hold a byte of a page. */
  ghost function Count(live: seq<Range>, page: nat, pageSize: nat): nat
    requires pageSize >= 1
  {
    if live == [] then 0
    else (if Touches(live[0], page, pageSize) then 1 else 0) + Count(live[1..], page, pageSize)
  }

  lemma {:induction false} CountSum(a: seq<Range>, b: seq<Range>, page: nat, pageSize: nat)
    requires pageSize >= 1
    ensures Count(a + b, page, pageSize) == Count(a, page, pageSize) + Count(b, page, pageSize)
    decreases |a|
  {
    if a == [] {
      assert a + b == b;
    } else {
      assert (a + b)[1..] == a[1..] + b;
      CountSum(a[1..], b, page, pageSize);
    }
  }

  ghost function One(r: Range, page: nat, pageSize: nat): nat
    requires pageSize >= 1
  {
    if Touches(r, page, pageSize) then 1 else 0
  }

  lemma CountOne(r: Range, page: nat, pageSize: nat)
    requires pageSize >= 1
    ensures Count([r], page, pageSize) == One(r, page, pageSize)
  {
    assert [r][1..] == [];
  }

  ghost function Without(live: seq<Range>, i: nat): seq<Range>
    requires i < |live|
  {
    live[..i] + live[i + 1..]
  }

  lemma CountWithout(live: seq<Range>, i: nat, page: nat, pageSize: nat)
    requires pageSize >= 1 && i < |live|
    ensures Count(live, page, pageSize) == Count(Without(live, i), page, pageSize) + One(live[i], page, pageSize)
  {
    assert live == live[..i] + ([live[i]] + live[i + 1..]);
    CountSum(live[..i], [live[i]] + live[i + 1..], page, pageSize);
    CountSum([live[i]], live[i + 1..], page, pageSize);
    CountOne(live[i], page, pageSize);
    CountSum(live[..i], live[i + 1..], page, pageSize);
  }

  // ---------------------------------------------------------------- page arithmetic

  /** The start of the page of an address. */
  function PageOf(addr: nat, pageSize: nat): (page: nat)
    requires pageSize >= 1
    ensures page <= addr < page + pageSize
  {
    addr - addr % pageSize
  }

  lemma Multiple(x: nat, pageSize: nat) returns (k: nat)
    requires pageSize >= 1 && x % pageSize == 0
    ensures x == k * pageSize
  {
    k := x / pageSize;
  }

  /** A multiple of the page size that is smaller than a page is zero. */
  lemma SmallMultiple(d: int, pageSize: nat, r: nat)
    requires d * pageSize == r < pageSize
    ensures r == 0
  {
    if d >= 1 {
      assert d * pageSize == pageSize + (d - 1) * pageSize;
    } else if d < 0 {
      assert d * pageSize == -((-d) * pageSize);
    }
  }

  lemma MultipleIs(k: nat, pageSize: nat, x: nat)
    requires pageSize >= 1 && x == k * pageSize
    ensures x % pageSize == 0
  {
    var q, r := x / pageSize, x % pageSize;
    assert x == q * pageSize + r;
    Distribute(k, q, pageSize);
    SmallMultiple(k - q, pageSize, r);
  }

  lemma Distribute(k: int, q: int, pageSize: nat)
    ensures (k - q) * pageSize == k * pageSize - q * pageSize
  {
  }

  lemma PageOfIsPage(addr: nat, pageSize: nat)
    requires pageSize >= 1
    ensures PageOf(addr, pageSize) % pageSize == 0
  {
    MultipleIs(addr / pageSize, pageSize, PageOf(addr, pageSize));
  }

  /** Two pages that are less than a page apart are the same. */
  lemma SamePage(x: nat, y: nat, pageSize: nat)
    requires pageSize >= 1 && x % pageSize == 0 && y % pageSize == 0 && x <= y < x + pageSize
    ensures x == y
  {
    var j := Multiple(x, pageSize);
    var k := Multiple(y, pageSize);
    Distribute(k, j, pageSize);
    SmallMultiple(k - j, pageSize, y - x);
  }

  lemma NextPage(x: nat, pageSize: nat)
    requires pageSize >= 1 && x % pageSize == 0
    ensures (x + pageSize) % pageSize == 0
  {
    var k := Multiple(x, pageSize);
    Distribute(k + 1, 1, pageSize);
    MultipleIs(k + 1, pageSize, x + pageSize);
  }

  /** A range touches the pages from that of its first byte to that of its last. */
  lemma TouchesExact(r: Range, page: nat, pageSize: nat)
    requires pageSize >= 1 && r.size > 0 && page % pageSize == 0
    ensures Touches(r, page, pageSize) <==> PageOf(r.addr, pageSize) <= page <= PageOf(r.addr + r.size - 1, pageSize)
  {
    var first, last := PageOf(r.addr, pageSize), PageOf(r.addr + r.size - 1, pageSize);
    PageOfIsPage(r.addr, pageSize);
    PageOfIsPage(r.addr + r.size - 1, pageSize);
    if page < first && r.addr < page + pageSize {
      SamePage(page, first, pageSize);
    }
    if last < page && page < r.addr + r.size {
      SamePage(last, page, pageSize);
    }
  }

  // ---------------------------------------------------------------- the manager

  ghost function At(histogram: map<nat, int>, page: nat): int {
    if page in histogram then histogram[page] else 0
  }

  /** The histogram while a range is being added (sign 1) or removed (sign -1), up to a page. */
  ghost predicate Counting(histogram: map<nat, int>, live: seq<Range>, r: Range, sign: int, upTo: nat, pageSize: nat)
    requires pageSize >= 1
  {
    && (forall page :: page in histogram ==> histogram[page] > 0)
    && (forall page: nat :: At(histogram, page) ==
          Count(live, page, pageSize) + if page < upTo then sign * One(r, page, pageSize) else 0)
  }

  ghost predicate Counted(histogram: map<nat, int>, live: seq<Range>, pageSize: nat)
    requires pageSize >= 1
  {
    && (forall page :: page in histogram ==> histogram[page] > 0)
    && (forall page: nat :: At(histogram, page) == Count(live, page, pageSize))
  }

  lemma CountingStart(histogram: map<nat, int>, live: seq<Range>, r: Range, sign: int, pageSize: nat)
    requires pageSize >= 1 && Counted(histogram, live, pageSize) && r.size > 0
    ensures Counting(histogram, live, r, sign, PageOf(r.addr, pageSize), pageSize)
  {
    var start := PageOf(r.addr, pageSize);
    forall page: nat | page < start ensures One(r, page, pageSize) == 0 {
      if page % pageSize == 0 {
        TouchesExact(r, page, pageSize);
      }
    }
  }

  /** Between a page and the next one nothing else is counted. */
  lemma CountingStep(histogram: map<nat, int>, histogram': map<nat, int>, live: seq<Range>, r: Range, sign: int, page: nat, pageSize: nat)
    requires pageSize >= 1 && Counting(histogram, live, r, sign, page, pageSize) && Touches(r, page, pageSize)
    requires forall q: nat :: At(histogram', q) == At(histogram, q) + if q == page then sign else 0
    requires forall q :: q in histogram' ==> histogram'[q] > 0
    ensures Counting(histogram', live, r, sign, page + pageSize, pageSize)
  {
    forall q: nat | page < q < page + pageSize ensures One(r, q, pageSize) == 0 {
      if q % pageSize == 0 {
        SamePage(page, q, pageSize);
      }
    }
  }

  lemma CountingEnd(histogram: map<nat, int>, live: seq<Range>, r: Range, sign: int, page: nat, pageSize: nat)
    requires pageSize >= 1 && Counting(histogram, live, r, sign, page, pageSize)
    requires r.size > 0 && page > PageOf(r.addr + r.size - 1, pageSize)
    ensures forall q: nat :: At(histogram, q) == Count(live, q, pageSize) + sign * One(r, q, pageSize)
  {
    forall q: nat | q >= page ensures One(r, q, pageSize) == 0 {
      if q % pageSize == 0 {
        TouchesExact(r, q, pageSize);
      }
    }
  }

  lemma LockDone(histogram: map<nat, int>, live: seq<Range>, r: Range, pageSize: nat)
    requires pageSize >= 1 && forall q :: q in histogram ==> histogram[q] > 0
    requires forall q: nat :: At(histogram, q) == Count(live, q, pageSize) + One(r, q, pageSize)
    ensures Counted(histogram, live + [r], pageSize)
  {
    forall q: nat ensures Count(live + [r], q, pageSize) == Count(live, q, pageSize) + One(r, q, pageSize) {
      CountSum(live, [r], q, pageSize);
      CountOne(r, q, pageSize);
    }
  }

  lemma UnlockDone(histogram: map<nat, int>, live: seq<Range>, i: nat, pageSize: nat)
    requires pageSize >= 1 && i < |live| && forall q :: q in histogram ==> histogram[q] > 0
    requires forall q: nat :: At(histogram, q) == Count(live, q, pageSize) - One(live[i], q, pageSize)
    ensures Counted(histogram, Without(live, i), pageSize)
  {
    forall q: nat ensures Count(live, q, pageSize) == Count(Without(live, i), q, pageSize) + One(live[i], q, pageSize) {
      CountWithout(live, i, q, pageSize);
    }
  }

  class LockedPageManager {
    const pageSize: nat
    var histogram: map<nat, int>
    /** The pages the operating system has been told to lock. */
    var locked: set<nat>
    /** The ranges locked and not yet unlocked. */
    ghost var live: seq<Range>

    /** A page is counted once for every live range that touches it, and locked exactly while one does. */
    ghost predicate Valid()
      reads this
    {
      pageSize >= 1 && Counted(histogram, live, pageSize) && locked == histogram.Keys
    }

    constructor (pageSize: nat)
      requires pageSize >= 1
      ensures Valid() && this.pageSize == pageSize && live == []
    {
      this.pageSize, histogram, locked, live := pageSize, map[], {}, [];
    }

    /** Count the range on every page it touches; lock the pages that were not locked. */
    method LockRange(p: nat, size: nat)
      requires Valid()
      modifies this
      ensures Valid() && live == old(live) + [Range(p, size)]
    {
      ghost var r := Range(p, size);
      if size != 0 {
        var start, end := PageOf(p, pageSize), PageOf(p + size - 1, pageSize);
        PageOfIsPage(p, pageSize);
        CountingStart(histogram, live, r, 1, pageSize);
        var page := start;
        while page <= end
          invariant page % pageSize == 0 && page >= start && live == old(live)
          invariant Counting(histogram, live, r, 1, page, pageSize) && locked == histogram.Keys
          decreases end + pageSize - page
        {
          TouchesExact(r, page, pageSize);
          LockPage(page, r);
          NextPage(page, pageSize);
          page := page + pageSize;
        }
        CountingEnd(histogram, live, r, 1, page, pageSize);
      }
      LockDone(histogram, live, r, pageSize);
      live := live + [r];
    }

    method LockPage(page: nat, ghost r: Range)
      requires pageSize >= 1 && Counting(histogram, live, r, 1, page, pageSize) && Touches(r, page, pageSize)
      requires locked == histogram.Keys
      modifies `histogram, `locked
      ensures Counting(histogram, live, r, 1, page + pageSize, pageSize) && locked == histogram.Keys
    {
      if page !in histogram {
        assert page !in locked;
        locked := locked + {page};
        histogram := histogram[page := 1];
      } else {
        histogram := histogram[page := histogram[page] + 1];
      }
      CountingStep(old(histogram), histogram, live, r, 1, page, pageSize);
    }

    /** Take back the count of a live range; unlock the pages nothing else holds. */
    method UnlockRange(p: nat, size: nat, ghost i: nat)
      requires Valid() && i < |live| && live[i] == Range(p, size)
      modifies this
      ensures Valid() && live == Without(old(live), i)
    {
      ghost var r := live[i];
      if size != 0 {
        var start, end := PageOf(p, pageSize), PageOf(p + size - 1, pageSize);
        PageOfIsPage(p, pageSize);
        CountingStart(histogram, live, r, -1, pageSize);
        var page := start;
        while page <= end
          invariant page % pageSize == 0 && page >= start && live == old(live)
          invariant Counting(histogram, live, r, -1, page, pageSize) && locked == histogram.Keys
          decreases end + pageSize - page
        {
          TouchesExact(r, page, pageSize);
          CountWithout(live, i, page, pageSize);
          UnlockPage(page, r);
          NextPage(page, pageSize);
          page := page + pageSize;
        }
        CountingEnd(histogram, live, r, -1, page, pageSize);
      }
      UnlockDone(histogram, live, i, pageSize);
      live := Without(live, i);
    }

    method UnlockPage(page: nat, ghost r: Range)
      requires pageSize >= 1 && Counting(histogram, live, r, -1, page, pageSize) && Touches(r, page, pageSize)
      requires Count(live, page, pageSize) > 0 && locked == histogram.Keys
      modifies `histogram, `locked
      ensures Counting(histogram, live, r, -1, page + pageSize, pageSize) && locked == histogram.Keys
    {
      assert At(histogram, page) > 0;
      histogram := histogram[page := histogram[page] - 1];
      if histogram[page] == 0 {
        assert page in locked;
        locked := locked - {page};
        histogram := histogram - {page};
      }
      CountingStep(old(histogram), histogram, live, r, -1, page, pageSize);
    }

    method GetLockedPageCount() returns (n: nat)
      requires Valid()
      ensures n == |locked|
      ensures n == 0 <==> forall page: nat :: Count(live, page, pageSize) == 0
    {
      n := |histogram|;
      assert n == |histogram.Keys|;
      if n == 0 {
        forall page: nat ensures Count(live, page, pageSize) == 0 {
          assert page !in histogram.Keys;
          assert At(histogram, page) == 0;
        }
      } else {
        ghost var page :| page in histogram.Keys;
        assert Count(live, page, pageSize) == At(histogram, page) > 0;
      }
    }

    /** When every range has been unlocked no page is left. */
    lemma Released()
      requires Valid() && live == []
      ensures histogram == map[] && locked == {}
    {
      forall page: nat ensures page !in histogram {
        assert At(histogram, page) == Count(live, page, pageSize) == 0;
      }
    }
  }
}
