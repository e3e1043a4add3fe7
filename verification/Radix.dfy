/** Digit sequences, most significant first, and the multiply-and-add step on a fixed buffer of digits. */
module Radix {

  function Pow(base: nat, n: nat): (p: nat)
    ensures base >= 1 ==> p >= 1
  {
    if n == 0 then 1 else base * Pow(base, n - 1)
  }

  lemma {:induction false} PowAdd(base: nat, m: nat, n: nat)
    ensures Pow(base, m + n) == Pow(base, m) * Pow(base, n)
  {
    if m > 0 {
      PowAdd(base, m - 1, n);
      assert Pow(base, m + n) == base * Pow(base, m - 1 + n);
      Associate(base, Pow(base, m - 1), Pow(base, n));
    }
  }

  lemma Associate(a: nat, b: nat, c: nat)
    ensures a * (b * c) == (a * b) * c
  {
  }

  lemma {:induction false} PowMul(base: nat, m: nat, n: nat, e: nat)
    requires e == m * n
    ensures Pow(base, e) == Pow(Pow(base, m), n)
    decreases n
  {
    if n > 0 {
      assert e == m + m * (n - 1);
      PowMul(base, m, n - 1, e - m);
      PowAdd(base, m, e - m);
    }
  }

  lemma {:induction false} PowGrows(base: nat, m: nat, n: nat)
    requires base >= 1 && m <= n
    ensures Pow(base, m) <= Pow(base, n)
    decreases n - m
  {
    if m < n {
      PowGrows(base, m, n - 1);
      assert Pow(base, n) == base * Pow(base, n - 1) >= Pow(base, n - 1);
    }
  }

  lemma {:induction false} PowMonotone(a: nat, b: nat, n: nat)
    requires a <= b
    ensures Pow(a, n) <= Pow(b, n)
  {
    if n > 0 {
      PowMonotone(a, b, n - 1);
      Products(a, b, Pow(a, n - 1), Pow(b, n - 1));
    }
  }

  lemma Products(a: nat, b: nat, x: nat, y: nat)
    requires a <= b && x <= y
    ensures a * x <= b * y
  {
    assert a * x <= a * y <= b * y;
  }

  lemma {:induction false} PowStrict(a: nat, b: nat, n: nat)
    requires a < b && n >= 1
    ensures Pow(a, n) < Pow(b, n)
  {
    PowMonotone(a, b, n - 1);
    Products(a, b - 1, Pow(a, n - 1), Pow(b, n - 1));
    assert Pow(b, n) == (b - 1) * Pow(b, n - 1) + Pow(b, n - 1);
  }

  lemma PowSwap(base: nat, m: nat, n: nat)
    ensures Pow(Pow(base, m), n) == Pow(Pow(base, n), m)
  {
    var e := m * n;
    assert e == n * m;
    PowMul(base, m, n, e);
    PowMul(base, n, m, e);
  }

  lemma PowRoot(x: nat, y: nat, n: nat)
    requires n >= 1 && Pow(x, n) <= Pow(y, n)
    ensures x <= y
  {
    if y < x {
      PowStrict(y, x, n);
    }
  }

  lemma PowRaised(b: nat, q: nat, m: nat, n: nat, p: nat)
    requires b >= 1 && q * m <= n * p
    ensures Pow(Pow(b, q), m) <= Pow(Pow(b, n), p)
  {
    var e, f := q * m, n * p;
    PowMul(b, q, m, e);
    PowMul(b, n, p, f);
    PowGrows(b, e, f);
  }

  /** If a to the p is at most b to the q, then a to the m is at most b to the n whenever q/p <= n/m. */
  lemma Outgrows(a: nat, p: nat, b: nat, q: nat, m: nat, n: nat)
    requires p >= 1 && b >= 1 && Pow(a, p) <= Pow(b, q) && q * m <= n * p
    ensures Pow(a, m) <= Pow(b, n)
  {
    PowMonotone(Pow(a, p), Pow(b, q), m);
    PowRaised(b, q, m, n, p);
    PowSwap(a, m, p);
    PowRoot(Pow(a, m), Pow(b, n), p);
  }

  // ---------------------------------------------------------------- digits

  ghost predicate DigitsOf(d: seq<nat>, base: nat) {
    forall i :: 0 <= i < |d| ==> d[i] < base
  }

  ghost function Value(d: seq<nat>, base: nat): nat {
    if d == [] then 0 else Value(d[..|d| - 1], base) * base + d[|d| - 1]
  }

  lemma ValueSnoc(d: seq<nat>, x: nat, base: nat)
    ensures Value(d + [x], base) == Value(d, base) * base + x
  {
    assert (d + [x])[..|d|] == d;
  }

  lemma Distribute(x: nat, p: nat, v: nat, base: nat)
    ensures (x * p + v) * base == x * (base * p) + v * base
  {
    assert x * (base * p) == x * p * base;
  }

  lemma {:induction false} ValueFront(x: nat, d: seq<nat>, base: nat)
    ensures Value([x] + d, base) == x * Pow(base, |d|) + Value(d, base)
    decreases |d|
  {
    if d == [] {
      ValueSnoc([], x, base);
      assert [] + [x] == [x] + d;
    } else {
      var n := |d| - 1;
      ValueFront(x, d[..n], base);
      assert [x] + d == ([x] + d[..n]) + [d[n]];
      ValueSnoc([x] + d[..n], d[n], base);
      Distribute(x, Pow(base, n), Value(d[..n], base), base);
    }
  }

  lemma {:induction false} ValueBelow(d: seq<nat>, base: nat)
    requires DigitsOf(d, base)
    ensures Value(d, base) < Pow(base, |d|)
    decreases |d|
  {
    if d != [] {
      var n := |d| - 1;
      ValueBelow(d[..n], base);
      DigitBelow(Value(d[..n], base), Pow(base, n), base, d[n]);
    }
  }

  lemma DigitBelow(v: nat, p: nat, base: nat, x: nat)
    requires v < p && x < base
    ensures v * base + x < base * p
  {
    Products(v, p - 1, base, base);
    assert (p - 1) * base + base == base * p;
  }

  lemma {:induction false} ValuePositive(d: seq<nat>, base: nat)
    requires d != [] && d[0] != 0 && base >= 1
    ensures Value(d, base) > 0
    decreases |d|
  {
    var n := |d| - 1;
    if n > 0 {
      ValuePositive(d[..n], base);
      assert Value(d[..n], base) * base >= 1;
    }
  }

  /** Leading zeros do not count. */
  lemma {:induction false} ValueZeros(d: seq<nat>, k: nat, base: nat)
    requires k <= |d| && forall i :: 0 <= i < k ==> d[i] == 0
    ensures Value(d, base) == Value(d[k..], base)
    decreases k
  {
    if k == 0 {
      assert d[0..] == d;
    } else {
      ValueZeros(d[1..], k - 1, base);
      assert d[1..][k - 1..] == d[k..];
      assert d == [d[0]] + d[1..];
      ValueFront(d[0], d[1..], base);
    }
  }

  /** The shortest digits of a number. */
  ghost function Digits(v: nat, base: nat): (d: seq<nat>)
    requires base >= 2
    ensures DigitsOf(d, base) && (d != [] ==> d[0] != 0)
  {
    if v == 0 then [] else Digits(v / base, base) + [v % base]
  }

  lemma {:induction false} ValueOfDigits(v: nat, base: nat)
    requires base >= 2
    ensures Value(Digits(v, base), base) == v
  {
    if v > 0 {
      var q, r := LastSplit(v, base);
      ValueOfDigits(q, base);
      ValueExtend(Digits(q, base), r, base, q);
    }
  }

  lemma ValueExtend(d: seq<nat>, x: nat, base: nat, v: nat)
    requires Value(d, base) == v
    ensures Value(d + [x], base) == v * base + x
  {
    ValueSnoc(d, x, base);
  }

  lemma LastSplit(v: nat, base: nat) returns (q: nat, r: nat)
    requires v > 0 && base >= 2
    ensures v == q * base + r && q < v && Digits(v, base) == Digits(q, base) + [r]
  {
    q, r := v / base, v % base;
    Divided(v, base, q, r);
  }

  /** A number has only one sequence of digits without a leading zero. */
  lemma {:induction false} DigitsOfValue(d: seq<nat>, base: nat)
    requires base >= 2 && DigitsOf(d, base) && (d != [] ==> d[0] != 0)
    ensures Digits(Value(d, base), base) == d
    decreases |d|
  {
    if d != [] {
      var n := |d| - 1;
      DigitsOfValue(d[..n], base);
      ValuePositive(d, base);
      DigitsSnoc(Value(d[..n], base), d[n], base, Value(d, base));
      assert d == d[..n] + [d[n]];
    }
  }

  lemma DigitsSnoc(q: nat, x: nat, base: nat, v: nat)
    requires base >= 2 && x < base && v == q * base + x && v > 0
    ensures Digits(v, base) == Digits(q, base) + [x]
  {
    LastDigit(q, x, base);
  }

  /** The digits of a number are what is left of any of its digit sequences after the leading zeros. */
  lemma StrippedDigits(d: seq<nat>, k: nat, base: nat)
    requires base >= 2 && DigitsOf(d, base) && k <= |d|
    requires (forall i :: 0 <= i < k ==> d[i] == 0) && (k < |d| ==> d[k] != 0)
    ensures Digits(Value(d, base), base) == d[k..]
  {
    ValueZeros(d, k, base);
    DigitsOfValue(d[k..], base);
  }

  lemma Divided(v: nat, base: nat, q: nat, r: nat)
    requires base >= 1 && q == v / base && r == v % base
    ensures v == q * base + r
  {
  }

  lemma LastDigit(v: nat, x: nat, base: nat)
    requires x < base
    ensures (v * base + x) / base == v && (v * base + x) % base == x
  {
    var q, r := (v * base + x) / base, (v * base + x) % base;
    assert (q - v) * base == x - r;
    if q > v {
      Products(1, q - v, base, base);
    } else if q < v {
      assert (v - q) * base == r - x;
      Products(1, v - q, base, base);
    }
  }

  // ---------------------------------------------------------------- multiply and add in place

  /** What a buffer and a carry hold is mul times what the buffer held, plus add. */
  ghost predicate Carries(d: seq<nat>, was: seq<nat>, carry: nat, base: nat, mul: nat, add: nat) {
    |d| == |was| && Value(d, base) + carry * Pow(base, |d|) == Value(was, base) * mul + add
  }

  method MulAdd(b: array<nat>, base: nat, mul: nat, add: nat) returns (carry: nat)
    requires base >= 2 && DigitsOf(b[..], base)
    modifies b
    ensures DigitsOf(b[..], base)
    ensures Carries(b[..], old(b[..]), carry, base, mul, add)
  {
    ghost var was := b[..];
    carry := add;
    var i := b.Length;
    while i > 0
      invariant 0 <= i <= b.Length && DigitsOf(b[..], base)
      invariant forall k :: 0 <= k < i ==> b[k] == was[k]
      invariant Carries(b[i..], was[i..], carry, base, mul, add)
    {
      i := i - 1;
      ghost var c, rest := carry, b[i + 1..];
      var digit;
      digit, carry := Digit(carry, mul, b[i], base);
      b[i] := digit;
      assert b[i..] == [digit] + rest && was[i..] == [was[i]] + was[i + 1..];
      CarryStep(rest, was[i + 1..], was[i], c, carry, digit, base, mul, add);
    }
    assert b[..] == b[0..] && was == was[0..];
  }

  method Digit(c: nat, mul: nat, x: nat, base: nat) returns (digit: nat, carry: nat)
    requires base >= 2
    ensures c + mul * x == carry * base + digit && digit < base
  {
    var sum := c + mul * x;
    digit, carry := sum % base, sum / base;
  }

  lemma CarryStep(rest: seq<nat>, was: seq<nat>, x: nat, c: nat, q: nat, r: nat, base: nat, mul: nat, add: nat)
    requires Carries(rest, was, c, base, mul, add)
    requires c + mul * x == q * base + r
    ensures Carries([r] + rest, [x] + was, q, base, mul, add)
  {
    var p := Pow(base, |rest|);
    ValueFront(r, rest, base);
    ValueFront(x, was, base);
    CarryAlgebra(Value(rest, base), Value(was, base), x, c, q, r, base, mul, add, p);
    assert Pow(base, |[r] + rest|) == base * p;
  }

  lemma CarryAlgebra(v: nat, w: nat, x: nat, c: nat, q: nat, r: nat, base: nat, mul: nat, add: nat, p: nat)
    requires v + c * p == w * mul + add && c + mul * x == q * base + r
    ensures r * p + v + q * (base * p) == (x * p + w) * mul + add
  {
    Carried(q, r, base, c + mul * x, p);
    Scaled(v, w, x, c, mul, add, p);
  }

  lemma Carried(q: nat, r: nat, base: nat, t: nat, p: nat)
    requires t == q * base + r
    ensures r * p + q * (base * p) == t * p
  {
    assert q * (base * p) == q * base * p;
  }

  lemma Scaled(v: nat, w: nat, x: nat, c: nat, mul: nat, add: nat, p: nat)
    requires v + c * p == w * mul + add
    ensures v + (c + mul * x) * p == (x * p + w) * mul + add
  {
    assert (c + mul * x) * p == c * p + mul * x * p;
    assert (x * p + w) * mul == x * p * mul + w * mul;
    assert mul * x * p == x * p * mul by {
      assert mul * x * p == (x * mul) * p == x * (mul * p) == x * (p * mul);
    }
  }

  /** Nothing is carried out of a buffer that is large enough. */
  lemma NoCarry(v: nat, carry: nat, size: nat, base: nat, total: nat)
    requires v + carry * Pow(base, size) == total && total < Pow(base, size)
    ensures carry == 0 && v == total
  {
    if carry > 0 {
      Products(1, carry, Pow(base, size), Pow(base, size));
    }
  }

  /** b = b * mul + x, where b holds the number whose digits in base mul are d and has room for one digit more. */
  method Append(b: array<nat>, base: nat, mul: nat, ghost d: seq<nat>, x: nat)
    requires base >= 2 && DigitsOf(b[..], base) && DigitsOf(d, mul) && x < mul
    requires Value(b[..], base) == Value(d, mul) && Pow(mul, |d| + 1) <= Pow(base, b.Length)
    modifies b
    ensures DigitsOf(b[..], base) && Value(b[..], base) == Value(d + [x], mul)
  {
    var carry := MulAdd(b, base, mul, x);
    ValueSnoc(d, x, mul);
    ValueBelow(d + [x], mul);
    NoCarry(Value(b[..], base), carry, b.Length, base, Value(d + [x], mul));
    assert carry == 0;
  }
}
