/** Divisibility, and powers modulo a number. */
module Numbers {
  import opened Util

  predicate Divides(d: int, n: int)
    requires d > 0
  {
    n % d == 0
  }

  ghost predicate Coprime(a: int, b: int) {
    forall d: int | d > 0 :: Divides(d, a) && Divides(d, b) ==> d == 1
  }

  lemma ModOfMultiple(d: int, q: int)
    requires d > 0
    ensures (d * q) % d == 0
  {
    ModUnique(d, d * q, q, 0);
  }

  lemma MultipleGrows(d: int, k: int)
    requires d > 0
    ensures k >= 1 ==> d * k >= d
    ensures k <= -1 ==> d * k <= -d
  {
  }

  lemma ModUnique(d: int, n: int, q: int, r: int)
    requires d > 0 && n == d * q + r && 0 <= r < d
    ensures n % d == r && n / d == q
  {
    var q2, r2 := n / d, n % d;
    assert n == d * q2 + r2;
    assert d * (q - q2) == r2 - r;
    MultipleGrows(d, q - q2);
  }

  lemma DividesCombination(d: int, a: int, b: int, x: int, y: int)
    requires d > 0 && Divides(d, a) && Divides(d, b)
    ensures Divides(d, a * x + b * y)
  {
    var p, q := a / d, b / d;
    assert a == d * p && b == d * q;
    assert a * x == d * (p * x) && b * y == d * (q * y);
    assert a * x + b * y == d * (p * x + q * y);
    ModOfMultiple(d, p * x + q * y);
  }

  /** Euclid's algorithm with its coefficients. */
  lemma {:induction false} Bezout(a: nat, b: nat) returns (g: nat, x: int, y: int)
    requires a > 0
    ensures g > 0 && Divides(g, a) && Divides(g, b) && a * x + b * y == g
    decreases b
  {
    if b == 0 {
      g, x, y := a, 1, 0;
    } else {
      var x1, y1;
      g, x1, y1 := Bezout(b, a % b);
      x, y := y1, x1 - (a / b) * y1;
      BezoutStep(a, b, g, x1, y1);
    }
  }

  lemma BezoutStep(a: nat, b: nat, g: nat, x1: int, y1: int)
    requires b > 0 && g > 0 && Divides(g, b) && Divides(g, a % b) && b * x1 + (a % b) * y1 == g
    ensures Divides(g, a) && a * y1 + b * (x1 - (a / b) * y1) == g
  {
    var q, r := a / b, a % b;
    assert a == b * q + r * 1;
    DividesCombination(g, b, r, q, 1);
    assert a * y1 == b * q * y1 + r * y1;
    assert b * (x1 - q * y1) == b * x1 - b * q * y1 by { assert b * (q * y1) == b * q * y1; }
  }

  /** A divisor of a product that shares nothing with one factor divides the other. */
  lemma EuclidLemma(t: int, p: nat, n: int)
    requires t > 0 && Coprime(t, p) && Divides(t, p * n)
    ensures Divides(t, n)
  {
    var g, x, y := Bezout(t, p);
    assert Divides(g, t) && Divides(g, p);
    var z := (p * n) / t;
    assert n == (t * x + p * y) * n;
    assert (t * x + p * y) * n == t * (x * n) + (p * n) * y by {
      assert t * x * n == t * (x * n) && p * y * n == (p * n) * y;
    }
    ModOfMultiple(t, 1);
    DividesCombination(t, t, p * n, x * n, y);
  }

  lemma SmallMultiple(t: int, n: int)
    requires t > 0 && Divides(t, n) && -t < n < t
    ensures n == 0
  {
    var q := n / t;
    assert n == t * q;
    MultipleGrows(t, q);
  }

  lemma SameMod(d: int, a: int, b: int, n: int)
    requires d > 0 && a == d * n + b
    ensures b % d == a % d
  {
    var q, r := b / d, b % d;
    assert a == d * (n + q) + r;
    ModUnique(d, a, n + q, r);
  }

  ghost predicate IsPrime(n: int) {
    n > 1 && forall d: int | d > 0 :: Divides(d, n) ==> d == 1 || d == n
  }

  // ---- Powers and orders modulo a number ----

  function Pow(a: nat, e: nat): nat {
    if e == 0 then 1 else a * Pow(a, e - 1)
  }

  lemma MulAssoc(x: int, y: int, z: int)
    ensures x * (y * z) == (x * y) * z
  {
  }

  lemma {:induction false} PowAdd(a: nat, i: nat, j: nat)
    ensures Pow(a, i + j) == Pow(a, i) * Pow(a, j)
  {
    if i > 0 {
      PowAdd(a, i - 1, j);
      MulAssoc(a, Pow(a, i - 1), Pow(a, j));
    }
  }

  lemma ModTimes(x: int, y: int, n: int)
    requires n > 0
    ensures (x * y) % n == ((x % n) * (y % n)) % n
  {
    var p, q := x / n, y / n;
    var u, v := x % n, y % n;
    assert x == n * p + u && y == n * q + v;
    assert x * y == n * (p * y + u * q) + u * v by {
      assert x * y == n * p * y + u * y;
      assert u * y == u * (n * q) + u * v;
      assert n * p * y == n * (p * y) && u * (n * q) == n * (u * q);
    }
    SameMod(n, x * y, u * v, p * y + u * q);
  }

  /** `a` to the power `e` leaves `v` modulo `n`. */
  ghost predicate Power(a: nat, n: nat, e: nat, v: nat) {
    n > 0 && Pow(a, e) % n == v
  }

  lemma PowerAdd(a: nat, n: nat, e: nat, v: nat, f: nat, w: nat)
    requires Power(a, n, e, v) && Power(a, n, f, w)
    ensures Power(a, n, e + f, v * w % n)
  {
    PowAdd(a, e, f);
    ModTimes(Pow(a, e), Pow(a, f), n);
  }

  lemma PowerZero(a: nat, n: nat)
    requires n > 1
    ensures Power(a, n, 0, 1)
  {
  }

  lemma {:induction false} PowerOnes(a: nat, n: nat, e: nat, k: nat)
    requires n > 1 && Power(a, n, e, 1)
    ensures Power(a, n, e * k, 1)
  {
    hide Power;
    if k == 0 {
      PowerZero(a, n);
      assert e * k == 0;
    } else {
      PowerOnes(a, n, e, k - 1);
      PowerAdd(a, n, e * (k - 1), 1, e, 1);
      assert e * (k - 1) + e == e * k;
    }
  }

  /** The least positive exponent that gives one. */
  ghost predicate Order(a: nat, p: nat, o: nat) {
    o >= 1 && Power(a, p, o, 1) && forall e: nat :: 1 <= e < o ==> !Power(a, p, e, 1)
  }

  lemma {:induction false} LeastExponent(a: nat, p: nat, e: nat) returns (o: nat)
    requires e >= 1 && Power(a, p, e, 1)
    ensures o <= e && Order(a, p, o)
  {
    if f: nat :| 1 <= f < e && Power(a, p, f, 1) {
      o := LeastExponent(a, p, f);
    } else {
      o := e;
    }
  }

  /** Equal powers differ by an exponent that gives one. */
  lemma Cancelled(a: nat, p: nat, m: nat, i: nat, j: nat, v: nat)
    requires p > 1 && Power(a, p, m, 1) && i < j && i <= m && Power(a, p, i, v) && Power(a, p, j, v)
    ensures Power(a, p, j - i, 1)
  {
    var w := Pow(a, m - i) % p;
    PowerAdd(a, p, m - i, w, i, v);
    PowerAdd(a, p, m - i, w, j, v);
    PowerAdd(a, p, m, 1, j - i, Pow(a, j - i) % p);
    assert m - i + j == m + (j - i);
    SmallMod(Pow(a, j - i) % p, p);
  }

  lemma SmallMod(v: nat, p: nat)
    requires v < p
    ensures v % p == v
  {
  }

  lemma PowerNonzero(a: nat, p: nat, m: nat, i: nat)
    requires p > 1 && Power(a, p, m, 1) && i <= m
    ensures Pow(a, i) % p != 0
  {
    PowerAdd(a, p, i, Pow(a, i) % p, m - i, Pow(a, m - i) % p);
  }

  /** The numbers from one to `n`. */
  ghost function Residues(n: nat): (r: set<nat>)
    ensures |r| == n && forall i: nat :: i in r <==> 1 <= i <= n
  {
    if n == 0 then {} else Residues(n - 1) + {n}
  }

  /** More powers than nonzero residues: one of the first `p - 1` exponents gives one. */
  lemma SmallExponent(a: nat, p: nat, m: nat) returns (e: nat)
    requires p > 1 && Power(a, p, m, 1) && p - 1 <= m
    ensures 1 <= e < p && Power(a, p, e, 1)
  {
    var vs := seq(p, (i: nat) => Pow(a, i) % p);
    if Distinct(vs) {
      var residues := Residues(p - 1);
      forall v | v in vs
        ensures v in residues
      {
        var i :| 0 <= i < p && v == vs[i];
        PowerNonzero(a, p, m, i);
      }
      DistinctSize(vs);
      SubsetSize(Elements(vs), residues);
      assert false;
    }
    var i: nat, j: nat :| i < j < p && vs[i] == vs[j];
    Cancelled(a, p, m, i, j, vs[i]);
    e := j - i;
  }

  lemma OrderDivides(a: nat, p: nat, o: nat, m: nat)
    requires p > 1 && Order(a, p, o) && Power(a, p, m, 1)
    ensures Divides(o, m)
  {
    var k, r := m / o, m % o;
    assert m == o * k + r;
    PowerOnes(a, p, o, k);
    PowerAdd(a, p, o * k, 1, r, Pow(a, r) % p);
    SmallMod(Pow(a, r) % p, p);
    assert Power(a, p, r, 1);
  }

  lemma DivisorAtMost(d: int, n: int)
    requires d > 0 && n > 0 && Divides(d, n)
    ensures d <= n
  {
    MultipleGrows(d, n / d);
    assert n == d * (n / d);
  }

  /** A prime `r` that can be split off `m == r * k` but not off the exponent of one divides the order. */
  lemma PrimeInOrder(a: nat, p: nat, o: nat, m: nat, r: nat, k: nat)
    requires p > 1 && Order(a, p, o) && Divides(o, m) && IsPrime(r) && m == r * k && !Power(a, p, k, 1)
    ensures Divides(r, o)
  {
    if !Divides(r, o) {
      assert Coprime(o, r);
      EuclidLemma(o, r, k);
      assert k == o * (k / o);
      PowerOnes(a, p, o, k / o);
      assert false;
    }
  }
}
