/**
 * 1,000,000,007 is prime, by a chain of Pocklington certificates: a power of `a` that is one modulo `n`, with an
 * inverse modulo `n` for each smaller power less one, leaves `n` no divisor up to its square root.
 */
module Prime {
  import opened Numbers

  lemma PowerOne(a: nat, n: nat)
    requires a < n
    ensures Power(a, n, 1, a)
  {
    assert Pow(a, 1) == a * Pow(a, 0) == a;
  }

  lemma PowerDown(a: nat, n: nat, p: nat, e: nat)
    requires n > 1 && p > 1 && Divides(p, n) && Power(a, n, e, 1)
    ensures Power(a, p, e, 1)
  {
    ModDown(Pow(a, e), n, p);
  }

  lemma ModDown(x: nat, n: nat, p: nat)
    requires n > 1 && p > 1 && Divides(p, n) && x % n == 1
    ensures x % p == 1
  {
    var q, s := x / n, n / p;
    assert x == n * q + 1 && n == p * s;
    MulAssoc(p, s, q);
    ModUnique(p, x, s * q, 1);
  }

  /** `v - 1` is invertible modulo `n`, so it is a multiple of no divisor of `n`. */
  lemma NotOne(a: nat, n: nat, p: nat, e: nat, v: nat, x: int, y: int)
    requires p > 1 && Divides(p, n) && Power(a, n, e, v) && (v - 1) * x == 1 + n * y
    ensures !Power(a, p, e, 1)
  {
    if Power(a, p, e, 1) {
      var q, s, t := Pow(a, e) / n, n / p, Pow(a, e) / p;
      assert n == p * s && n * q == p * (s * q);
      assert v - 1 == p * (t - s * q);
      var u := t - s * q;
      assert (p * u) * x == p * (u * x) && (p * s) * y == p * (s * y);
      assert p * (u * x - s * y) == 1;
      MultipleGrows(p, u * x - s * y);
      assert false;
    }
  }

  lemma OrderOf(a: nat, n: nat, p: nat) returns (o: nat)
    requires 1 < p && n > 1 && Divides(p, n) && Power(a, n, n - 1, 1)
    ensures Order(a, p, o) && o < p && Divides(o, n - 1)
  {
    DivisorAtMost(p, n);
    PowerDown(a, n, p, n - 1);
    var e := SmallExponent(a, p, n - 1);
    o := LeastExponent(a, p, e);
    OrderDivides(a, p, o, n - 1);
  }

  /** The inverse of `v - 1` puts the prime `r` into the order of `a`. */
  lemma InOrder(a: nat, n: nat, p: nat, o: nat, r: nat, k: nat, v: nat, x: int, y: int)
    requires 1 < p && n > 1 && Divides(p, n) && Order(a, p, o) && Divides(o, n - 1)
    requires IsPrime(r) && n - 1 == r * k && Power(a, n, k, v) && (v - 1) * x == 1 + n * y
    ensures Divides(r, o)
  {
    NotOne(a, n, p, k, v, x, y);
    PrimeInOrder(a, p, o, n - 1, r, k);
  }

  /** A number whose divisors all exceed its root is a prime. */
  lemma FewDivisors(n: nat, b: nat)
    requires n > 1 && n < (b + 1) * (b + 1)
    requires forall p: nat :: 1 < p && Divides(p, n) ==> p > b
    ensures IsPrime(n)
  {
    hide Divides;
    forall d: int | d > 0 && Divides(d, n)
      ensures d == 1 || d == n
    {
      var e := Cofactor(n, d);
      LargeProduct(b, d, e);
    }
  }

  lemma Cofactor(n: nat, d: nat) returns (e: nat)
    requires n > 1 && d > 0 && Divides(d, n)
    ensures e > 0 && n == d * e && Divides(e, n) && (e == 1 ==> d == n)
  {
    e := n / d;
    assert n == d * e;
    MultipleGrows(d, e);
    ModOfMultiple(e, d);
  }

  lemma LargeProduct(b: nat, d: nat, e: nat)
    ensures d > b && e > b ==> d * e >= (b + 1) * (b + 1)
  {
    if d > b && e > b {
      var x, y := d - b - 1, e - b - 1;
      assert d * e == (b + 1) * (b + 1) + x * (b + 1) + (b + 1) * y + x * y;
    }
  }

  /** One binary digit of the exponent, in steps of `a` to the power `k`. */
  lemma Twice(a: nat, n: nat, k: nat, h: nat, e: nat, v: nat, one: bool, q: nat, w: nat)
    requires Power(a, n, k, h) && Power(a, n, e, v)
    requires v * v * (if one then h else 1) == q * n + w && w < n
    ensures Power(a, n, 2 * e + (if one then k else 0), w)
  {
    hide Pow, Power;
    PowerAdd(a, n, e, v, e, v);
    if one {
      PowerAdd(a, n, 2 * e, v * v % n, k, h);
      Remainder(n, v * v, h, q, w);
    } else {
      ModUnique(n, v * v, q, w);
    }
  }

  lemma Remainder(n: nat, x: nat, h: nat, q: nat, w: nat)
    requires x * h == q * n + w && w < n
    ensures (x % n) * h % n == w
  {
    var p, u := x / n, x % n;
    assert x == n * p + u;
    assert x * h == n * p * h + u * h;
    MulAssoc(n, p, h);
    assert u * h == n * (q - p * h) + w;
    ModUnique(n, u * h, q - p * h, w);
  }

  /** One hexadecimal digit of the exponent. */
  lemma Four(a: nat, n: nat, k: nat, h: nat, e: nat, v: nat, d: nat,
             q1: nat, v1: nat, q2: nat, v2: nat, q3: nat, v3: nat, q4: nat, v4: nat)
    requires d < 16 && Power(a, n, k, h) && Power(a, n, e, v)
    requires v * v * (if d >= 8 then h else 1) == q1 * n + v1 && v1 < n
    requires v1 * v1 * (if d % 8 >= 4 then h else 1) == q2 * n + v2 && v2 < n
    requires v2 * v2 * (if d % 4 >= 2 then h else 1) == q3 * n + v3 && v3 < n
    requires v3 * v3 * (if d % 2 == 1 then h else 1) == q4 * n + v4 && v4 < n
    ensures Power(a, n, 16 * e + k * d, v4)
  {
    hide Power;
    var e1 := 2 * e + (if d >= 8 then k else 0);
    var e2 := 2 * e1 + (if d % 8 >= 4 then k else 0);
    var e3 := 2 * e2 + (if d % 4 >= 2 then k else 0);
    Twice(a, n, k, h, e, v, d >= 8, q1, v1);
    Twice(a, n, k, h, e1, v1, d % 8 >= 4, q2, v2);
    Twice(a, n, k, h, e2, v2, d % 4 >= 2, q3, v3);
    Twice(a, n, k, h, e3, v3, d % 2 == 1, q4, v4);
    Digits(k, d);
  }

  lemma Digits(k: nat, d: nat)
    requires d < 16
    ensures (if d >= 8 then 8 * k else 0) + (if d % 8 >= 4 then 4 * k else 0)
         + (if d % 4 >= 2 then 2 * k else 0) + (if d % 2 == 1 then k else 0) == k * d
  {
    var b3, b2, b1 := d / 8, d % 8 / 4, d % 4 / 2;
    assert d == 8 * b3 + 4 * b2 + 2 * b1 + d % 2;
    assert k * d == 8 * (k * b3) + 4 * (k * b2) + 2 * (k * b1) + k * (d % 2);
  }

  // ---- The certificates: 1000000006 == 2 * 500000003, 500000002 == 3362 * 148721, 148720 == 208 * 5 * 11 * 13 ----

  lemma Powers148721()
    ensures Power(6, 148721, 148720, 1)
    ensures Power(6, 148721, 29744, 75923)
    ensures Power(6, 148721, 13520, 74939)
    ensures Power(6, 148721, 11440, 18050)
  {
    hide Pow, Power;
    var a, n := 6, 148721;
    PowerZero(a, n);
    PowerOne(a, n);
    Four(a, n, 1, 6, 0, 1, 13, 0, 6, 0, 216, 0, 46656, 87820, 15796);
    Four(a, n, 1, 6, 13, 15796, 0, 1677, 108499, 79155, 22246, 3327, 89749, 54161, 4920);
    Four(a, n, 208, 4920, 0, 1, 3, 0, 1, 0, 1, 0, 4920, 800798, 8642);
    Four(a, n, 208, 4920, 624, 8642, 7, 502, 26222, 22747015, 139465, 643462538, 113102, 423188030, 18050);
    Four(a, n, 208, 4920, 0, 1, 4, 0, 1, 0, 4920, 162, 113598, 86769, 133155);
    Four(a, n, 208, 4920, 832, 133155, 1, 119218, 33847, 7703, 21546, 3121, 71875, 170902541, 74939);
    Four(a, n, 208, 4920, 0, 1, 8, 0, 4920, 162, 113598, 86769, 133155, 119218, 33847);
    Four(a, n, 208, 4920, 1664, 33847, 15, 37899472, 116968, 452612906, 84854, 238197634, 148606, 730576157, 75923);
    Four(a, n, 208, 4920, 0, 1, 2, 0, 1, 0, 1, 0, 4920, 162, 113598);
    Four(a, n, 208, 4920, 416, 113598, 12, 426907885, 6595, 1438872, 120288, 97290, 136854, 125933, 135623);
    Four(a, n, 208, 4920, 9152, 135623, 11, 608498482, 53158, 19000, 73964, 180981250, 135070, 603546319, 1);
  }

  lemma Powers500000003()
    ensures Power(2, 500000003, 500000002, 1)
    ensures Power(2, 500000003, 3362, 233858057)
  {
    hide Pow, Power;
    var a, n := 2, 500000003;
    PowerZero(a, n);
    PowerOne(a, n);
    Four(a, n, 1, 2, 0, 1, 13, 0, 2, 0, 8, 0, 64, 0, 8192);
    Four(a, n, 1, 2, 13, 8192, 2, 0, 67108864, 9007199, 100348899, 40279605, 440185587, 387526699, 339954472);
    Four(a, n, 1, 2, 210, 339954472, 2, 231138084, 339384532, 230363719, 369767867, 546913098, 290720084, 169036333,
         233858057);
    Four(a, n, 3362, 233858057, 0, 1, 2, 0, 1, 0, 1, 0, 233858057, 109379180, 495677709);
    Four(a, n, 3362, 233858057, 6724, 495677709, 4, 491392779, 225310344, 23743491976474891, 94568479, 17886394,
         166714259, 55587287, 487157220);
    Four(a, n, 3362, 233858057, 121032, 487157220, 4, 474644311, 74195467, 2574761908724778, 102028739, 20819727,
         19470940, 758235, 2208895);
    Four(a, n, 3362, 233858057, 1949960, 2208895, 15, 2282088457515, 274975880, 35364826459197978, 418746866,
         82013523282663553, 373108833, 65110853973046279, 268070836);
    Four(a, n, 3362, 233858057, 31249790, 268070836, 1, 143723945, 182567061, 66661463, 62193332, 7736021, 22054161,
         227490576603832, 1);
  }

  lemma Powers1000000007()
    ensures Power(2, 1000000007, 1000000006, 1)
    ensures Power(2, 1000000007, 2, 4)
  {
    hide Pow, Power;
    var a, n := 2, 1000000007;
    PowerZero(a, n);
    PowerOne(a, n);
    PowerAdd(a, n, 1, a, 1, a);
    Four(a, n, 1, 2, 0, 1, 3, 0, 1, 0, 1, 0, 2, 0, 8);
    Four(a, n, 1, 2, 3, 8, 11, 0, 128, 0, 16384, 0, 536870912, 576460748, 268198252);
    Four(a, n, 1, 2, 59, 268198252, 9, 143860603, 744686787, 554558406, 850474527, 723306916, 12725317, 323867,
         383233909);
    Four(a, n, 1, 2, 953, 383233909, 10, 293736455, 958685377, 919077645, 640088614, 819426861, 808893965, 654309442,
         33255131);
    Four(a, n, 1, 2, 15258, 33255131, 12, 2211807, 460171673, 423515934, 298626320, 89177678, 372498654, 138755246,
         260524994);
    Four(a, n, 1, 2, 244140, 260524994, 10, 135746544, 47174264, 2225411, 168363819, 56692750, 699680272, 489552479,
         599126631);
    Four(a, n, 1, 2, 3906250, 599126631, 0, 358952717, 460741142, 212282398, 445487378, 198459002, 568101870,
         322739732, 438318776);
    Four(a, n, 1, 2, 62500000, 438318776, 6, 192123348, 49274740, 4855999, 970143207, 1882355671, 1, 0, 1);
  }

  lemma SmallPrimes()
    ensures IsPrime(5) && IsPrime(11) && IsPrime(13)
  {
  }

  lemma Multiple715(o: nat)
    requires o > 0 && Divides(5, o) && Divides(11, o) && Divides(13, o)
    ensures o >= 715
  {
  }

  lemma Prime148721()
    ensures IsPrime(148721)
  {
    hide Pow, Power, Order;
    SmallPrimes();
    Powers148721();
    forall p: nat | 1 < p && Divides(p, 148721)
      ensures p > 385
    {
      var o := OrderOf(6, 148721, p);
      InOrder(6, 148721, p, o, 5, 29744, 75923, 51669, 26377);
      InOrder(6, 148721, p, o, 11, 13520, 74939, 70562, 35555);
      InOrder(6, 148721, p, o, 13, 11440, 18050, 17246, 2093);
      Multiple715(o);
    }
    FewDivisors(148721, 385);
  }

  lemma Prime500000003()
    ensures IsPrime(500000003)
  {
    hide Pow, Power, Order;
    Prime148721();
    Powers500000003();
    forall p: nat | 1 < p && Divides(p, 500000003)
      ensures p > 148721
    {
      var o := OrderOf(2, 500000003, p);
      InOrder(2, 500000003, p, o, 148721, 3362, 233858057, 83853663, 39219709);
      DivisorAtMost(148721, o);
    }
    FewDivisors(500000003, 148721);
  }

  /** The spacing of the mining threads' first nonces. */
  lemma Prime1000000007()
    ensures IsPrime(1000000007)
  {
    hide Pow, Power, Order;
    Prime500000003();
    Powers1000000007();
    forall p: nat | 1 < p && Divides(p, 1000000007)
      ensures p > 500000003
    {
      var o := OrderOf(2, 1000000007, p);
      InOrder(2, 1000000007, p, o, 500000003, 2, 4, 333333336, 1);
      DivisorAtMost(500000003, o);
    }
    FewDivisors(1000000007, 500000003);
  }
}
