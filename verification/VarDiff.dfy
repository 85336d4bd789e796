/**
 * The variable-difficulty controller of share_handler.rs. Floating point is modelled by reals, so the
 * finiteness tests of the source are always true here; the square root is any function that is one.
 */
module VarDiff {
  import opened Util

  const MIN_ELAPSED := 30.0
  const MAX_ELAPSED_NO_SHARES := 90.0
  const MIN_SHARES := 3.0
  const LOWER_RATIO := 0.75
  const UPPER_RATIO := 1.25
  /** f64::EPSILON, 2^-52. */
  const EPSILON := 1.0 / 4503599627370496.0

  ghost predicate IsSqrt(sqrt: real -> real) {
    forall x: real :: x >= 0.0 ==> sqrt(x) >= 0.0 && sqrt(x) * sqrt(x) == x
  }

  function Abs(x: real): real { if x < 0.0 then -x else x }

  function AtLeastOne(x: real): real { if x < 1.0 then 1.0 else x }

  /** Limit of one adjustment: a factor between one half and two. */
  function ClampStep(x: real): real {
    if x < 0.5 then 0.5 else if x > 2.0 then 2.0 else x
  }

  /** The difficulty after such a step, before it is kept at one or above and rounded. */
  function Stepped(current: real, root: real): real {
    current * ClampStep(root)
  }

  /** The least power of two that is at least `x`, searched upwards from `p`. */
  function CeilPow2(x: real, p: real): real
    requires p >= 1.0
    decreases if p < x then (x - p).Floor + 1 else 0
  {
    if p >= x then p else CeilPow2(x, 2.0 * p)
  }

  /** The greatest power of two that is at most `x`, searched upwards from `p`. */
  function FloorPow2(x: real, p: real): real
    requires 1.0 <= p <= x
    decreases (x - p).Floor + 1
  {
    if 2.0 * p > x then p else FloorPow2(x, 2.0 * p)
  }

  /** `vardiff_pow2_clamp_towards`: round away from `current` to a power of two, but not below one. */
  function Pow2ClampTowards(current: real, next: real): real {
    if next <= 1.0 then 1.0
    else if next >= current then CeilPow2(next, 1.0)
    else FloorPow2(next, 1.0)
  }

  /** `vardiff_compute_next_diff`. */
  function NextDiff(sqrt: real -> real, current: real, shares: real, elapsed: real, expectedSpm: real, clampPow2: bool): Option<real> {
    if current <= 0.0 || elapsed <= 0.0 then None
    else if shares == 0.0 && elapsed >= MAX_ELAPSED_NO_SHARES then
      var next := AtLeastOne(current * 0.5);
      var next := if clampPow2 then Pow2ClampTowards(current, next) else next;
      if Abs(next - current) > EPSILON then Some(next) else None
    else if elapsed < MIN_ELAPSED || shares < MIN_SHARES then None
    else
      var ratio := shares / elapsed * 60.0 / AtLeastOne(expectedSpm);
      if ratio <= 0.0 || LOWER_RATIO < ratio < UPPER_RATIO then None
      else Adjusted(current, ratio, sqrt(ratio), clampPow2)
  }

  /** The adjustment for a ratio outside the dead band, given its square root. */
  function Adjusted(current: real, ratio: real, root: real, clampPow2: bool): Option<real>
    requires current > 0.0
  {
    var next := AtLeastOne(Stepped(current, root));
    var next := if clampPow2 then Pow2ClampTowards(current, next) else next;
    if Abs(next - current) / AtLeastOne(current) < 0.10 then None
    else if Abs(next - current) > EPSILON then Some(next) else None
  }

  // ---- Powers of two ----

  function Pow2(k: nat): real {
    if k == 0 then 1.0 else 2.0 * Pow2(k - 1)
  }

  ghost predicate IsPow2(x: real) {
    exists k: nat :: x == Pow2(k)
  }

  lemma {:induction false} Pow2AtLeastOne(k: nat)
    ensures Pow2(k) >= 1.0
  {
    if k > 0 { Pow2AtLeastOne(k - 1); }
  }

  lemma {:induction false} Pow2Grows(i: nat, j: nat)
    requires i < j
    ensures 2.0 * Pow2(i) <= Pow2(j)
    decreases j
  {
    Pow2AtLeastOne(i);
    if i < j - 1 { Pow2Grows(i, j - 1); }
  }

  /** Powers of two less than a factor of two apart are equal. */
  lemma Pow2Apart(x: real, y: real)
    requires IsPow2(x) && IsPow2(y) && x < 2.0 * y && y < 2.0 * x
    ensures x == y
  {
    var i: nat, j: nat :| x == Pow2(i) && y == Pow2(j);
    if i < j { Pow2Grows(i, j); } else if j < i { Pow2Grows(j, i); }
  }

  lemma DoublePow2(x: real)
    requires IsPow2(x)
    ensures IsPow2(2.0 * x) && x >= 1.0
    ensures x > 1.0 ==> IsPow2(x / 2.0) && x >= 2.0
  {
    var k: nat :| x == Pow2(k);
    Pow2AtLeastOne(k);
    assert 2.0 * x == Pow2(k + 1);
    if k > 0 {
      assert x / 2.0 == Pow2(k - 1);
      Pow2AtLeastOne(k - 1);
    }
  }

  lemma {:induction false} CeilPow2Is(x: real, p: real)
    requires IsPow2(p) && p >= 1.0
    ensures var r := CeilPow2(x, p); IsPow2(r) && r >= x && r >= p && (r == p || r / 2.0 < x)
    decreases if p < x then (x - p).Floor + 1 else 0
  {
    DoublePow2(p);
    if p < x { CeilPow2Is(x, 2.0 * p); }
  }

  lemma {:induction false} FloorPow2Is(x: real, p: real)
    requires IsPow2(p) && 1.0 <= p <= x
    ensures var r := FloorPow2(x, p); IsPow2(r) && p <= r <= x < 2.0 * r
    decreases (x - p).Floor + 1
  {
    DoublePow2(p);
    if 2.0 * p <= x { FloorPow2Is(x, 2.0 * p); }
  }

  lemma OneIsPow2()
    ensures IsPow2(1.0)
  {
    assert Pow2(0) == 1.0;
  }

  /** From a power of two, the clamp turns any step up of at most a factor of two into a doubling and any
      step down of at most a factor of two into a halving. */
  lemma ClampDoublesOrHalves(c: real, next: real)
    requires IsPow2(c) && next >= 1.0 && c / 2.0 <= next <= 2.0 * c
    ensures Pow2ClampTowards(c, next) == if next > c then 2.0 * c else if next == c then c else c / 2.0
  {
    DoublePow2(c);
    OneIsPow2();
    if next > c {
      CeilPow2Is(next, 1.0);
      DoublePow2(CeilPow2(next, 1.0));
      Pow2Apart(CeilPow2(next, 1.0), 2.0 * c);
    } else if next == c {
      CeilPow2Is(next, 1.0);
      DoublePow2(CeilPow2(next, 1.0));
      Pow2Apart(CeilPow2(next, 1.0), c);
    } else if next > 1.0 {
      FloorPow2Is(next, 1.0);
      Pow2Apart(FloorPow2(next, 1.0), c / 2.0);
    } else {
      Pow2Apart(1.0, c / 2.0);
    }
  }

  // ---- One tick ----

  lemma Scale(c: real, x: real, y: real)
    requires c >= 0.0 && x <= y
    ensures c * x <= c * y
  {
  }

  /** The unrounded step from `c`. */
  lemma StepBounds(c: real, root: real)
    requires c >= 1.0
    ensures var next := AtLeastOne(Stepped(c, root)); next >= 1.0 && c / 2.0 <= next <= 2.0 * c
  {
    SteppedBetween(c, root, 0.5, 2.0);
  }

  lemma SteppedBetween(c: real, root: real, lo: real, hi: real)
    requires c >= 0.0 && lo <= ClampStep(root) <= hi
    ensures lo * c <= Stepped(c, root) <= hi * c
  {
    Between(c, lo, ClampStep(root), hi, Stepped(c, root));
  }

  lemma Between(c: real, lo: real, f: real, hi: real, x: real)
    requires c >= 0.0 && lo <= f <= hi && x == c * f
    ensures lo * c <= x <= hi * c
  {
    Scale(c, lo, f);
    Scale(c, f, hi);
  }

  /** Without rounding, an adjustment stays within a factor of two and never goes below one. */
  lemma UnclampedStep(sqrt: real -> real, c: real, shares: real, elapsed: real, spm: real)
    requires c >= 1.0
    ensures var r := NextDiff(sqrt, c, shares, elapsed, spm, false);
            r.Some? ==> r.value >= 1.0 && c / 2.0 <= r.value <= 2.0 * c && r.value != c
  {
    var ratio := if elapsed > 0.0 then shares / elapsed * 60.0 / AtLeastOne(spm) else 0.0;
    StepBounds(c, sqrt(ratio));
  }

  lemma RoundedStep(c: real, next: real)
    requires IsPow2(c) && next >= 1.0 && c / 2.0 <= next <= 2.0 * c
    ensures var r := Pow2ClampTowards(c, next);
            Abs(r - c) > EPSILON ==> r >= 1.0 && IsPow2(r) && (r == 2.0 * c || r == c / 2.0)
  {
    DoublePow2(c);
    ClampDoublesOrHalves(c, next);
    hide Pow2ClampTowards, IsPow2;
  }

  lemma AdjustedClamped(c: real, ratio: real, root: real)
    requires IsPow2(c) && c >= 1.0
    ensures var r := Adjusted(c, ratio, root, true);
            r.Some? ==> r.value >= 1.0 && IsPow2(r.value) && (r.value == 2.0 * c || r.value == c / 2.0)
  {
    hide Pow2ClampTowards, IsPow2;
    var next := AtLeastOne(Stepped(c, root));
    StepBounds(c, root);
    RoundedStep(c, next);
  }

  /** With rounding, every adjustment of a power of two exactly doubles or exactly halves it. */
  lemma ClampedStep(sqrt: real -> real, c: real, shares: real, elapsed: real, spm: real)
    requires IsPow2(c)
    ensures var r := NextDiff(sqrt, c, shares, elapsed, spm, true);
            r.Some? ==> r.value >= 1.0 && IsPow2(r.value) && (r.value == 2.0 * c || r.value == c / 2.0)
  {
    DoublePow2(c);
    hide Pow2ClampTowards, IsPow2, Adjusted;
    if elapsed > 0.0 {
      var ratio := shares / elapsed * 60.0 / AtLeastOne(spm);
      AdjustedClamped(c, ratio, sqrt(ratio));
      var next := AtLeastOne(c * 0.5);
      assert c / 2.0 <= next <= 2.0 * c;
      RoundedStep(c, next);
    }
  }

  /** No difficulty yet, or too short a window, or one or two shares, or no share for less than 90 seconds: nothing changes. */
  lemma TooEarly(sqrt: real -> real, c: real, shares: real, elapsed: real, spm: real, clampPow2: bool)
    requires c <= 0.0 || elapsed < 30.0 || (shares < 3.0 && (shares != 0.0 || elapsed < 90.0))
    ensures NextDiff(sqrt, c, shares, elapsed, spm, clampPow2).None?
  {
  }

  /** The difficulty rises only for at least three shares at 1.25 times the expected rate or more, and falls only for at
      least three shares at 0.75 times that rate or less, or for 90 seconds without one. */
  lemma StepDirection(sqrt: real -> real, c: real, shares: real, elapsed: real, spm: real, clampPow2: bool)
    requires IsSqrt(sqrt) && c >= 1.0 && (clampPow2 ==> IsPow2(c))
    ensures var r := NextDiff(sqrt, c, shares, elapsed, spm, clampPow2);
            var expected := if spm < 1.0 then 1.0 else spm;
            r.Some? ==>
              && r.value != c
              && (r.value > c ==> elapsed >= 30.0 && shares >= 3.0 && shares / elapsed * 60.0 >= 1.25 * expected)
              && (r.value < c ==>
                    || (elapsed >= 90.0 && shares == 0.0)
                    || (elapsed >= 30.0 && shares >= 3.0 && shares / elapsed * 60.0 <= 0.75 * expected))
  {
    var r := NextDiff(sqrt, c, shares, elapsed, spm, clampPow2);
    if r.Some? {
      if shares == 0.0 {
        IdleStep(sqrt, c, elapsed, spm, clampPow2);
      } else {
        ObservedAgainst(shares, elapsed, spm);
        var ratio := shares / elapsed * 60.0 / AtLeastOne(spm);
        AdjustedDirection(c, ratio, sqrt(ratio), clampPow2);
      }
    }
  }

  lemma ObservedAgainst(shares: real, elapsed: real, spm: real)
    requires elapsed > 0.0
    ensures var observed, expected := shares / elapsed * 60.0, AtLeastOne(spm);
            && (observed / expected <= 0.75 ==> observed <= 0.75 * expected)
            && (observed / expected >= 1.25 ==> observed >= 1.25 * expected)
  {
    var observed, expected := shares / elapsed * 60.0, AtLeastOne(spm);
    var ratio := observed / expected;
    assert ratio * expected == observed;
    if ratio <= 0.75 { Scale(expected, ratio, 0.75); }
    if ratio >= 1.25 { Scale(expected, 1.25, ratio); }
  }

  lemma AdjustedDirection(c: real, ratio: real, root: real, clampPow2: bool)
    requires c >= 1.0 && (clampPow2 ==> IsPow2(c)) && root >= 0.0 && root * root == ratio
    requires ratio <= 0.75 || ratio >= 1.25
    ensures var r := Adjusted(c, ratio, root, clampPow2);
            r.Some? ==> r.value != c && (r.value > c <==> ratio >= 1.25)
  {
    hide Pow2ClampTowards, IsPow2;
    var x := Stepped(c, root);
    RootSide(root, ratio);
    SteppedBetween(c, root, if ratio >= 1.25 then 1.0 else 0.5, if ratio >= 1.25 then 2.0 else 1.0);
    if clampPow2 {
      StepBounds(c, root);
      ClampDoublesOrHalves(c, AtLeastOne(x));
    }
  }

  lemma RootSide(root: real, ratio: real)
    requires root >= 0.0 && root * root == ratio
    ensures ratio >= 1.25 ==> root > 1.0
    ensures ratio <= 0.75 ==> root < 1.0
  {
    if root <= 1.0 { Scale(root, root, 1.0); } else { Scale(root, 1.0, root); }
  }

  // ---- Workers without shares ----

  /** A worker without a share for 90 seconds is halved down to one; only a gap of at most 2^-52 is left alone. With the
      clamp a power of two is halved exactly. No other value ever rises either. */
  lemma IdleStep(sqrt: real -> real, c: real, elapsed: real, spm: real, clampPow2: bool)
    requires c >= 1.0 && elapsed >= 90.0
    ensures var r := NextDiff(sqrt, c, 0.0, elapsed, spm, clampPow2);
            var half := if c < 2.0 then 1.0 else c / 2.0;
            && (r.Some? ==> 1.0 <= r.value <= half < c)
            && (!clampPow2 ==> r == if (c - half) * 4503599627370496.0 <= 1.0 then None else Some(half))
            && (clampPow2 && IsPow2(c) ==> r == if c == 1.0 then None else Some(c / 2.0))
  {
    var half := if c < 2.0 then 1.0 else c / 2.0;
    assert AtLeastOne(c * 0.5) == half;
    if clampPow2 {
      if half < c && half > 1.0 {
        OneIsPow2();
        FloorPow2Is(half, 1.0);
      }
      if IsPow2(c) {
        DoublePow2(c);
        ClampDoublesOrHalves(c, half);
      }
    }
  }

  ghost predicate AllIdle(ws: seq<Window>) {
    forall i :: 0 <= i < |ws| ==> ws[i].shares == 0.0 && ws[i].elapsed >= 90.0
  }

  /** `c` halved `n` times. */
  function Halvings(c: real, n: nat): real {
    if n == 0 then c else Halvings(c, n - 1) / 2.0
  }

  lemma {:induction false} HalvingsShrink(c: real, i: nat, j: nat)
    requires c > 0.0 && i < j
    ensures 0.0 < 2.0 * Halvings(c, j) <= Halvings(c, i)
    decreases j
  {
    if i == j - 1 {
      if i > 0 {
        HalvingsShrink(c, 0, i);
      }
    } else {
      HalvingsShrink(c, i, j - 1);
    }
  }

  lemma {:induction false} HalvingsEnd(c: real, n: nat)
    requires c > 0.0
    ensures Halvings(c, n) <= 1.0 || Halvings(c, n) <= c - n as real / 2.0
    ensures n as real >= 2.0 * c ==> Halvings(c, n) <= 1.0
  {
    if n > 0 {
      HalvingsEnd(c, n - 1);
    }
  }

  /** The `i`-th halving of `c` is above one, but by 2^-52 at most. */
  ghost predicate Stuck(c: real, i: nat) {
    1.0 < Halvings(c, i) <= 1.0 + EPSILON
  }

  /** An idle worker with the clamp: its difficulty is halved at every tick until it is one. */
  lemma {:induction false} IdleClamped(sqrt: real -> real, c: real, spm: real, ws: seq<Window>)
    requires IsPow2(c) && AllIdle(ws)
    ensures var d := DiffAfter(sqrt, c, spm, true, ws);
            IsPow2(d) && d == AtLeastOne(Halvings(c, |ws|))
    decreases |ws|
  {
    hide NextDiff, IsPow2;
    DoublePow2(c);
    if ws != [] {
      var n := |ws| - 1;
      IdleClamped(sqrt, c, spm, ws[..n]);
      var d := DiffAfter(sqrt, c, spm, true, ws[..n]);
      DoublePow2(d);
      IdleStep(sqrt, d, ws[n].elapsed, spm, true);
    }
  }

  /** An idle worker without the clamp: halved at every tick until it is one, or comes by a value just above one. */
  lemma {:induction false} IdleUnclamped(sqrt: real -> real, c: real, spm: real, ws: seq<Window>)
    requires c >= 1.0 && AllIdle(ws)
    ensures var d := DiffAfter(sqrt, c, spm, false, ws);
            && ((forall i: nat :: i < |ws| ==> !Stuck(c, i)) ==> d == AtLeastOne(Halvings(c, |ws|)))
            && (forall i: nat :: i < |ws| && Stuck(c, i) ==> d == Halvings(c, i))
    decreases |ws|
  {
    hide NextDiff;
    if ws != [] {
      var n := |ws| - 1;
      IdleUnclamped(sqrt, c, spm, ws[..n]);
      var d := DiffAfter(sqrt, c, spm, false, ws[..n]);
      if i: nat :| i < n && Stuck(c, i) {
        IdleStep(sqrt, d, ws[n].elapsed, spm, false);
        HalvingsShrink(c, i, n);
      } else {
        var h := Halvings(c, n);
        assert d == AtLeastOne(h) && Halvings(c, n + 1) == h / 2.0;
        IdleStep(sqrt, d, ws[n].elapsed, spm, false);
        assert d >= 2.0 ==> (d - d / 2.0) * 4503599627370496.0 > 1.0;
        assert 1.0 < d < 2.0 && !Stuck(c, n) ==> (d - 1.0) * 4503599627370496.0 > 1.0;
      }
    }
  }

  /**
   * Idle workers come down to one. After as many idle ticks as it takes to halve the difficulty to one, it is one with
   * the clamp. Without it, it is one or above it by 2^-52 at most, and one exactly unless the halving comes by such a value.
   */
  lemma IdleSettles(sqrt: real -> real, c: real, spm: real, clampPow2: bool, ws: seq<Window>)
    requires c >= 1.0 && (clampPow2 ==> IsPow2(c)) && AllIdle(ws) && |ws| as real >= 2.0 * c
    ensures var d := DiffAfter(sqrt, c, spm, clampPow2, ws);
            if clampPow2 then d == 1.0
            else 1.0 <= d <= 1.0 + EPSILON && (d == 1.0 <==> forall i: nat :: i < |ws| ==> !Stuck(c, i))
  {
    hide DiffAfter, Halvings;
    HalvingsEnd(c, |ws|);
    if clampPow2 {
      IdleClamped(sqrt, c, spm, ws);
    } else {
      IdleUnclamped(sqrt, c, spm, ws);
    }
  }

  // ---- Reachable difficulties ----

  /** What one tick of the controller sees of a worker. */
  datatype Window = Window(shares: real, elapsed: real)

  /** The configured start value (stratum_server.rs): zero means 4, and with the clamp the value is
      rounded down to a power of two. */
  function StartDiff(minShareDiff: nat, clampPow2: bool): real {
    if minShareDiff == 0 then 4.0
    else if clampPow2 then FloorPow2(minShareDiff as real, 1.0)
    else minShareDiff as real
  }

  function DiffAfter(sqrt: real -> real, start: real, spm: real, clampPow2: bool, ws: seq<Window>): real {
    if ws == [] then start
    else
      var d, w := DiffAfter(sqrt, start, spm, clampPow2, ws[..|ws| - 1]), ws[|ws| - 1];
      var r := NextDiff(sqrt, d, w.shares, w.elapsed, spm, clampPow2);
      if r.Some? then r.value else d
  }

  /** The start is the configured value, or four for none; with the clamp it is the greatest power of two not above it. */
  lemma StartIs(minShareDiff: nat, clampPow2: bool)
    ensures var start, configured := StartDiff(minShareDiff, clampPow2), if minShareDiff == 0 then 4.0 else minShareDiff as real;
            && start >= 1.0
            && (!clampPow2 ==> start == configured)
            && (clampPow2 ==> IsPow2(start) && start <= configured < 2.0 * start)
  {
    OneIsPow2();
    assert Pow2(2) == 4.0 by { assert Pow2(1) == 2.0; }
    if minShareDiff > 0 { FloorPow2Is(minShareDiff as real, 1.0); }
  }

  /** Every difficulty reachable from the configured start is at least one, and a power of two when the
      clamp is on, whatever windows the ticks see. */
  lemma {:induction false} ReachableDiff(sqrt: real -> real, minShareDiff: nat, spm: real, clampPow2: bool, ws: seq<Window>)
    ensures var d := DiffAfter(sqrt, StartDiff(minShareDiff, clampPow2), spm, clampPow2, ws);
            d >= 1.0 && (clampPow2 ==> IsPow2(d))
    decreases |ws|
  {
    hide NextDiff, IsPow2;
    StartIs(minShareDiff, clampPow2);
    if ws != [] {
      var n := |ws| - 1;
      ReachableDiff(sqrt, minShareDiff, spm, clampPow2, ws[..n]);
      var d := DiffAfter(sqrt, StartDiff(minShareDiff, clampPow2), spm, clampPow2, ws[..n]);
      if clampPow2 {
        ClampedStep(sqrt, d, ws[n].shares, ws[n].elapsed, spm);
      } else {
        UnclampedStep(sqrt, d, ws[n].shares, ws[n].elapsed, spm);
      }
    }
  }

  // ---- Convergence without the clamp ----

  /** A miner finds `rate / difficulty` shares a minute. */
  function Shares(rate: real, d: real, elapsed: real): real
    requires d > 0.0
  {
    rate / d * elapsed / 60.0
  }

  /** The window is long enough and holds enough shares to be judged. */
  predicate Qualifies(rate: real, d: real, elapsed: real)
    requires d > 0.0
  {
    elapsed >= 30.0 && Shares(rate, d, elapsed) >= 3.0
  }

  /** One tick of the unclamped controller on such a miner. */
  function Tick(sqrt: real -> real, rate: real, spm: real, d: real, elapsed: real): real
    requires d > 0.0
  {
    var r := NextDiff(sqrt, d, Shares(rate, d, elapsed), elapsed, spm, false);
    if r.Some? then r.value else d
  }

  /** The difficulty at which the miner meets the expected share rate; `Ideal / d` is the observed ratio. */
  function Ideal(rate: real, spm: real): real {
    rate / AtLeastOne(spm)
  }

  lemma ObservedRatio(rate: real, spm: real, d: real, elapsed: real)
    requires d > 0.0 && elapsed > 0.0
    ensures Shares(rate, d, elapsed) / elapsed * 60.0 / AtLeastOne(spm) == Ideal(rate, spm) / d
  {
    var e := AtLeastOne(spm);
    assert Shares(rate, d, elapsed) / elapsed * 60.0 == rate / d;
    assert rate / d / e == rate / e / d;
  }

  /** What a qualifying tick does depends only on the ratio and the difficulty. */
  lemma TickIs(sqrt: real -> real, rate: real, spm: real, d: real, elapsed: real)
    requires d >= 1.0 && rate > 0.0 && Qualifies(rate, d, elapsed)
    ensures var q := Ideal(rate, spm) / d;
            && q > 0.0
            && Tick(sqrt, rate, spm, d, elapsed)
               == if LOWER_RATIO < q < UPPER_RATIO then d
                  else var r := Adjusted(d, q, sqrt(q), false); if r.Some? then r.value else d
  {
    ObservedRatio(rate, spm, d, elapsed);
    assert Ideal(rate, spm) > 0.0;
  }

  lemma SquareGrows(x: real, y: real)
    requires 0.0 <= x <= y
    ensures x * x <= y * y
  {
    Scale(x, x, y);
    Scale(y, x, y);
  }

  lemma RootAbove(root: real, q: real)
    requires root >= 0.0 && root * root == q && q >= 1.25
    ensures 1.118 < root <= q
  {
    if root <= 1.118 {
      SquareGrows(root, 1.118);
      assert false;
    }
    Scale(root, 1.0, root);
    assert root * 1.0 <= root * root && root * 1.0 == root;
  }

  lemma RootBelow(root: real, q: real)
    requires root >= 0.0 && root * root == q && q <= 0.75
    ensures q <= root < 0.8661
  {
    if root >= 0.8661 {
      SquareGrows(0.8661, root);
      assert false;
    }
    Scale(root, root, 1.0);
    assert root * root <= root * 1.0 && root * 1.0 == root;
  }

  lemma Quotient(x: real, d: real, f: real)
    requires d > 0.0
    ensures x >= f * d <==> x / d >= f
  {
    var y := x / d;
    assert x == y * d;
    if y >= f {
      Scale(d, f, y);
    } else {
      assert (f - y) * d > 0.0;
    }
  }

  /** The unrounded step `x` from `d` for a ratio `q` outside the dead band. */
  lemma StepSize(d: real, q: real, root: real, x: real)
    requires d >= 1.0 && root >= 0.0 && root * root == q && x == Stepped(d, root)
    ensures q >= UPPER_RATIO ==> 1.118 * d <= x <= q * d
    ensures q <= LOWER_RATIO ==> q * d <= x <= 0.8661 * d
  {
    if q >= UPPER_RATIO {
      RootAbove(root, q);
      SteppedBetween(d, root, 1.118, q);
    } else if q <= LOWER_RATIO {
      RootBelow(root, q);
      SteppedBetween(d, root, q, 0.8661);
    }
  }

  /** The unclamped adjustment, in terms of the unrounded step. */
  lemma AdjustedBy(d: real, q: real, root: real, x: real)
    requires d >= 1.0 && x == Stepped(d, root)
    ensures var next, r := AtLeastOne(x), Adjusted(d, q, root, false);
            && (r.None? <==> Abs(next - d) < 0.1 * d)
            && (r.Some? ==> r.value == next)
  {
    var next := AtLeastOne(x);
    Quotient(Abs(next - d), d, 0.10);
    assert 0.1 * d > EPSILON;
  }

  /** Above the dead band the difficulty grows by a tenth or more, and not past the ideal `q * d`. */
  lemma StepUp(d: real, q: real, root: real)
    requires d >= 1.0 && q >= UPPER_RATIO && root >= 0.0 && root * root == q
    ensures var r := Adjusted(d, q, root, false);
            r.Some? && d + 0.1 <= r.value <= q * d
  {
    var x := Stepped(d, root);
    StepSize(d, q, root, x);
    AdjustedBy(d, q, root, x);
    hide Adjusted, Stepped;
  }

  /** Below the dead band the difficulty falls by a tenth or more, not past the ideal nor below one,
      except that it stops short of its floor once it is below 10/9. */
  lemma StepDown(d: real, q: real, root: real)
    requires d >= 1.0 && 0.0 < q <= LOWER_RATIO && root >= 0.0 && root * root == q
    ensures var r := Adjusted(d, q, root, false);
            && (r.None? <==> d < 10.0 / 9.0)
            && (r.Some? ==> r.value <= d - 0.1 && r.value >= 1.0 && r.value >= q * d)
  {
    var x := Stepped(d, root);
    StepSize(d, q, root, x);
    AdjustedBy(d, q, root, x);
    hide Adjusted, Stepped;
  }

  /** All cases of one adjustment, with `goal` the ideal difficulty. */
  lemma Move(d: real, q: real, root: real, goal: real)
    requires d >= 1.0 && q > 0.0 && goal == q * d && root >= 0.0 && root * root == q
    ensures var r := if LOWER_RATIO < q < UPPER_RATIO then None else Adjusted(d, q, root, false);
            && (r.None? <==> LOWER_RATIO < q < UPPER_RATIO || (q <= LOWER_RATIO && d < 10.0 / 9.0))
            && (r.Some? ==> r.value >= 1.0)
            && (r.Some? && d <= goal ==> d + 0.1 <= r.value <= goal)
            && (r.Some? && d > goal ==> goal <= r.value <= d - 0.1)
  {
    hide Adjusted;
    if q >= UPPER_RATIO {
      StepUp(d, q, root);
      Scale(d, 1.0, q);
      assert d * 1.0 <= d * q && d * q == goal;
    } else if q <= LOWER_RATIO {
      StepDown(d, q, root);
      Scale(d, q, 0.75);
      assert d * q <= d * 0.75;
      assert d * q == goal;
    }
  }

  /** The difficulty of the worker after `n` qualifying ticks. */
  function DiffAt(sqrt: real -> real, rate: real, spm: real, start: real, elapsed: nat -> real, n: nat): real {
    if n == 0 then start
    else
      var d := DiffAt(sqrt, rate, spm, start, elapsed, n - 1);
      if d > 0.0 then Tick(sqrt, rate, spm, d, elapsed(n - 1)) else d
  }

  /** A controller run: any real square root, a miner with a positive rate, a start of at least one. */
  datatype Setup = Setup(sqrt: real -> real, rate: real, spm: real, start: real, elapsed: nat -> real)

  ghost predicate Proper(c: Setup) {
    IsSqrt(c.sqrt) && c.rate > 0.0 && c.start >= 1.0
  }

  function At(c: Setup, n: nat): real {
    DiffAt(c.sqrt, c.rate, c.spm, c.start, c.elapsed, n)
  }

  function Goal(c: Setup): real {
    Ideal(c.rate, c.spm)
  }

  /** Every window qualifies. */
  ghost predicate AllQualify(c: Setup) {
    forall n: nat :: At(c, n) > 0.0 ==> Qualifies(c.rate, At(c, n), c.elapsed(n))
  }

  /** Where the controller rests: in the dead band, or next to its floor with too few shares. */
  predicate Rests(c: Setup, d: real)
    requires d > 0.0
  {
    || 0.75 < Goal(c) / d < 1.25
    || (Goal(c) / d <= 0.75 && d < 10.0 / 9.0)
  }

  /** One tick from any difficulty of at least one. */
  lemma TickMoves(c: Setup, d: real, elapsed: real)
    requires Proper(c) && d >= 1.0 && Qualifies(c.rate, d, elapsed)
    ensures var d' := Tick(c.sqrt, c.rate, c.spm, d, elapsed);
            && d' >= 1.0
            && (d <= Goal(c) ==> d' <= Goal(c))
            && (d >= Goal(c) ==> d' >= Goal(c))
            && (Rests(c, d) <==> d' == d)
            && (!Rests(c, d) ==> if d <= Goal(c) then d' >= d + 0.1 else d' <= d - 0.1)
  {
    hide Tick, Adjusted, Ideal, Shares;
    var goal := Goal(c);
    var q := goal / d;
    TickIs(c.sqrt, c.rate, c.spm, d, elapsed);
    assert goal == q * d;
    var root := c.sqrt(q);
    assert root >= 0.0 && root * root == q;
    Move(d, q, root, goal);
  }

  lemma AtStep(c: Setup, n: nat)
    requires Proper(c) && AllQualify(c) && At(c, n) >= 1.0
    ensures Qualifies(c.rate, At(c, n), c.elapsed(n))
    ensures At(c, n + 1) == Tick(c.sqrt, c.rate, c.spm, At(c, n), c.elapsed(n))
  {
    hide Tick, Qualifies, IsSqrt;
  }

  /** Never below one, and never across the ideal: the ratio stays on its side of one. */
  lemma {:induction false} NeverCrosses(c: Setup, n: nat)
    requires Proper(c) && AllQualify(c)
    ensures At(c, n) >= 1.0
    ensures if c.start <= Goal(c) then At(c, n) <= Goal(c) else At(c, n) >= Goal(c)
  {
    hide Tick, Goal, Qualifies, IsSqrt, AllQualify, Rests;
    if n > 0 {
      NeverCrosses(c, n - 1);
      AtStep(c, n - 1);
      hide At;
      TickMoves(c, At(c, n - 1), c.elapsed(n - 1));
    }
  }

  /** An upper bound on the number of further adjustments from `d`. */
  function Budget(c: Setup, d: real): nat {
    var gap := if c.start <= Goal(c) then Goal(c) - d else d - 1.0;
    if gap < 0.0 then 0 else (10.0 * gap).Floor + 1
  }

  lemma {:induction false} SettlesFrom(c: Setup, n: nat) returns (m: nat)
    requires Proper(c) && AllQualify(c)
    ensures n <= m <= n + Budget(c, At(c, n))
    ensures At(c, m) >= 1.0 && Rests(c, At(c, m))
    decreases Budget(c, At(c, n))
  {
    hide Tick, Goal, Qualifies, IsSqrt, AllQualify, At;
    NeverCrosses(c, n);
    NeverCrosses(c, n + 1);
    AtStep(c, n);
    var d, d' := At(c, n), At(c, n + 1);
    TickMoves(c, d, c.elapsed(n));
    if Rests(c, d) {
      m := n;
    } else {
      hide Rests;
      assert c.start <= Goal(c) ==> d' >= d + 0.1;
      assert c.start > Goal(c) ==> d' <= d - 0.1;
      FloorDrops(c, d, d');
      m := SettlesFrom(c, n + 1);
    }
  }

  lemma FloorDrops(c: Setup, d: real, d': real)
    requires d' >= 1.0
    requires if c.start <= Goal(c) then d + 0.1 <= d' <= Goal(c) else d' <= d - 0.1
    ensures Budget(c, d') < Budget(c, d)
  {
  }

  lemma {:induction false} StaysAtRest(c: Setup, m: nat, n: nat)
    requires Proper(c) && AllQualify(c) && m <= n
    requires At(c, m) >= 1.0 && Rests(c, At(c, m))
    ensures At(c, n) == At(c, m)
    decreases n
  {
    hide Tick, Goal, Qualifies, IsSqrt, Rests, AllQualify, At;
    if m < n {
      StaysAtRest(c, m, n - 1);
      AtStep(c, n - 1);
      TickMoves(c, At(c, n - 1), c.elapsed(n - 1));
    }
  }

  /**
   * Convergence. Without the clamp, for a miner whose share rate is inversely proportional to the
   * difficulty, the difficulty stops changing after a bounded number of ticks; from then on the observed
   * ratio is inside the dead band, or the difficulty is below 10/9 next to its floor with too low a ratio.
   */
  lemma Converges(c: Setup) returns (m: nat)
    requires Proper(c) && AllQualify(c)
    ensures m <= Budget(c, c.start)
    ensures At(c, m) >= 1.0 && Rests(c, At(c, m))
    ensures forall n: nat :: m <= n ==> At(c, n) == At(c, m)
  {
    hide Tick, Goal, Qualifies, IsSqrt, Rests, Budget;
    m := SettlesFrom(c, 0);
    forall n: nat | m <= n ensures At(c, n) == At(c, m) {
      StaysAtRest(c, m, n);
    }
  }

  /**
   * One pair of clamped adjustments: from `c` up to `2c` and from there back to `c`, exactly when the ideal difficulty
   * lies between 1.25 and 1.5 times `c`. Module VarDiffClamped has whole runs.
   */
  lemma ClampedCycle(c: real, q: real, root: real, root2: real)
    requires IsPow2(c) && c >= 1.0 && q > 0.0
    requires root >= 0.0 && root * root == q && root2 >= 0.0 && root2 * root2 == q / 2.0
    ensures var up := if LOWER_RATIO < q < UPPER_RATIO then None else Adjusted(c, q, root, true);
            var down := if LOWER_RATIO < q / 2.0 < UPPER_RATIO then None else Adjusted(2.0 * c, q / 2.0, root2, true);
            up == Some(2.0 * c) && down == Some(c) <==> 1.25 <= q <= 1.5
  {
    DoublePow2(c);
    ClampedAdjust(c, q, root);
    ClampedAdjust(2.0 * c, q / 2.0, root2);
    hide Adjusted, IsPow2;
  }

  lemma RoundedAdjust(c: real, q: real, root: real, x: real)
    requires c >= 1.0 && x == Stepped(c, root)
    ensures var next := Pow2ClampTowards(c, AtLeastOne(x));
            Adjusted(c, q, root, true) == if Abs(next - c) < 0.1 * c then None else Some(next)
  {
    hide Pow2ClampTowards;
    var next := Pow2ClampTowards(c, AtLeastOne(x));
    Quotient(Abs(next - c), c, 0.10);
    assert 0.1 * c > EPSILON;
  }

  /** Outside the dead band a clamped adjustment doubles above it and halves below it, down to one. */
  lemma ClampedAdjust(c: real, q: real, root: real)
    requires IsPow2(c) && c >= 1.0 && root >= 0.0 && root * root == q
    ensures q >= UPPER_RATIO ==> Adjusted(c, q, root, true) == Some(2.0 * c)
    ensures q <= LOWER_RATIO ==> Adjusted(c, q, root, true) == if c > 1.0 then Some(c / 2.0) else None
  {
    var x := Stepped(c, root);
    StepSize(c, q, root, x);
    assert AtLeastOne(x) >= 1.0 && c / 2.0 <= AtLeastOne(x) <= 2.0 * c by { StepBounds(c, root); }
    RoundedAdjust(c, q, root, x);
    DoublePow2(c);
    hide IsPow2, Adjusted, Stepped;
    ClampDoublesOrHalves(c, AtLeastOne(x));
  }

  // ---- The tick over all workers ----

  /** The fields of a worker record that the controller uses. */
  datatype Fields = Fields(minDiff: real, start: Option<real>, shares: nat)

  function Elapsed(now: real, start: real): real {
    if now < start then 0.0 else now - start
  }

  /** A tick leaves a worker alone, or gives it a new difficulty and restarts its window. */
  function Ticked(sqrt: real -> real, f: Fields, now: real, spm: real, clampPow2: bool): Fields {
    if f.start.None? then f
    else
      var next := NextDiff(sqrt, f.minDiff, f.shares as real, Elapsed(now, f.start.value), spm, clampPow2);
      if next.Some? then Fields(next.value, Some(now), 0) else f
  }

  class WorkStats {
    var minDiff: real
    var varDiffStart: Option<real>
    var varDiffShares: nat

    function View(): Fields
      reads this
    {
      Fields(minDiff, varDiffStart, varDiffShares)
    }

    constructor ()
      ensures View() == Fields(0.0, None, 0)
    {
      minDiff, varDiffStart, varDiffShares := 0.0, None, 0;
    }
  }

  method VarDiffTick(sqrt: real -> real, workers: set<WorkStats>, now: real, spm: real, clampPow2: bool)
    modifies workers
    ensures forall w | w in workers :: w.View() == Ticked(sqrt, old(w.View()), now, spm, clampPow2)
  {
    hide NextDiff;
    var todo := workers;
    while todo != {}
      invariant todo <= workers
      invariant forall w | w in todo :: w.View() == old(w.View())
      invariant forall w | w in workers - todo :: w.View() == Ticked(sqrt, old(w.View()), now, spm, clampPow2)
      decreases |todo|
    {
      var w :| w in todo;
      todo := todo - {w};
      if w.varDiffStart.None? {
        continue;
      }
      var next := NextDiff(sqrt, w.minDiff, w.varDiffShares as real, Elapsed(now, w.varDiffStart.value), spm, clampPow2);
      if next.None? {
        continue;
      }
      w.minDiff, w.varDiffStart, w.varDiffShares := next.value, Some(now), 0;
    }
  }

  /** A worker whose difficulty is at least one keeps it so through any tick. */
  lemma TickedStaysValid(sqrt: real -> real, f: Fields, now: real, spm: real, clampPow2: bool)
    requires f.minDiff >= 1.0 && (clampPow2 ==> IsPow2(f.minDiff))
    ensures var f' := Ticked(sqrt, f, now, spm, clampPow2);
            f'.minDiff >= 1.0 && (clampPow2 ==> IsPow2(f'.minDiff))
  {
    hide NextDiff, IsPow2;
    if f.start.Some? {
      if clampPow2 {
        ClampedStep(sqrt, f.minDiff, f.shares as real, Elapsed(now, f.start.value), spm);
      } else {
        UnclampedStep(sqrt, f.minDiff, f.shares as real, Elapsed(now, f.start.value), spm);
      }
    }
  }

  /** What a tick does to a worker. Nothing, before its window has started or while it is too early to tell; otherwise a
      change of difficulty and nothing else starts a new window, now and without shares. */
  lemma TickedIs(sqrt: real -> real, f: Fields, now: real, spm: real, clampPow2: bool)
    ensures var f' := Ticked(sqrt, f, now, spm, clampPow2);
            && (f.start.None? ==> f' == f)
            && (f.start.Some? && now - f.start.value < (if f.shares == 0 then 90.0 else 30.0) ==> f' == f)
            && (1 <= f.shares <= 2 ==> f' == f)
            && (f' == f || f' == Fields(f'.minDiff, Some(now), 0))
  {
    if f.start.Some? && (f.shares < 3 || now - f.start.value < 30.0) {
      var elapsed := Elapsed(now, f.start.value);
      if elapsed < 30.0 || (f.shares < 3 && (f.shares != 0 || elapsed < 90.0)) {
        TooEarly(sqrt, f.minDiff, f.shares as real, elapsed, spm, clampPow2);
      }
    }
  }

  /** A worker 90 seconds without a share gets half its difficulty, but no less than one, and a new window. */
  lemma IdleWorker(sqrt: real -> real, f: Fields, now: real, spm: real, clampPow2: bool)
    requires f.start.Some? && f.shares == 0 && now - f.start.value >= 90.0
    requires f.minDiff >= 2.0 && (clampPow2 ==> IsPow2(f.minDiff))
    ensures Ticked(sqrt, f, now, spm, clampPow2) == Fields(f.minDiff / 2.0, Some(now), 0)
  {
    IdleStep(sqrt, f.minDiff, now - f.start.value, spm, clampPow2);
  }

  /** A tick of a worker is the tick of a miner that found its shares in the time since its window started, so what is
      said of those applies. */
  lemma TickedIsTick(sqrt: real -> real, f: Fields, now: real, spm: real, rate: real)
    requires f.minDiff > 0.0 && f.start.Some? && now >= f.start.value
    requires Shares(rate, f.minDiff, now - f.start.value) == f.shares as real
    ensures Ticked(sqrt, f, now, spm, false).minDiff == Tick(sqrt, rate, spm, f.minDiff, now - f.start.value)
  {
    hide NextDiff, Shares;
  }
}
