/**
 * The pool target (hasher.rs): `diff_to_target_standard`, an integer division scaled by 10^18.
 * A division by zero is a panic in the source and `None` here.
 */
module Target {
  import opened Util
  import opened Hex
  import VarDiff

  /** 2^224 - 1. */
  const MAX_TARGET: nat := 26959946667150639794667015087019630673637144422540572481103610249215

  const SCALE: nat := 1_000_000_000_000_000_000

  /** The cast of a non-negative float to u128 saturates. */
  const U128_MAX: nat := 340282366920938463463374607431768211455

  function Scaled(diff: real): nat
    requires diff > 0.0
  {
    var x := (diff * 1000000000000000000.0).Floor;
    if x > U128_MAX then U128_MAX else x
  }

  function DiffToTarget(diff: real): Option<nat> {
    if diff <= 0.0 then Some(MAX_TARGET)
    else if Scaled(diff) == 0 then None
    else Some(MAX_TARGET * SCALE / Scaled(diff))
  }

  /** The division is defined exactly when the difficulty is not a positive number below 10^-18. */
  lemma TargetDefined(diff: real)
    ensures DiffToTarget(diff).None? <==> 0.0 < diff && diff * 1000000000000000000.0 < 1.0
    ensures diff <= 0.0 ==> DiffToTarget(diff) == Some(MAX_TARGET)
  {
  }

  lemma TinyDifficultyPanics()
    ensures DiffToTarget(0.0000000000000000001).None?
  {
  }

  lemma ScaledGrows(d: real, d': real)
    requires 0.0 < d <= d'
    ensures Scaled(d) <= Scaled(d')
  {
    var x, x' := d * 1000000000000000000.0, d' * 1000000000000000000.0;
    assert x <= x';
    assert x.Floor <= x'.Floor;
  }

  lemma Grows(x: nat, y: nat, c: nat)
    requires x <= y
    ensures x * c <= y * c
  {
  }

  lemma Cancels(x: nat, y: nat, c: nat)
    requires x * c < y * c
    ensures x < y
  {
    if y <= x {
      Grows(y, x, c);
    }
  }

  lemma QuotientIs(a: nat, b: nat, q: nat)
    requires b > 0 && q * b <= a < (q + 1) * b
    ensures a / b == q
  {
    var p := a / b;
    DivisionBounds(a, b);
    Cancels(p, q + 1, b);
    Cancels(q, p + 1, b);
  }

  lemma DivisionBounds(a: nat, b: nat)
    requires b > 0
    ensures a / b * b <= a < (a / b + 1) * b
  {
    var q := a / b;
    assert a == b * q + a % b;
    assert (q + 1) * b == q * b + b;
  }

  lemma DivShrinks(n: nat, a: nat, b: nat)
    requires 0 < a <= b
    ensures n / b <= n / a
  {
    var p, q := n / a, n / b;
    DivisionBounds(n, a);
    DivisionBounds(n, b);
    Grows(a, b, q);
    assert q * a <= q * b;
    Cancels(q, p + 1, a);
  }

  /** A target is positive whenever it is defined, even when the cast saturates. */
  lemma TargetIsPositive(diff: real)
    ensures DiffToTarget(diff).Some? ==> DiffToTarget(diff).value > 0
  {
    if diff > 0.0 && Scaled(diff) > 0 {
      DivShrinks(MAX_TARGET * SCALE, Scaled(diff), U128_MAX);
      assert MAX_TARGET * SCALE / U128_MAX > 0;
    }
  }

  /** A higher difficulty never gives a higher target. */
  lemma TargetIsAntitone(d: real, d': real)
    requires 0.0 < d <= d' && DiffToTarget(d).Some?
    ensures DiffToTarget(d').Some? && DiffToTarget(d').value <= DiffToTarget(d).value
  {
    ScaledGrows(d, d');
    DivShrinks(MAX_TARGET * SCALE, Scaled(d), Scaled(d'));
  }

  lemma Associates(x: nat, y: nat, z: nat)
    ensures x * y * z == x * (y * z)
  {
  }

  lemma ScalesBounds(lo: nat, m: nat, hi: nat, s: nat)
    requires lo <= m < hi && s > 0
    ensures lo * s <= m * s < hi * s
  {
    Grows(lo, m, s);
    Grows(m + 1, hi, s);
    assert (m + 1) * s == m * s + s;
  }

  lemma ScalingCancels(m: nat, n: nat, s: nat, ms: nat, ns: nat)
    requires n > 0 && s > 0 && ms == m * s && ns == n * s
    ensures ns > 0 && ms / ns == m / n
  {
    var q := m / n;
    DivisionBounds(m, n);
    ScalesBounds(q * n, m, (q + 1) * n, s);
    Associates(q, n, s);
    Associates(q + 1, n, s);
    Grows(1, n, s);
    QuotientIs(ms, ns, q);
  }

  /** For a whole-number difficulty that fits the scaled cast, the scaling cancels: the target is
      exactly the quotient of the maximum target by the difficulty. */
  lemma WholeDiffTarget(n: nat)
    requires 0 < n && n * SCALE <= U128_MAX
    ensures DiffToTarget(n as real) == Some(MAX_TARGET / n)
  {
    assert (n as real) * 1000000000000000000.0 == (n * SCALE) as real;
    assert ((n * SCALE) as real).Floor == n * SCALE;
    ScalingCancels(MAX_TARGET, n, SCALE, MAX_TARGET * SCALE, n * SCALE);
  }

  /** The maximum target is 2^224 - 1: fifty-six hexadecimal digits, all of them f. */
  lemma MaxTargetIs()
    ensures MAX_TARGET + 1 == Pow16(56)
  {
    hide Pow16;
    Powers();
    Pow16Sum(16, 12);
    Pow16Sum(28, 28);
  }

  lemma {:induction false} Pow16Sum(i: nat, j: nat)
    ensures Pow16(i + j) == Pow16(i) * Pow16(j)
  {
    if i > 0 {
      Pow16Sum(i - 1, j);
      Associates(16, Pow16(i - 1), Pow16(j));
    }
  }

  /**
   * For any difficulty that fits the cast, the target is the maximum target divided by the difficulty, rounded down, where
   * the difficulty itself is rounded down to 18 decimals first. Beyond that the target is the one of the largest cast.
   */
  lemma TargetIs(diff: real)
    requires diff > 0.0 && DiffToTarget(diff).Some?
    ensures var t, x := DiffToTarget(diff).value, diff * 1000000000000000000.0;
            exists n: nat :: n > 0
              && (if x < 340282366920938463463374607431768211456.0 then n as real <= x < n as real + 1.0
                  else n == 340282366920938463463374607431768211455)
              && t * n <= MAX_TARGET * 1_000_000_000_000_000_000 < (t + 1) * n
  {
    DivisionBounds(MAX_TARGET * SCALE, Scaled(diff));
    var n := Scaled(diff);
    assert n > 0;
  }

  /** Whatever the ticks see, the target of a reachable difficulty exists and is positive. */
  lemma ReachableTarget(sqrt: real -> real, minShareDiff: nat, spm: real, clampPow2: bool, ws: seq<VarDiff.Window>)
    ensures var d := VarDiff.DiffAfter(sqrt, VarDiff.StartDiff(minShareDiff, clampPow2), spm, clampPow2, ws);
            DiffToTarget(d).Some? && 0 < DiffToTarget(d).value <= MAX_TARGET
  {
    VarDiff.ReachableDiff(sqrt, minShareDiff, spm, clampPow2, ws);
    var d := VarDiff.DiffAfter(sqrt, VarDiff.StartDiff(minShareDiff, clampPow2), spm, clampPow2, ws);
    TargetDefined(d);
    TargetIsPositive(d);
    WholeDiffTarget(1);
    TargetIsAntitone(1.0, d);
  }
}
