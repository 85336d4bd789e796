/** Runs of the difficulty controller with the power-of-two clamp (share_handler.rs). */
module VarDiffClamped {
  import opened Util
  import V = VarDiff

  /** One clamped tick on a miner that finds `rate / difficulty` shares a minute. */
  function Tick(c: V.Setup, d: real, elapsed: real): real
    requires d > 0.0
  {
    var r := V.NextDiff(c.sqrt, d, V.Shares(c.rate, d, elapsed), elapsed, c.spm, true);
    if r.Some? then r.value else d
  }

  /** The difficulty after `n` ticks. */
  function At(c: V.Setup, n: nat): real {
    if n == 0 then c.start
    else
      var d := At(c, n - 1);
      if d > 0.0 then Tick(c, d, c.elapsed(n - 1)) else d
  }

  ghost predicate AllQualify(c: V.Setup) {
    forall n: nat :: At(c, n) > 0.0 ==> V.Qualifies(c.rate, At(c, n), c.elapsed(n))
  }

  /** A proper setup that starts at a power of two, as the clamped configuration does. */
  ghost predicate Proper(c: V.Setup) {
    V.Proper(c) && V.IsPow2(c.start) && AllQualify(c)
  }

  /** The tick in terms of the ideal difficulty alone. */
  function Step(goal: real, d: real): real {
    if goal >= 1.25 * d then 2.0 * d
    else if goal <= 0.75 * d && d > 1.0 then d / 2.0
    else d
  }

  /** Some power of two is too easy by a quarter while its double is too hard by a quarter. */
  ghost predicate Trapped(goal: real) {
    exists p :: V.IsPow2(p) && 1.25 * p <= goal <= 1.5 * p
  }

  /** What a qualifying tick does depends only on the ratio and the difficulty. */
  lemma TickIs(c: V.Setup, d: real, elapsed: real)
    requires d >= 1.0 && c.rate > 0.0 && V.Qualifies(c.rate, d, elapsed)
    ensures var q := V.Ideal(c.rate, c.spm) / d;
            && q > 0.0
            && Tick(c, d, elapsed)
               == if V.LOWER_RATIO < q < V.UPPER_RATIO then d
                  else var r := V.Adjusted(d, q, c.sqrt(q), true); if r.Some? then r.value else d
  {
    hide V.Adjusted;
    V.ObservedRatio(c.rate, c.spm, d, elapsed);
    assert V.Ideal(c.rate, c.spm) > 0.0;
  }

  lemma RatioBounds(goal: real, d: real, q: real)
    requires d > 0.0 && q == goal / d
    ensures (q >= 1.25 <==> goal >= 1.25 * d) && (q <= 0.75 <==> goal <= 0.75 * d)
  {
    V.Quotient(goal, d, 1.25);
    V.Quotient(goal, d, 0.75);
  }

  lemma TickIsStep(c: V.Setup, d: real, elapsed: real)
    requires V.Proper(c) && V.IsPow2(d) && d >= 1.0 && V.Qualifies(c.rate, d, elapsed)
    ensures Tick(c, d, elapsed) == Step(V.Goal(c), d)
  {
    hide Tick, V.Adjusted, V.IsPow2, V.Qualifies, V.Ideal;
    var q := V.Ideal(c.rate, c.spm) / d;
    TickIs(c, d, elapsed);
    RatioBounds(V.Goal(c), d, q);
    V.ClampedAdjust(d, q, c.sqrt(q));
  }

  lemma StepIsPow2(goal: real, d: real)
    requires V.IsPow2(d)
    ensures V.IsPow2(Step(goal, d)) && d >= 1.0
  {
    V.DoublePow2(d);
  }

  lemma AtNext(c: V.Setup, n: nat)
    requires Proper(c) && V.IsPow2(At(c, n)) && At(c, n) >= 1.0
    ensures At(c, n + 1) == Step(V.Goal(c), At(c, n))
  {
    hide Tick, Step, V.IsPow2, V.Qualifies, V.Goal, V.Proper;
    var d := At(c, n);
    assert V.Qualifies(c.rate, At(c, n), c.elapsed(n));
    assert At(c, n + 1) == Tick(c, d, c.elapsed(n));
    TickIsStep(c, d, c.elapsed(n));
  }

  lemma {:induction false} AtIsStep(c: V.Setup, n: nat)
    requires Proper(c)
    ensures V.IsPow2(At(c, n)) && At(c, n) >= 1.0 && At(c, n + 1) == Step(V.Goal(c), At(c, n))
  {
    if n == 0 {
      StartsAt(c);
    }
    hide At, V.IsPow2, V.Goal, Step, AllQualify, V.Proper;
    if n > 0 {
      AtIsStep(c, n - 1);
      StepIsPow2(V.Goal(c), At(c, n - 1));
    }
    StepIsPow2(V.Goal(c), At(c, n));
    AtNext(c, n);
  }

  lemma Pow2Order(x: real, y: real)
    requires V.IsPow2(x) && V.IsPow2(y) && y < x
    ensures 2.0 * y <= x
  {
    if x < 2.0 * y {
      V.DoublePow2(y);
      V.Pow2Apart(x, y);
    }
  }

  lemma TrappedMoves(goal: real, d: real)
    requires Trapped(goal) && V.IsPow2(d)
    ensures Step(goal, d) != d
  {
    var p :| V.IsPow2(p) && 1.25 * p <= goal <= 1.5 * p;
    V.DoublePow2(d);
    V.DoublePow2(p);
    if p < d {
      Pow2Order(d, p);
    }
  }

  /** How far a difficulty may still move on its way up, or down. */
  function Budget(goal: real, d: real): nat {
    if goal >= 1.25 * d && d > 0.0 then (2.0 * goal - d).Floor
    else if goal <= 0.75 * d && d > 1.0 then d.Floor
    else 0
  }

  /** Outside the trap a step never overshoots: after a step up there is no step down, and the other way round. */
  lemma FreeStep(goal: real, d: real)
    requires !Trapped(goal) && V.IsPow2(d) && d >= 1.0 && Step(goal, d) != d
    ensures Budget(goal, Step(goal, d)) < Budget(goal, d)
  {
    assert !(1.25 * d <= goal <= 1.5 * d);
    if goal < 1.25 * d {
      V.DoublePow2(d);
      var e := d / 2.0;
      assert !(1.25 * e <= goal <= 1.5 * e);
      assert goal < 1.25 * e;
    }
  }

  lemma {:induction false} SettlesFrom(c: V.Setup, n: nat) returns (m: nat)
    requires Proper(c) && !Trapped(V.Goal(c))
    ensures n <= m <= n + Budget(V.Goal(c), At(c, n)) && At(c, m + 1) == At(c, m)
    decreases Budget(V.Goal(c), At(c, n))
  {
    hide At, Proper, Trapped, Step, Budget, V.Goal, V.IsPow2;
    AtIsStep(c, n);
    if At(c, n + 1) == At(c, n) {
      m := n;
    } else {
      FreeStep(V.Goal(c), At(c, n));
      m := SettlesFrom(c, n + 1);
    }
  }

  lemma {:induction false} Rests(c: V.Setup, m: nat, n: nat)
    requires Proper(c) && At(c, m + 1) == At(c, m) && m <= n
    ensures At(c, n) == At(c, m)
    decreases n
  {
    hide At, Proper, Step, V.Goal, V.IsPow2;
    if m < n {
      Rests(c, m, n - 1);
      AtIsStep(c, n - 1);
      AtIsStep(c, m);
    }
  }

  ghost predicate Settles(c: V.Setup) {
    exists m: nat :: SettledAt(c, m)
  }

  ghost predicate SettledAt(c: V.Setup, m: nat) {
    forall n: nat :: m <= n ==> At(c, n) == At(c, m)
  }

  /**
   * With the clamp, from a power-of-two start and with qualifying windows, the difficulty stops changing if and only if
   * no power of two lies between 2/3 and 4/5 of the ideal difficulty. If it does not stop it changes at every tick.
   */
  lemma SettlesExactly(c: V.Setup)
    ensures Proper(c) ==> (Settles(c) <==> !Trapped(V.Goal(c)))
    ensures Proper(c) && Trapped(V.Goal(c)) ==> forall n: nat :: At(c, n + 1) != At(c, n)
    ensures Proper(c) && !Trapped(V.Goal(c)) ==> exists m: nat :: m <= Budget(V.Goal(c), c.start) && SettledAt(c, m)
  {
    hide Proper, Trapped, Step, Budget, V.Goal, V.IsPow2, At;
    if Proper(c) {
      if Trapped(V.Goal(c)) {
        forall n: nat
          ensures At(c, n + 1) != At(c, n)
        {
          AtIsStep(c, n);
          TrappedMoves(V.Goal(c), At(c, n));
        }
        forall m: nat
          ensures !SettledAt(c, m)
        {
          assert At(c, m + 1) != At(c, m);
        }
      } else {
        StartsAt(c);
        var m := SettlesFrom(c, 0);
        forall n: nat | m <= n
          ensures At(c, n) == At(c, m)
        {
          Rests(c, m, n);
        }
        assert SettledAt(c, m);
      }
    }
  }

  lemma StartsAt(c: V.Setup)
    ensures At(c, 0) == c.start
  {
  }
}
