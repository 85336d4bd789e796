/**
 * The internal CPU miner (rkstratum_cpu_miner.rs): a slot through which templates are published under a wrapping
 * version number, and threads that walk the nonce space with a common stride.
 */
module CpuMiner {
  import opened Util
  import opened Numbers
  import opened Prime

  /** The spacing of the threads' first nonces. */
  const SPREAD: nat := 1_000_000_007

  // ---- The nonce walk ----

  /** Nonce of thread `t` of `threads` after `k` failed tests, before reduction to 64 bits. */
  function Walk(threads: nat, t: nat, k: nat): nat {
    t * SPREAD + k * threads
  }

  function Nonce(threads: nat, t: nat, k: nat): nat {
    Walk(threads, t, k) % TWO_64
  }

  /** No two threads test the same nonce while neither counter has wrapped. */
  ghost predicate ApartBeforeWrap(threads: nat) {
    forall t: nat, u: nat, j: nat, k: nat | t < u < threads && Walk(threads, t, j) < TWO_64 && Walk(threads, u, k) < TWO_64 ::
      Nonce(threads, t, j) != Nonce(threads, u, k)
  }

  /** The starting points are pairwise different modulo the stride. */
  lemma SameResidue(threads: nat, t: nat, u: nat, n: int)
    requires t < threads && u < threads && Coprime(threads, SPREAD)
    requires SPREAD * (t - u) == threads * n
    ensures t == u
  {
    ModOfMultiple(threads, n);
    EuclidLemma(threads, SPREAD, t - u);
    SmallMultiple(threads, t - u);
  }

  lemma WalksMeet(threads: nat, t: nat, u: nat, j: nat, k: nat)
    requires t < threads && u < threads && Coprime(threads, SPREAD)
    requires Walk(threads, t, j) == Walk(threads, u, k)
    ensures t == u
  {
    assert threads * (k - j) == k * threads - j * threads;
    SameResidue(threads, t, u, k - j);
  }

  /** Two threads whose counts share a divisor with the spacing do meet. */
  lemma SharedDivisor(threads: nat, d: int)
    requires threads > 0 && d > 1 && Divides(d, threads) && Divides(d, SPREAD)
    ensures 0 < threads / d < threads
    ensures Walk(threads, 0, SPREAD / d) == Walk(threads, threads / d, 0) == threads * (SPREAD / d)
  {
    var q, p := threads / d, SPREAD / d;
    ProperQuotient(threads, d);
    ProperQuotient(SPREAD, d);
    Crossed(threads, SPREAD, d, q, p);
  }

  lemma ProperQuotient(n: nat, d: int)
    requires n > 0 && d > 1 && Divides(d, n)
    ensures 0 < n / d < n && n == d * (n / d)
  {
    Halved(n, d, n / d);
  }

  lemma Halved(n: int, d: int, q: int)
    requires n > 0 && d > 1 && n == d * q
    ensures 0 < q < n
  {
    MultipleGrows(d, q);
    assert q == 0 ==> d * q == 0;
    MultipleGrows(q, d - 1);
    assert d * q == q * (d - 1) + q;
  }

  lemma Crossed(n: int, m: int, d: int, q: int, p: int)
    requires n == d * q && m == d * p
    ensures q * m == p * n == n * p
  {
    assert q * (d * p) == p * (d * q);
  }

  /** The spacing is prime, so only its multiples share a divisor with it. */
  lemma SharedWithSpread(threads: nat)
    requires threads > 0
    ensures Coprime(threads, SPREAD) <==> !Divides(SPREAD, threads)
  {
    Prime1000000007();
    if Divides(SPREAD, threads) {
      assert Divides(SPREAD, SPREAD);
    }
  }

  /** Nonces stay apart before the wrap exactly when the thread count is coprime to the spacing. */
  lemma ApartExactly(threads: nat)
    requires 0 < threads < TWO_64
    ensures ApartBeforeWrap(threads) <==> Coprime(threads, SPREAD)
    ensures ApartBeforeWrap(threads) <==> threads % SPREAD != 0
  {
    SharedWithSpread(threads);
    if Coprime(threads, SPREAD) {
      CoprimeKeepsApart(threads);
    } else {
      SharedDivisor(threads, SPREAD);
      var u := threads / SPREAD;
      assert Walk(threads, 0, 1) == threads && Walk(threads, u, 0) == threads;
      assert Nonce(threads, 0, 1) == Nonce(threads, u, 0);
    }
  }

  lemma CoprimeKeepsApart(threads: nat)
    requires Coprime(threads, SPREAD)
    ensures ApartBeforeWrap(threads)
  {
    forall t: nat, u: nat, j: nat, k: nat | t < u < threads && Walk(threads, t, j) < TWO_64 && Walk(threads, u, k) < TWO_64
      ensures Nonce(threads, t, j) != Nonce(threads, u, k)
    {
      if Walk(threads, t, j) == Walk(threads, u, k) {
        WalksMeet(threads, t, u, j, k);
      }
    }
  }

  /** The spacing is invertible modulo 2^64. */
  lemma SpreadIsOdd(threads: nat)
    requires threads > 0 && Divides(threads, TWO_64)
    ensures Coprime(threads, SPREAD)
  {
    forall d: int | d > 0 && Divides(d, threads) && Divides(d, SPREAD)
      ensures d == 1
    {
      var q := TWO_64 / threads;
      assert TWO_64 == threads * q;
      DividesCombination(d, threads, SPREAD, q * -731796787, 13499267949257065399);
      assert threads * (q * -731796787) == TWO_64 * -731796787;
      assert Divides(d, 1);
    }
  }

  /** A thread count that divides 2^64 keeps its threads apart across any number of wraps. */
  lemma ApartForever(threads: nat, t: nat, u: nat, j: nat, k: nat)
    requires t < u < threads && Divides(threads, TWO_64)
    ensures Nonce(threads, t, j) % threads == (t * SPREAD) % threads
    ensures Nonce(threads, t, j) != Nonce(threads, u, k)
  {
    SpreadIsOdd(threads);
    var a, b := Walk(threads, t, j), Walk(threads, u, k);
    var q, x, y := TWO_64 / threads, a / TWO_64, b / TWO_64;
    assert TWO_64 == threads * q;
    assert a == threads * (q * x) + Nonce(threads, t, j) by { assert TWO_64 * x == threads * (q * x); }
    assert b == threads * (q * y) + Nonce(threads, u, k) by { assert TWO_64 * y == threads * (q * y); }
    SameMod(threads, t * SPREAD, Nonce(threads, t, j), q * x - j);
    if Nonce(threads, t, j) == Nonce(threads, u, k) {
      assert SPREAD * (t - u) == threads * (q * x - q * y - j + k);
      SameResidue(threads, t, u, q * x - q * y - j + k);
    }
  }

  // ---- The work slot and the threads ----

  datatype Phase = Waiting | Testing | Failed | Stopped

  /** A thread: `seen` numbers the publication it last took, `last` is the version it remembers of it. */
  datatype Thread = Thread(seen: nat, last: nat, nonce: nat, phase: Phase)

  /** A PoW test of publication `work`, made when `latest` was the newest one. */
  datatype Test = Test(thread: nat, work: nat, nonce: nat, passed: bool, latest: nat)

  /** `published` counts publications; the slot shows its residue as the version and holds the latest work. */
  datatype State = State(published: nat, shutdown: bool, threads: seq<Thread>, tests: seq<Test>)

  datatype Event = Publish | Shutdown | Wake(t: nat) | Try(t: nat, passed: bool) | Recheck(t: nat) | Stop(t: nat)

  function Version(s: State): nat {
    s.published % TWO_64
  }

  function Start(threads: nat): State {
    State(0, false, seq(threads, t => Thread(0, 0, t * SPREAD % TWO_64, Waiting)), [])
  }

  predicate Enabled(s: State, e: Event) {
    match e
    case Publish => true
    case Shutdown => true
    case Wake(t) => t < |s.threads| && s.threads[t].phase.Waiting? && (Version(s) != s.threads[t].last || s.shutdown)
    case Try(t, _) => t < |s.threads| && s.threads[t].phase.Testing?
    case Recheck(t) => t < |s.threads| && s.threads[t].phase.Failed?
    case Stop(t) => t < |s.threads| && s.shutdown
  }

  /** What `wait_for_update` hands to a woken thread. */
  function Woken(th: Thread, version: nat, published: nat): Thread {
    if version == th.last then th.(phase := Stopped)
    else th.(seen := published, last := version, phase := Testing)
  }

  function Tried(th: Thread, passed: bool, threads: nat): Thread {
    if passed then th.(phase := Waiting)
    else th.(nonce := (th.nonce + threads) % TWO_64, phase := Failed)
  }

  function Rechecked(th: Thread, version: nat): Thread {
    th.(phase := if version != th.last then Waiting else Testing)
  }

  function Next(s: State, e: Event): State
    requires Enabled(s, e)
  {
    match e
    case Publish => s.(published := s.published + 1)
    case Shutdown => s.(shutdown := true)
    case Wake(t) => s.(threads := s.threads[t := Woken(s.threads[t], Version(s), s.published)])
    case Try(t, passed) =>
      var th := s.threads[t];
      s.(threads := s.threads[t := Tried(th, passed, |s.threads|)],
         tests := s.tests + [Test(t, th.seen, th.nonce, passed, s.published)])
    case Recheck(t) => s.(threads := s.threads[t := Rechecked(s.threads[t], Version(s))])
    case Stop(t) => s.(threads := s.threads[t := s.threads[t].(phase := Stopped)])
  }

  function After(threads: nat, run: seq<Event>): State {
    if run == [] then Start(threads)
    else
      var s, e := After(threads, run[..|run| - 1]), run[|run| - 1];
      if Enabled(s, e) then Next(s, e) else s
  }

  /** Failed tests of one thread, which is how far it has walked. */
  ghost function Failures(tests: seq<Test>, t: nat): nat {
    if tests == [] then 0
    else Failures(tests[..|tests| - 1], t) + if tests[|tests| - 1].thread == t && !tests[|tests| - 1].passed then 1 else 0
  }

  /** What a thread remembers, and what it has submitted so far. */
  ghost predicate ThreadInv(s: State, t: nat)
    requires t < |s.threads|
  {
    var th := s.threads[t];
    && th.seen <= s.published && th.last == th.seen % TWO_64
    && th.nonce == Nonce(|s.threads|, t, Failures(s.tests, t))
    && (forall x | x in s.tests && x.passed && x.thread == t ::
          x.work <= th.seen && (th.phase.Testing? || th.phase.Failed? ==> x.work < th.seen))
  }

  /** Every test was made on the thread's walk, and no thread has submitted twice for one publication. */
  ghost predicate TestsInv(s: State) {
    && (forall i | 0 <= i < |s.tests| ::
          && s.tests[i].thread < |s.threads|
          && s.tests[i].nonce == Nonce(|s.threads|, s.tests[i].thread, Failures(s.tests[..i], s.tests[i].thread)))
    && (forall i, j | 0 <= i < j < |s.tests| ::
          s.tests[i].passed && s.tests[j].passed && s.tests[i].thread == s.tests[j].thread ==>
            s.tests[i].work < s.tests[j].work)
  }

  ghost predicate Inv(s: State) {
    TestsInv(s) && forall t | 0 <= t < |s.threads| :: ThreadInv(s, t)
  }

  lemma NonceStep(threads: nat, t: nat, k: nat)
    ensures (Nonce(threads, t, k) + threads) % TWO_64 == Nonce(threads, t, k + 1)
  {
    var w := Walk(threads, t, k);
    assert Walk(threads, t, k + 1) == w + threads;
    SameMod(TWO_64, w + threads, w % TWO_64 + threads, w / TWO_64);
  }

  /** Steps of one thread that test nothing. */
  lemma QuietStep(s: State, t: nat, th: Thread)
    requires Inv(s) && t < |s.threads|
    requires ThreadInv(s.(threads := s.threads[t := th]), t)
    ensures Inv(s.(threads := s.threads[t := th]))
  {
    hide Failures, Nonce;
    var after := s.(threads := s.threads[t := th]);
    forall u | 0 <= u < |s.threads|
      ensures ThreadInv(after, u)
    {
      assert ThreadInv(s, u);
    }
  }

  lemma WakeKeepsInv(s: State, t: nat)
    requires Inv(s) && Enabled(s, Wake(t))
    ensures Inv(Next(s, Wake(t)))
  {
    hide Failures, Nonce;
    assert ThreadInv(s, t);
    QuietStep(s, t, Woken(s.threads[t], Version(s), s.published));
  }

  lemma TryKeepsThreads(s: State, t: nat, passed: bool, u: nat)
    requires Inv(s) && Enabled(s, Try(t, passed)) && u < |s.threads|
    ensures ThreadInv(Next(s, Try(t, passed)), u)
  {
    hide Nonce, TestsInv;
    var after := Next(s, Try(t, passed));
    assert ThreadInv(s, u);
    assert after.tests[..|s.tests|] == s.tests;
    NonceStep(|s.threads|, t, Failures(s.tests, t));
  }

  lemma TryKeepsTests(s: State, t: nat, passed: bool)
    requires Inv(s) && Enabled(s, Try(t, passed))
    ensures TestsInv(Next(s, Try(t, passed)))
  {
    hide Nonce, Failures;
    var after, n := Next(s, Try(t, passed)), |s.tests|;
    assert ThreadInv(s, t);
    forall i | 0 <= i < |after.tests|
      ensures after.tests[..i] == s.tests[..i]
      ensures i < n ==> after.tests[i] == s.tests[i]
    {
    }
    assert s.tests[..n] == s.tests;
  }

  lemma NextKeepsInv(s: State, e: Event)
    requires Inv(s) && Enabled(s, e)
    ensures Inv(Next(s, e)) && |Next(s, e).threads| == |s.threads|
  {
    hide Failures, Nonce;
    var after := Next(s, e);
    match e
    case Publish =>
      forall u | 0 <= u < |s.threads|
        ensures ThreadInv(after, u)
      {
        assert ThreadInv(s, u);
      }
    case Shutdown =>
      forall u | 0 <= u < |s.threads|
        ensures ThreadInv(after, u)
      {
        assert ThreadInv(s, u);
      }
    case Wake(t) => WakeKeepsInv(s, t);
    case Try(t, passed) =>
      TryKeepsTests(s, t, passed);
      forall u | 0 <= u < |s.threads|
        ensures ThreadInv(after, u)
      {
        TryKeepsThreads(s, t, passed, u);
      }
    case Recheck(t) =>
      assert ThreadInv(s, t);
      QuietStep(s, t, Rechecked(s.threads[t], Version(s)));
    case Stop(t) =>
      assert ThreadInv(s, t);
      QuietStep(s, t, s.threads[t].(phase := Stopped));
  }

  lemma {:induction false} RunKeepsInv(threads: nat, run: seq<Event>)
    ensures Inv(After(threads, run)) && |After(threads, run).threads| == threads
  {
    hide Inv, Next, Enabled, Start;
    if run == [] {
      StartInv(threads);
    } else {
      var s, e := After(threads, run[..|run| - 1]), run[|run| - 1];
      RunKeepsInv(threads, run[..|run| - 1]);
      if Enabled(s, e) {
        NextKeepsInv(s, e);
      }
    }
  }

  lemma StartInv(threads: nat)
    ensures Inv(Start(threads)) && |Start(threads).threads| == threads
  {
  }

  /** In every interleaving, a thread submits at most one block for each publication. */
  lemma OneBlockPerWork(threads: nat, run: seq<Event>, i: nat, j: nat)
    ensures var tests := After(threads, run).tests;
            i < j < |tests| && tests[i].passed && tests[j].passed && tests[i].thread == tests[j].thread ==>
              tests[i].work < tests[j].work
  {
    hide After;
    RunKeepsInv(threads, run);
  }

  // ---- Threads turn to new work, and to nothing else ----

  /** The test was made on the newest work, or the version has wrapped since. */
  ghost predicate Timely(x: Test, published: nat) {
    x.latest == x.work || published >= x.work + TWO_64
  }

  /** A thread waits only when it has taken nothing yet, has submitted a block of its work, or there is newer work. */
  ghost predicate MayWait(s: State, t: nat)
    requires t < |s.threads|
  {
    var th := s.threads[t];
    th.seen == 0 || th.seen < s.published || exists i :: 0 <= i < |s.tests| && Submits(s.tests[i], t, th.seen)
  }

  predicate Submits(x: Test, t: nat, work: nat) {
    x.thread == t && x.work == work && x.passed
  }

  ghost predicate PromptThread(s: State, t: nat)
    requires t < |s.threads|
  {
    var th := s.threads[t];
    && (th.phase.Testing? ==>
          forall i :: 0 <= i < |s.tests| && s.tests[i].thread == t && s.tests[i].work == th.seen ==> Timely(s.tests[i], s.published))
    && (th.phase.Waiting? ==> MayWait(s, t))
    && (th.phase.Stopped? ==> s.shutdown)
  }

  ghost predicate Prompt(s: State) {
    && (forall i :: 0 <= i < |s.tests| ==> s.tests[i].work <= s.tests[i].latest <= s.published)
    && (forall i, j :: 0 <= i < j < |s.tests| && s.tests[i].thread == s.tests[j].thread && s.tests[i].work == s.tests[j].work ==>
          Timely(s.tests[i], s.tests[j].latest))
    && (forall t: nat :: t < |s.threads| ==> PromptThread(s, t))
  }

  lemma TryKeepsPrompt(s: State, t: nat, passed: bool)
    requires Inv(s) && Prompt(s) && Enabled(s, Try(t, passed))
    ensures Prompt(Next(s, Try(t, passed)))
  {
    hide Nonce, Failures, TestsInv;
    var after, n := Next(s, Try(t, passed)), |s.tests|;
    assert ThreadInv(s, t) && PromptThread(s, t);
    forall u: nat | u < |after.threads|
      ensures PromptThread(after, u)
    {
      assert PromptThread(s, u);
      if u == t && passed {
        assert Submits(after.tests[n], t, after.threads[t].seen);
      } else if u != t && s.threads[u].phase.Waiting? {
        if i :| 0 <= i < n && Submits(s.tests[i], u, s.threads[u].seen) {
          assert after.tests[i] == s.tests[i];
        }
      }
    }
  }

  /** Steps that test nothing and do not take publications back. */
  lemma QuietPrompt(s: State, after: State, t: nat)
    requires Prompt(s) && after.tests == s.tests && after.published >= s.published && (s.shutdown ==> after.shutdown)
    requires |after.threads| == |s.threads| && forall u: nat :: u < |s.threads| && u != t ==> after.threads[u] == s.threads[u]
    requires t < |s.threads| ==> PromptThread(after, t)
    ensures Prompt(after)
  {
    forall u: nat | u < |after.threads|
      ensures PromptThread(after, u)
    {
      if u != t {
        assert PromptThread(s, u);
      }
    }
  }

  lemma RecheckKeepsPrompt(s: State, t: nat)
    requires Inv(s) && Prompt(s) && Enabled(s, Recheck(t))
    ensures Prompt(Next(s, Recheck(t)))
  {
    hide Nonce, Failures, TestsInv;
    assert ThreadInv(s, t);
    SameVersion(s.threads[t].seen, s.published);
    QuietPrompt(s, Next(s, Recheck(t)), t);
  }

  lemma WakeKeepsPrompt(s: State, t: nat)
    requires Inv(s) && Prompt(s) && Enabled(s, Wake(t))
    ensures Prompt(Next(s, Wake(t)))
  {
    hide Nonce, Failures, TestsInv;
    QuietPrompt(s, Next(s, Wake(t)), t);
  }

  /** Two publications show the same version only if they are the same or the version has wrapped in between. */
  lemma SameVersion(seen: nat, published: nat)
    requires seen <= published
    ensures seen % TWO_64 == published % TWO_64 ==> seen == published || published >= seen + TWO_64
  {
  }

  lemma NextKeepsPrompt(s: State, e: Event)
    requires Inv(s) && Prompt(s) && Enabled(s, e)
    ensures Prompt(Next(s, e))
  {
    hide Inv;
    match e
    case Publish => QuietPrompt(s, Next(s, e), |s.threads|);
    case Shutdown => QuietPrompt(s, Next(s, e), |s.threads|);
    case Wake(t) => WakeKeepsPrompt(s, t);
    case Try(t, passed) => TryKeepsPrompt(s, t, passed);
    case Recheck(t) => RecheckKeepsPrompt(s, t);
    case Stop(t) => QuietPrompt(s, Next(s, e), t);
  }

  lemma {:induction false} RunKeepsPrompt(threads: nat, run: seq<Event>)
    ensures Prompt(After(threads, run)) && |After(threads, run).threads| == threads
  {
    hide Inv, Prompt, Next, Enabled, Start;
    RunKeepsInv(threads, run);
    if run == [] {
      StartPrompt(threads);
    } else {
      var s, e := After(threads, run[..|run| - 1]), run[|run| - 1];
      RunKeepsPrompt(threads, run[..|run| - 1]);
      RunKeepsInv(threads, run[..|run| - 1]);
      if Enabled(s, e) {
        NextKeepsPrompt(s, e);
      }
    }
  }

  lemma StartPrompt(threads: nat)
    ensures Prompt(Start(threads))
  {
  }

  /** In every interleaving, all tests of a thread on one publication but the last were made while it was the newest,
      unless the version wrapped before the later one: a thread tests outdated work once at most. */
  lemma OutdatedOnce(threads: nat, run: seq<Event>, i: nat, j: nat)
    ensures var tests := After(threads, run).tests;
            i < j < |tests| && tests[i].thread == tests[j].thread && tests[i].work == tests[j].work ==>
              tests[i].latest == tests[i].work || tests[j].latest >= tests[i].work + TWO_64
  {
    hide After, PromptThread;
    RunKeepsPrompt(threads, run);
  }

  /** In every interleaving, a thread stops only at shutdown, and waits only when it has taken no work yet, has submitted a
      block of its work, or there is newer work. */
  lemma NoIdleThread(threads: nat, run: seq<Event>, t: nat)
    requires t < threads
    ensures var s := After(threads, run);
            && |s.threads| == threads
            && (s.threads[t].phase.Stopped? ==> s.shutdown)
            && (s.threads[t].phase.Waiting? ==>
                  || s.threads[t].seen == 0 || s.threads[t].seen < s.published
                  || exists x :: x in s.tests && x.thread == t && x.work == s.threads[t].seen && x.passed)
  {
    hide After;
    RunKeepsPrompt(threads, run);
    var s := After(threads, run);
    assert PromptThread(s, t);
    if i :| 0 <= i < |s.tests| && Submits(s.tests[i], t, s.threads[t].seen) {
      assert s.tests[i] in s.tests;
    }
  }

  /** The walk position of the `i`-th test. */
  ghost function Position(threads: nat, tests: seq<Test>, i: nat): nat
    requires i < |tests|
  {
    Walk(threads, tests[i].thread, Failures(tests[..i], tests[i].thread))
  }

  /** In every interleaving, different threads never test the same nonce before either wraps, if the count is coprime
      to the spacing, and never at all if the count divides 2^64. */
  lemma NoncesApart(threads: nat, run: seq<Event>, i: nat, j: nat)
    requires threads > 0
    ensures var tests := After(threads, run).tests;
            i < |tests| && j < |tests| && tests[i].thread != tests[j].thread ==>
              && (Coprime(threads, SPREAD) && Position(threads, tests, i) < TWO_64 && Position(threads, tests, j) < TWO_64
                  ==> tests[i].nonce != tests[j].nonce)
              && (Divides(threads, TWO_64) ==> tests[i].nonce != tests[j].nonce)
  {
    hide After, Failures, Walk, Nonce, Coprime;
    var tests := After(threads, run).tests;
    RunKeepsInv(threads, run);
    if i < |tests| && j < |tests| && tests[i].thread != tests[j].thread {
      var t, u := tests[i].thread, tests[j].thread;
      var a, b := Failures(tests[..i], t), Failures(tests[..j], u);
      if Coprime(threads, SPREAD) {
        CoprimeKeepsApart(threads);
      }
      if Divides(threads, TWO_64) {
        if t < u {
          ApartForever(threads, t, u, a, b);
        } else {
          ApartForever(threads, u, t, b, a);
        }
      }
    }
  }

  /**
   * The inner loop of a thread on one piece of work, for at most `rounds` tests. `passes` is the PoW check and
   * `leave(i)` says that shutdown or a new version is seen after the i-th test.
   */
  method Search(threads: nat, first: nat, passes: nat -> bool, leave: nat -> bool, rounds: nat, ghost t: nat, ghost k: nat)
    returns (tried: seq<nat>, found: bool, nonce: nat)
    requires first == Nonce(threads, t, k)
    ensures forall i :: 0 <= i < |tried| ==> tried[i] == Nonce(threads, t, k + i)
    ensures forall i :: 0 <= i < |tried| - 1 ==> !passes(tried[i]) && !leave(i)
    ensures found <==> tried != [] && passes(tried[|tried| - 1])
    ensures nonce == Nonce(threads, t, if found then k + |tried| - 1 else k + |tried|)
    ensures !found ==> |tried| == rounds || (tried != [] && leave(|tried| - 1))
  {
    hide Nonce;
    tried, found, nonce := [], false, first;
    while |tried| < rounds
      invariant |tried| <= rounds && !found
      invariant forall i :: 0 <= i < |tried| ==> tried[i] == Nonce(threads, t, k + i)
      invariant forall i :: 0 <= i < |tried| ==> !passes(tried[i]) && !leave(i)
      invariant nonce == Nonce(threads, t, k + |tried|)
    {
      tried := tried + [nonce];
      if passes(nonce) {
        found := true;
        break;
      }
      NonceStep(threads, t, k + |tried| - 1);
      nonce := (nonce + threads) % TWO_64;
      if leave(|tried| - 1) {
        break;
      }
    }
  }

  /** The shared slot. */
  class SharedWork<Work> {
    var version: nat
    var work: Option<Work>
    ghost var log: seq<Work>

    ghost predicate Valid()
      reads this
    {
      && version == |log| % TWO_64
      && work == if log == [] then None else Some(log[|log| - 1])
    }

    constructor ()
      ensures Valid() && log == []
    {
      version, work, log := 0, None, [];
    }

    method Publish(w: Work)
      requires Valid()
      modifies this
      ensures Valid() && log == old(log) + [w]
    {
      version := (version + 1) % TWO_64;
      work := Some(w);
      log := log + [w];
    }

    /** The return of `wait_for_update`, once its wait is over. */
    method Update(lastSeen: nat, shutdown: bool, ghost seen: nat) returns (ver: nat, w: Option<Work>)
      requires Valid() && seen <= |log| && lastSeen == seen % TWO_64
      requires version != lastSeen || shutdown
      ensures w.None? <==> version == lastSeen
      ensures w.Some? ==> seen < |log| && w.value == log[|log| - 1] && ver == |log| % TWO_64
      ensures w.None? ==> ver == lastSeen
    {
      if shutdown && version == lastSeen {
        return lastSeen, None;
      }
      ver, w := version, work;
    }
  }
}
