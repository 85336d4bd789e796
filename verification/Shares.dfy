/**
 * A submitted share from the duplicate guard to the counters (share_handler.rs): `handle_submit` evaluates and counts exactly
 * the submits that the guard admits, and records each verdict in the guard for later duplicates.
 */
module Shares {
  import opened Util
  import opened FifoGuard
  import G = SubmitGuard
  import L = Ledger
  import W = WalkBack

  /**
   * `events` are the critical sections of the guard so far, so the guard is the one after them. Task `t` of the ledger was
   * admitted by event `owner[t]`; `verdicts` remembers what its evaluation found.
   */
  datatype State = State(events: seq<G.Event>, ledger: L.State, owner: map<nat, nat>, verdicts: map<nat, W.Verdict>)

  datatype Event =
    | Submit(key: Key, worker: L.Worker, now: nat)
    | Record(t: nat, now: nat)
    | Work(step: L.Event)

  const START: State := State([], L.START, map[], map[])

  /** How the guard remembers a verdict. */
  function OutcomeOf(v: W.Verdict): G.Outcome
    requires v != W.MissingJob
  {
    match v
    case ValidShare => G.Accepted
    case LowDifficulty => G.LowDiff
    case StaleBlock => G.Stale
    case BadBlock => G.Bad
  }

  /** What the guard answers to the next submit of `key`. */
  function Answer(limits: Limits, es: seq<G.Event>, key: Key, now: nat): Option<G.Outcome> {
    G.Lookup(Pruned(G.After(limits, es, |es|), now, limits), key)
  }

  predicate Enabled(s: State, e: Event) {
    match e
    case Submit(_, _, _) => true
    case Record(t, _) => t in s.owner && s.owner[t] < |s.events| && t in s.verdicts && s.verdicts[t] != W.MissingJob
    case Work(step) => !step.Admit? && L.Enabled(s.ledger, step)
  }

  function Next(limits: Limits, s: State, e: Event): State
    requires Enabled(s, e)
  {
    match e
    case Submit(key, worker, now) =>
      var es := s.events + [G.Submit(key, now)];
      if Answer(limits, s.events, key, now).Some? then s.(events := es)
      else State(es, L.Next(s.ledger, L.Admit(worker)), s.owner[|s.ledger.tasks| := |s.events|], s.verdicts)
    case Record(t, now) =>
      s.(events := s.events + [G.Finish(s.events[s.owner[t]].key, now, OutcomeOf(s.verdicts[t]))])
    case Work(step) =>
      s.(ledger := L.Next(s.ledger, step), verdicts := if step.Judge? then s.verdicts[step.t := step.verdict] else s.verdicts)
  }

  function After(limits: Limits, run: seq<Event>): State {
    if run == [] then START
    else
      var s, e := After(limits, run[..|run| - 1]), run[|run| - 1];
      if Enabled(s, e) then Next(limits, s, e) else s
  }

  /** How many of the first `n` events admit their key. */
  ghost function Admissions(limits: Limits, es: seq<G.Event>, n: nat): nat
    requires n <= |es|
  {
    if n == 0 then 0 else Admissions(limits, es, n - 1) + if G.Admitted(limits, es, n - 1) then 1 else 0
  }

  lemma {:induction false} SameStart(limits: Limits, es: seq<G.Event>, fs: seq<G.Event>, n: nat)
    requires n <= |es| && es <= fs
    ensures G.After(limits, fs, n) == G.After(limits, es, n)
  {
    hide G.Step;
    if n > 0 {
      SameStart(limits, es, fs, n - 1);
    }
  }

  lemma AdmittedStays(limits: Limits, es: seq<G.Event>, fs: seq<G.Event>, i: nat)
    requires i < |es| && es <= fs
    ensures G.Admitted(limits, fs, i) <==> G.Admitted(limits, es, i)
  {
    SameStart(limits, es, fs, i);
  }

  lemma {:induction false} AdmissionsStay(limits: Limits, es: seq<G.Event>, fs: seq<G.Event>, n: nat)
    requires n <= |es| && es <= fs
    ensures Admissions(limits, fs, n) == Admissions(limits, es, n)
  {
    if n > 0 {
      AdmissionsStay(limits, es, fs, n - 1);
      AdmittedStays(limits, es, fs, n - 1);
    }
  }

  lemma NextAdmission(limits: Limits, es: seq<G.Event>, e: G.Event)
    ensures var fs := es + [e];
            && (G.Admitted(limits, fs, |es|) <==> e.Submit? && Answer(limits, es, e.key, e.now).None?)
            && Admissions(limits, fs, |fs|) == Admissions(limits, es, |es|) + if G.Admitted(limits, fs, |es|) then 1 else 0
  {
    hide Pruned;
    var fs := es + [e];
    SameStart(limits, es, fs, |es|);
    AdmissionsStay(limits, es, fs, |es|);
  }

  /** Counts the verdict of a share, or is on its way to: not the confirmation of a block. */
  predicate Counting(x: L.Task) {
    match x
    case Evaluating(_) => true
    case Judged(_, kind) => kind != L.Block
    case Holding(kind, _) => kind != L.Block
    case Bumped(kind) => kind != L.Block
    case Done(kind) => kind != L.Block
    case Closed => false
  }

  /** Counting tasks and admissions correspond, in order. */
  ghost predicate Owned(limits: Limits, s: State) {
    && (forall t :: 0 <= t < |s.ledger.tasks| && Counting(s.ledger.tasks[t]) ==> t in s.owner)
    && (forall t :: t in s.owner ==>
          t < |s.ledger.tasks| && s.owner[t] < |s.events| && G.Admitted(limits, s.events, s.owner[t]))
    && (forall t, u :: t in s.owner && u in s.owner && t < u ==> s.owner[t] < s.owner[u])
    && s.ledger.admitted == Admissions(limits, s.events, |s.events|)
  }

  /** Every recorded outcome is the verdict of a task for that key. */
  ghost predicate Recorded(s: State) {
    && (forall t :: t in s.verdicts ==> t < |s.ledger.tasks| && s.verdicts[t] != W.MissingJob && !s.ledger.tasks[t].Evaluating?)
    && (forall i :: 0 <= i < |s.events| && s.events[i].Finish? ==> exists t :: Stems(s, i, t))
  }

  /** Event `i` records the verdict of task `t`. */
  ghost predicate Stems(s: State, i: nat, t: nat)
    requires i < |s.events|
  {
    && t in s.owner && s.owner[t] < |s.events| && t in s.verdicts && s.verdicts[t] != W.MissingJob
    && s.events[i].Finish? && s.events[s.owner[t]].key == s.events[i].key && s.events[i].outcome == OutcomeOf(s.verdicts[t])
  }

  ghost predicate Inv(limits: Limits, s: State) {
    Owned(limits, s) && Recorded(s) && L.Inv(s.ledger)
  }

  lemma WorkKeepsTasks(l: L.State, e: L.Event)
    requires L.Enabled(l, e) && !e.Admit?
    ensures var m := L.Next(l, e);
            && m.admitted == l.admitted && |l.tasks| <= |m.tasks|
            && (forall t :: 0 <= t < |l.tasks| && !l.tasks[t].Evaluating? ==> !m.tasks[t].Evaluating?)
            && (forall t :: 0 <= t < |m.tasks| && Counting(m.tasks[t]) ==> t < |l.tasks| && Counting(l.tasks[t]))
            && (e.Judge? ==> !m.tasks[e.t].Evaluating?)
            && (e.Judge? ==> l.tasks[e.t].Evaluating?)
  {
  }

  lemma AppendKeepsOwned(limits: Limits, s: State, e: G.Event)
    requires Owned(limits, s) && !(e.Submit? && Answer(limits, s.events, e.key, e.now).None?)
    ensures Owned(limits, s.(events := s.events + [e]))
  {
    hide G.Admitted, Admissions, Answer;
    NextAdmission(limits, s.events, e);
    forall t | t in s.owner
      ensures G.Admitted(limits, s.events + [e], s.owner[t])
    {
      AdmittedStays(limits, s.events, s.events + [e], s.owner[t]);
    }
  }

  lemma AdmitKeepsOwned(limits: Limits, s: State, e: Event)
    requires Owned(limits, s) && e.Submit? && Answer(limits, s.events, e.key, e.now).None?
    ensures Owned(limits, Next(limits, s, e))
  {
    hide G.Admitted, Admissions, Answer;
    var es := s.events + [G.Submit(e.key, e.now)];
    NextAdmission(limits, s.events, G.Submit(e.key, e.now));
    forall t | t in s.owner
      ensures G.Admitted(limits, es, s.owner[t])
    {
      AdmittedStays(limits, s.events, es, s.owner[t]);
    }
  }

  lemma StemsStays(s: State, s': State, i: nat, t: nat)
    requires i < |s.events| && Stems(s, i, t) && s.events <= s'.events
    requires t in s'.owner && s'.owner[t] == s.owner[t] && t in s'.verdicts && s'.verdicts[t] == s.verdicts[t]
    ensures Stems(s', i, t)
  {
  }

  lemma NextKeepsRecorded(limits: Limits, s: State, e: Event)
    requires Owned(limits, s) && Recorded(s) && Enabled(s, e)
    ensures Recorded(Next(limits, s, e))
  {
    hide Answer, OutcomeOf, G.Admitted, Admissions, Counting;
    var s' := Next(limits, s, e);
    if e.Work? {
      WorkKeepsTasks(s.ledger, e.step);
    }
    hide L.Next, L.Enabled;
    forall i | 0 <= i < |s'.events| && s'.events[i].Finish?
      ensures exists t :: Stems(s', i, t)
    {
      if i < |s.events| {
        assert s.events[i] == s'.events[i];
        var t :| Stems(s, i, t);
        StemsStays(s, s', i, t);
      } else {
        assert Stems(s', i, e.t);
      }
    }
  }

  lemma NextKeepsInv(limits: Limits, s: State, e: Event)
    requires Inv(limits, s) && Enabled(s, e)
    ensures Inv(limits, Next(limits, s, e))
  {
    NextKeepsRecorded(limits, s, e);
    hide L.Inv, Recorded, Answer, Admissions, G.Admitted;
    match e
    case Submit(key, worker, now) =>
      if Answer(limits, s.events, key, now).Some? {
        AppendKeepsOwned(limits, s, G.Submit(key, now));
      } else {
        AdmitKeepsOwned(limits, s, e);
        L.NextKeepsInv(s.ledger, L.Admit(worker));
      }
    case Record(t, now) =>
      AppendKeepsOwned(limits, s, G.Finish(s.events[s.owner[t]].key, now, OutcomeOf(s.verdicts[t])));
    case Work(step) =>
      WorkKeepsTasks(s.ledger, step);
      L.NextKeepsInv(s.ledger, step);
  }

  lemma StartInv(limits: Limits)
    ensures Inv(limits, START)
  {
    hide L.Inv, G.Admitted, OutcomeOf;
    L.StartInv();
    assert START.events == [] && START.owner == map[] && START.verdicts == map[];
  }

  lemma {:induction false} RunKeepsInv(limits: Limits, run: seq<Event>)
    ensures Inv(limits, After(limits, run))
  {
    hide Inv, Next, Enabled;
    if run == [] {
      StartInv(limits);
    } else {
      var s, e := After(limits, run[..|run| - 1]), run[|run| - 1];
      RunKeepsInv(limits, run[..|run| - 1]);
      if Enabled(s, e) {
        NextKeepsInv(limits, s, e);
      }
    }
  }

  /** Every task that counts a verdict was admitted by the guard, later tasks by later submits. */
  lemma TasksAreAdmissions(limits: Limits, run: seq<Event>, t: nat, u: nat)
    ensures var s := After(limits, run);
            && (t < |s.ledger.tasks| && Counting(s.ledger.tasks[t]) ==> t in s.owner)
            && (t in s.owner ==> s.owner[t] < |s.events| && G.Admitted(limits, s.events, s.owner[t]))
            && (t in s.owner && u in s.owner && t < u ==> s.owner[t] < s.owner[u])
  {
    hide After, G.Admitted, Admissions, Recorded, L.Inv, Counting;
    RunKeepsInv(limits, run);
  }

  /** Has counted the verdict of a share in the worker's record and in the totals. */
  predicate Credited(s: State, t: nat) {
    t < |s.ledger.tasks| && s.ledger.tasks[t].Done? && s.ledger.tasks[t].kind != L.Block
  }

  /**
   * Credited at most once. In every interleaving, two tasks are credited for the same key only if the key was forgotten
   * in between: after a gap longer than the TTL since its latest stamp, or after `maxEntries` other admissions.
   */
  lemma CreditedOnce(limits: Limits, run: seq<Event>, t: nat, u: nat)
    ensures var s := After(limits, run);
            t < u && Credited(s, t) && Credited(s, u) ==>
              && t in s.owner && u in s.owner && s.owner[t] < s.owner[u] < |s.events|
              && (s.events[s.owner[t]].key == s.events[s.owner[u]].key ==>
                    !G.Undisturbed(limits, s.events, s.owner[t], s.owner[u]))
  {
    hide After, G.Undisturbed, G.Admitted, Admissions, Recorded, L.Inv;
    RunKeepsInv(limits, run);
    var s := After(limits, run);
    if t < u && Credited(s, t) && Credited(s, u) && s.events[s.owner[t]].key == s.events[s.owner[u]].key {
      G.EvaluatedOnce(limits, s.events, s.owner[t], s.owner[u]);
    }
  }

  /** The overall totals count the submits the guard admitted, less those still on their way. */
  lemma TotalsCountAdmissions(limits: Limits, run: seq<Event>)
    ensures var s := After(limits, run);
            s.ledger.overall.accepted + s.ledger.overall.stale + s.ledger.overall.invalid + L.Open(s.ledger.tasks)
            == Admissions(limits, s.events, |s.events|)
  {
    hide After, G.Admitted, Admissions, Recorded, L.Open, L.Balanced, L.Handles;
    RunKeepsInv(limits, run);
  }

  /** Once every task has ended, accepted + stale + invalid is exactly the number of admitted submits. */
  lemma QuiescentCredits(limits: Limits, run: seq<Event>)
    ensures var s := After(limits, run);
            (forall t | 0 <= t < |s.ledger.tasks| :: s.ledger.tasks[t].Done? || s.ledger.tasks[t].Closed?) ==>
              s.ledger.overall.accepted + s.ledger.overall.stale + s.ledger.overall.invalid
              == Admissions(limits, s.events, |s.events|)
  {
    hide After, Admissions, L.Open;
    TotalsCountAdmissions(limits, run);
    var s := After(limits, run);
    if forall t | 0 <= t < |s.ledger.tasks| :: s.ledger.tasks[t].Done? || s.ledger.tasks[t].Closed? {
      L.NothingOpen(s.ledger.tasks, L.Accepted);
    }
  }

  // ---- Which verdict goes to which counter ----

  /** A task keeps the verdict of its evaluation as the kind of counter it bumps. */
  ghost predicate Filed(s: State) {
    && (forall t :: t in s.owner ==> t < |s.ledger.tasks| && Counting(s.ledger.tasks[t]))
    && (forall t :: t in s.verdicts ==> t in s.owner)
    && (forall t: nat :: t < |s.ledger.tasks| ==> FiledAt(s, t))
  }

  /** The counter of a verdict: accepted for a valid share, stale for a stale block, invalid for a low difficulty or a
      bad block. */
  ghost predicate Files(kind: L.Kind, v: W.Verdict) {
    || (kind == L.Accepted && v == W.ValidShare)
    || (kind == L.Stale && v == W.StaleBlock)
    || (kind == L.Invalid && (v == W.LowDifficulty || v == W.BadBlock))
  }

  ghost predicate FiledAt(s: State, t: nat)
    requires t < |s.ledger.tasks|
  {
    var x := s.ledger.tasks[t];
    Counting(x) && !x.Evaluating? ==> t in s.verdicts && Files(x.kind, s.verdicts[t])
  }

  /** Apart from judging, the steps of the ledger leave the kind of a task alone. */
  lemma WorkKeepsKinds(l: L.State, e: L.Event, t: nat)
    requires L.Enabled(l, e) && !e.Admit? && t < |L.Next(l, e).tasks| && Counting(L.Next(l, e).tasks[t])
    ensures t < |l.tasks| && Counting(l.tasks[t])
    ensures var x := L.Next(l, e).tasks[t];
            if e.Judge? && e.t == t then x.Judged? && Files(x.kind, e.verdict)
            else x.Evaluating? == l.tasks[t].Evaluating? && (!x.Evaluating? ==> x.kind == l.tasks[t].kind)
  {
  }

  lemma WorkKeepsCounting(l: L.State, e: L.Event, t: nat)
    requires L.Enabled(l, e) && !e.Admit? && t < |l.tasks| && Counting(l.tasks[t])
    ensures t < |L.Next(l, e).tasks| && Counting(L.Next(l, e).tasks[t])
  {
  }

  lemma WorkKeepsFiled(s: State, step: L.Event, verdicts: map<nat, W.Verdict>, t: nat)
    requires L.Enabled(s.ledger, step) && !step.Admit? && t < |L.Next(s.ledger, step).tasks|
    requires t < |s.ledger.tasks| ==> FiledAt(s, t)
    requires verdicts == if step.Judge? then s.verdicts[step.t := step.verdict] else s.verdicts
    ensures FiledAt(s.(ledger := L.Next(s.ledger, step), verdicts := verdicts), t)
  {
    hide Files;
    if Counting(L.Next(s.ledger, step).tasks[t]) {
      WorkKeepsKinds(s.ledger, step, t);
    }
  }

  lemma NextKeepsFiled(limits: Limits, s: State, e: Event)
    requires Owned(limits, s) && Filed(s) && Enabled(s, e)
    ensures Filed(Next(limits, s, e))
  {
    hide Owned, Answer, OutcomeOf, FiledAt, Counting, L.Next, L.Enabled;
    var s' := Next(limits, s, e);
    match e
    case Submit(_, worker, _) => AdmitKeepsFiled(limits, s, e);
    case Record(_, _) => RecordKeepsFiled(limits, s, e);
    case Work(step) =>
      forall t | t in s.owner
        ensures t < |s'.ledger.tasks| && Counting(s'.ledger.tasks[t])
      {
        WorkKeepsCounting(s.ledger, step, t);
      }
      forall t: nat | t < |s'.ledger.tasks|
        ensures FiledAt(s', t)
      {
        WorkKeepsFiled(s, step, s'.verdicts, t);
      }
      if step.Judge? {
        JudgedIsOwned(limits, s, step);
      }
  }

  lemma AdmitKeepsFiled(limits: Limits, s: State, e: Event)
    requires Filed(s) && e.Submit?
    ensures Filed(Next(limits, s, e))
  {
    hide Answer, Files;
    var s' := Next(limits, s, e);
    forall t: nat | t < |s'.ledger.tasks|
      ensures FiledAt(s', t)
    {
      if t < |s.ledger.tasks| {
        assert FiledAt(s, t);
      }
    }
  }

  lemma RecordKeepsFiled(limits: Limits, s: State, e: Event)
    requires Filed(s) && e.Record? && Enabled(s, e)
    ensures Filed(Next(limits, s, e))
  {
    hide OutcomeOf, Files, Counting;
    var s' := Next(limits, s, e);
    forall t: nat | t < |s'.ledger.tasks|
      ensures FiledAt(s', t)
    {
      assert FiledAt(s, t);
    }
  }

  lemma JudgedIsOwned(limits: Limits, s: State, step: L.Event)
    requires Owned(limits, s) && L.Enabled(s.ledger, step) && step.Judge?
    ensures step.t in s.owner
  {
    hide G.Admitted, Admissions;
  }

  lemma {:induction false} RunKeepsFiled(limits: Limits, run: seq<Event>)
    ensures Filed(After(limits, run))
  {
    hide Owned, Recorded, L.Inv, Filed, Next, Enabled;
    if run == [] {
      assert Filed(START) by { StartFiled(); }
    } else {
      var s, e := After(limits, run[..|run| - 1]), run[|run| - 1];
      RunKeepsFiled(limits, run[..|run| - 1]);
      RunKeepsInv(limits, run[..|run| - 1]);
      if Enabled(s, e) {
        NextKeepsFiled(limits, s, e);
      }
    }
  }

  lemma StartFiled()
    ensures Filed(START)
  {
  }

  /** In every interleaving, task by task: which verdict a task that has counted it came to. */
  lemma DoneMeans(limits: Limits, run: seq<Event>, t: nat)
    ensures var s := After(limits, run);
            t < |s.ledger.tasks| && s.ledger.tasks[t].Done? && s.ledger.tasks[t].kind != L.Block ==>
              && t in s.verdicts
              && (s.ledger.tasks[t] == L.Done(L.Accepted) <==> s.verdicts[t] == W.ValidShare)
              && (s.ledger.tasks[t] == L.Done(L.Stale) <==> s.verdicts[t] == W.StaleBlock)
              && (s.ledger.tasks[t] == L.Done(L.Invalid) <==> s.verdicts[t] in {W.LowDifficulty, W.BadBlock})
  {
    hide After;
    RunKeepsFiled(limits, run);
    var s := After(limits, run);
    if t < |s.ledger.tasks| {
      assert FiledAt(s, t);
    }
  }

  /** The tasks below `n` that have counted one of these verdicts. */
  ghost function Counted(s: State, vs: set<W.Verdict>, n: nat): set<nat> {
    set t | t in s.verdicts && t < n && s.verdicts[t] in vs && Credited(s, t)
  }

  lemma {:induction false} CountedIs(s: State, k: L.Kind, vs: set<W.Verdict>, n: nat)
    requires Filed(s) && k != L.Block && n <= |s.ledger.tasks|
    requires forall v :: v in vs <==> Files(k, v)
    ensures |Counted(s, vs, n)| == L.At(s.ledger.tasks[..n], L.Done(k))
  {
    hide L.At, Filed, Files, Counted;
    if n == 0 {
      CountedNone(s, vs);
      NoTasks(L.Done(k));
    } else {
      var t := n - 1;
      CountedIs(s, k, vs, t);
      assert s.ledger.tasks[..n] == s.ledger.tasks[..t] + [s.ledger.tasks[t]];
      L.AtAppend(s.ledger.tasks[..t], s.ledger.tasks[t], L.Done(k));
      CountedStep(s, k, vs, t);
    }
  }

  lemma CountedNone(s: State, vs: set<W.Verdict>)
    ensures Counted(s, vs, 0) == {}
  {
  }

  lemma CountedStep(s: State, k: L.Kind, vs: set<W.Verdict>, t: nat)
    requires Filed(s) && k != L.Block && t < |s.ledger.tasks|
    requires forall v :: v in vs <==> Files(k, v)
    ensures |Counted(s, vs, t + 1)| == |Counted(s, vs, t)| + if s.ledger.tasks[t] == L.Done(k) then 1 else 0
  {
    hide Counting;
    assert FiledAt(s, t);
    if s.ledger.tasks[t] == L.Done(k) {
      assert Counting(L.Done(k)) by { DoneCounts(k); }
      assert Counted(s, vs, t + 1) == Counted(s, vs, t) + {t};
    } else {
      if Credited(s, t) { DoneCounts(s.ledger.tasks[t].kind); }
      assert Counted(s, vs, t + 1) == Counted(s, vs, t);
    }
  }

  lemma DoneCounts(k: L.Kind)
    ensures Counting(L.Done(k)) <==> k != L.Block
  {
  }

  lemma NoTasks(x: L.Task)
    ensures L.At([], x) == 0
  {
  }

  /**
   * What the totals say. In every interleaving the accepted, stale and invalid totals are the numbers of tasks that ended
   * with a valid share, with a stale block, and with a low difficulty or a bad block.
   */
  lemma TotalsAreVerdicts(limits: Limits, run: seq<Event>)
    ensures var s := After(limits, run);
            var n := |s.ledger.tasks|;
            && s.ledger.overall.accepted == |Counted(s, {W.ValidShare}, n)|
            && s.ledger.overall.stale == |Counted(s, {W.StaleBlock}, n)|
            && s.ledger.overall.invalid == |Counted(s, {W.LowDifficulty, W.BadBlock}, n)|
  {
    hide After, Owned, Recorded, Filed, Counted, L.At, L.Handles, L.Open;
    var s := After(limits, run);
    var n := |s.ledger.tasks|;
    assert s.ledger.tasks[..n] == s.ledger.tasks;
    RunKeepsInv(limits, run);
    RunKeepsFiled(limits, run);
    CountedIs(s, L.Accepted, {W.ValidShare}, n);
    CountedIs(s, L.Stale, {W.StaleBlock}, n);
    CountedIs(s, L.Invalid, {W.LowDifficulty, W.BadBlock}, n);
    assert L.Balanced(s.ledger, L.Accepted) && L.Balanced(s.ledger, L.Stale) && L.Balanced(s.ledger, L.Invalid);
  }

  /** The tasks whose evaluation came to one of these verdicts. */
  ghost function Judged(s: State, vs: set<W.Verdict>): set<nat> {
    set t | t in s.verdicts && s.verdicts[t] in vs
  }

  /** Once every task has ended, the totals are the numbers of admitted submits by verdict, and every one has a verdict. */
  lemma QuiescentVerdicts(limits: Limits, run: seq<Event>)
    ensures var s := After(limits, run);
            (forall t | 0 <= t < |s.ledger.tasks| :: s.ledger.tasks[t].Done? || s.ledger.tasks[t].Closed?) ==>
              && s.owner.Keys == s.verdicts.Keys
              && s.ledger.overall.accepted == |Judged(s, {W.ValidShare})|
              && s.ledger.overall.stale == |Judged(s, {W.StaleBlock})|
              && s.ledger.overall.invalid == |Judged(s, {W.LowDifficulty, W.BadBlock})|
  {
    hide After;
    var s := After(limits, run);
    TotalsAreVerdicts(limits, run);
    RunKeepsFiled(limits, run);
    if forall t | 0 <= t < |s.ledger.tasks| :: s.ledger.tasks[t].Done? || s.ledger.tasks[t].Closed? {
      forall t | t in s.owner
        ensures t in s.verdicts && Credited(s, t)
      {
        assert Counting(s.ledger.tasks[t]) && FiledAt(s, t);
      }
      forall vs
        ensures Counted(s, vs, |s.ledger.tasks|) == Judged(s, vs)
      {
      }
    }
  }

  /** Outcome by outcome, what the guard remembers of a verdict. */
  ghost predicate Remembers(outcome: G.Outcome, v: W.Verdict) {
    && (outcome == G.Accepted <==> v == W.ValidShare)
    && (outcome == G.LowDiff <==> v == W.LowDifficulty)
    && (outcome == G.Stale <==> v == W.StaleBlock)
    && (outcome == G.Bad <==> v == W.BadBlock)
  }

  /** A duplicate that the guard remembers is answered as in flight, or with the verdict of a task for the same key. */
  lemma DuplicateAnswer(limits: Limits, run: seq<Event>, t: nat, j: nat)
    ensures var s := After(limits, run);
            t in s.owner && s.owner[t] < j < |s.events| && G.Undisturbed(limits, s.events, s.owner[t], j) ==>
              var key := s.events[s.owner[t]].key;
              var answer := G.Lookup(Pruned(G.After(limits, s.events, j), s.events[j].now, limits), key);
              && answer.Some?
              && (|| answer.value == G.InFlight
                  || exists i, u :: 0 <= i < j && Stems(s, i, u) && s.events[i].key == key && s.events[i].outcome == answer.value
                       && Remembers(answer.value, s.verdicts[u]))
  {
    hide After, G.Admitted, Admissions, L.Inv, G.After, Pruned, G.Undisturbed;
    RunKeepsInv(limits, run);
    var s := After(limits, run);
    if t in s.owner && s.owner[t] < j < |s.events| && G.Undisturbed(limits, s.events, s.owner[t], j) {
      var key, m := s.events[s.owner[t]].key, G.LastTouch(s.events, s.owner[t], j, s.events[s.owner[t]].key);
      G.Remembered(limits, s.events, s.owner[t], j);
      if s.events[m].Finish? {
        var u :| Stems(s, m, u);
        LastTouchKey(s.events, s.owner[t], j, key);
        assert Remembers(OutcomeOf(s.verdicts[u]), s.verdicts[u]);
      }
    }
  }

  lemma {:induction false} LastTouchKey(es: seq<G.Event>, i: nat, n: nat, key: Key)
    requires i < n <= |es| && es[i].key == key
    ensures es[G.LastTouch(es, i, n, key)].key == key
  {
    if n - 1 != i {
      LastTouchKey(es, i, n - 1, key);
    }
  }
}
