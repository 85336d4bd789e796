/**
 * Share counters of the handler (share_handler.rs). A worker's record is found or created by name, bumped through a
 * handle that survives pruning, and bumped again in the overall totals; each of these is a separate step of a
 * submission's task, and pruning may fall between any two. A record is identified by its index.
 */
module Ledger {
  import opened Util
  import W = WalkBack

  type Worker = string

  datatype Kind = Accepted | Stale | Invalid | Block

  /** The counter a verdict goes to; a submit without a job is refused before it is evaluated. */
  function CounterOf(v: W.Verdict): Kind
    requires v != W.MissingJob
  {
    match v
    case ValidShare => Accepted
    case LowDifficulty => Invalid
    case StaleBlock => Stale
    case BadBlock => Invalid
  }

  datatype Counts = Counts(accepted: nat, stale: nat, invalid: nat, blocks: nat)

  const ZERO: Counts := Counts(0, 0, 0, 0)

  function Get(c: Counts, k: Kind): nat {
    match k
    case Accepted => c.accepted
    case Stale => c.stale
    case Invalid => c.invalid
    case Block => c.blocks
  }

  function Bump(c: Counts, k: Kind): Counts {
    match k
    case Accepted => c.(accepted := c.accepted + 1)
    case Stale => c.(stale := c.stale + 1)
    case Invalid => c.(invalid := c.invalid + 1)
    case Block => c.(blocks := c.blocks + 1)
  }

  /**
   * A submission admitted by the duplicate guard, or the confirmation of an accepted block. `Judged` knows its verdict
   * and is about to look its record up, `Holding` has the record and has not bumped it, `Bumped` has not yet bumped
   * the totals. A confirmation that never sees its block blue is `Closed`.
   */
  datatype Task =
    | Evaluating(worker: Worker)
    | Judged(worker: Worker, kind: Kind)
    | Holding(kind: Kind, record: nat)
    | Bumped(kind: Kind)
    | Done(kind: Kind)
    | Closed

  datatype State = State(
    live: map<Worker, nat>, records: seq<Counts>, overall: Counts, tasks: seq<Task>, admitted: nat)

  datatype Event =
    | Admit(worker: Worker)
    | Judge(t: nat, verdict: W.Verdict)
    | Touch(worker: Worker)
    | Confirm(worker: Worker)
    | Look(t: nat)
    | BumpWorker(t: nat)
    | BumpOverall(t: nat)
    | Close(t: nat)
    | Prune(gone: set<Worker>)

  const START: State := State(map[], [], ZERO, [], 0)

  predicate Enabled(s: State, e: Event) {
    match e
    case Admit(_) => true
    case Judge(t, verdict) => t < |s.tasks| && s.tasks[t].Evaluating? && verdict != W.MissingJob
    case Touch(_) => true
    case Confirm(_) => true
    case Look(t) => t < |s.tasks| && s.tasks[t].Judged?
    case BumpWorker(t) => t < |s.tasks| && s.tasks[t].Holding? && s.tasks[t].record < |s.records|
    case BumpOverall(t) => t < |s.tasks| && s.tasks[t].Bumped?
    case Close(t) => t < |s.tasks| && s.tasks[t].Holding? && s.tasks[t].kind == Block
    case Prune(_) => true
  }

  /** `get_create_stats`: the live record of a worker, made if there is none. */
  function Created(s: State, worker: Worker): (r: State)
    ensures worker in r.live
  {
    if worker in s.live then s
    else s.(live := s.live[worker := |s.records|], records := s.records + [ZERO])
  }

  function Next(s: State, e: Event): State
    requires Enabled(s, e)
  {
    match e
    case Admit(worker) => s.(tasks := s.tasks + [Evaluating(worker)], admitted := s.admitted + 1)
    case Judge(t, verdict) => s.(tasks := s.tasks[t := Judged(s.tasks[t].worker, CounterOf(verdict))])
    case Touch(worker) => Created(s, worker)
    case Confirm(worker) =>
      var c := Created(s, worker);
      c.(tasks := c.tasks + [Holding(Block, c.live[worker])])
    case Look(t) =>
      var c := Created(s, s.tasks[t].worker);
      c.(tasks := c.tasks[t := Holding(s.tasks[t].kind, c.live[s.tasks[t].worker])])
    case BumpWorker(t) =>
      var k, r := s.tasks[t].kind, s.tasks[t].record;
      s.(records := s.records[r := Bump(s.records[r], k)], tasks := s.tasks[t := Bumped(k)])
    case BumpOverall(t) =>
      var k := s.tasks[t].kind;
      s.(overall := Bump(s.overall, k), tasks := s.tasks[t := Done(k)])
    case Close(t) => s.(tasks := s.tasks[t := Closed])
    case Prune(gone) => s.(live := map w | w in s.live && w !in gone :: s.live[w])
  }

  function After(run: seq<Event>): State {
    if run == [] then START
    else
      var s, e := After(run[..|run| - 1]), run[|run| - 1];
      if Enabled(s, e) then Next(s, e) else s
  }

  // ---- What every interleaving keeps ----

  ghost function Sum(records: seq<Counts>, k: Kind): nat {
    if records == [] then 0 else Sum(records[..|records| - 1], k) + Get(records[|records| - 1], k)
  }

  /** Tasks whose verdict has not reached the totals. */
  ghost predicate Unfinished(t: Task) {
    t.Evaluating? || t.Judged? || (t.Holding? && t.kind != Block) || (t.Bumped? && t.kind != Block)
  }

  ghost function Open(tasks: seq<Task>): nat {
    if tasks == [] then 0 else Open(tasks[..|tasks| - 1]) + if Unfinished(tasks[|tasks| - 1]) then 1 else 0
  }

  /** How many tasks stand at exactly this point. */
  ghost function At(tasks: seq<Task>, x: Task): nat {
    multiset(tasks)[x]
  }

  ghost predicate Balanced(s: State, k: Kind) {
    && Get(s.overall, k) == At(s.tasks, Done(k))
    && Get(s.overall, k) + At(s.tasks, Bumped(k)) == Sum(s.records, k)
  }

  ghost predicate Handles(s: State) {
    && (forall w | w in s.live :: s.live[w] < |s.records|)
    && OneToOne(s.live)
    && (forall t | 0 <= t < |s.tasks| ::
          && (s.tasks[t].Holding? ==> s.tasks[t].record < |s.records|)
          && (s.tasks[t].Judged? ==> s.tasks[t].kind != Block))
  }

  ghost predicate Inv(s: State) {
    && Handles(s)
    && (forall k :: Balanced(s, k))
    && s.overall.accepted + s.overall.stale + s.overall.invalid + Open(s.tasks) == s.admitted
  }

  lemma {:induction false} SumBump(records: seq<Counts>, r: nat, which: Kind, k: Kind)
    requires r < |records|
    ensures Sum(records[r := Bump(records[r], which)], k) == Sum(records, k) + if k == which then 1 else 0
  {
    var n := |records| - 1;
    var after := records[r := Bump(records[r], which)];
    if r == n {
      assert after[..n] == records[..n];
    } else {
      SumBump(records[..n], r, which, k);
      assert after[..n] == records[..n][r := Bump(records[r], which)];
    }
  }

  lemma {:induction false} OpenUpdate(tasks: seq<Task>, t: nat, x: Task)
    requires t < |tasks|
    ensures Open(tasks[t := x]) == Open(tasks) - (if Unfinished(tasks[t]) then 1 else 0) + (if Unfinished(x) then 1 else 0)
  {
    hide Unfinished;
    var n := |tasks| - 1;
    if t == n {
      assert tasks[t := x][..n] == tasks[..n];
    } else {
      OpenUpdate(tasks[..n], t, x);
      assert tasks[t := x][..n] == tasks[..n][t := x];
    }
  }

  lemma AtUpdate(tasks: seq<Task>, t: nat, x: Task, y: Task)
    requires t < |tasks|
    ensures At(tasks[t := x], y) == At(tasks, y) - (if tasks[t] == y then 1 else 0) + (if x == y then 1 else 0)
  {
    assert multiset(tasks[t := x]) == multiset(tasks) - multiset{tasks[t]} + multiset{x} by {
      assert tasks == tasks[..t] + [tasks[t]] + tasks[t + 1..];
      assert tasks[t := x] == tasks[..t] + [x] + tasks[t + 1..];
    }
  }

  lemma AtAppend(tasks: seq<Task>, x: Task, y: Task)
    ensures At(tasks + [x], y) == At(tasks, y) + (if x == y then 1 else 0)
    ensures Open(tasks + [x]) == Open(tasks) + (if Unfinished(x) then 1 else 0)
  {
    hide Unfinished;
    assert (tasks + [x])[..|tasks|] == tasks;
  }

  lemma SumFresh(records: seq<Counts>, k: Kind)
    ensures Sum(records + [ZERO], k) == Sum(records, k)
  {
    assert (records + [ZERO])[..|records|] == records;
  }

  /** Any step that only moves task `t` to `x`, neither of them at a counted point. */
  lemma Advance(s: State, t: nat, x: Task)
    requires Inv(s) && t < |s.tasks|
    requires !s.tasks[t].Done? && !s.tasks[t].Bumped? && !x.Done? && !x.Bumped?
    requires Unfinished(s.tasks[t]) == Unfinished(x)
    requires x.Holding? ==> x.record < |s.records|
    requires x.Judged? ==> x.kind != Block
    ensures Inv(s.(tasks := s.tasks[t := x]))
  {
    hide At, Sum, Open;
    var after := s.(tasks := s.tasks[t := x]);
    OpenUpdate(s.tasks, t, x);
    forall k
      ensures Balanced(after, k)
    {
      assert Balanced(s, k);
      AtUpdate(s.tasks, t, x, Done(k));
      AtUpdate(s.tasks, t, x, Bumped(k));
    }
  }

  lemma CreatedKeepsInv(s: State, worker: Worker)
    requires Inv(s)
    ensures Inv(Created(s, worker))
    ensures Created(s, worker).tasks == s.tasks && Created(s, worker).live[worker] < |Created(s, worker).records|
  {
    hide At, Sum, Open;
    var after := Created(s, worker);
    if worker !in s.live {
      forall k
        ensures Balanced(after, k)
      {
        assert Balanced(s, k);
        SumFresh(s.records, k);
      }
    }
  }

  lemma AppendKeepsInv(s: State, x: Task)
    requires Inv(s) && (x.Evaluating? || (x.Holding? && x.kind == Block && x.record < |s.records|))
    ensures Inv(s.(tasks := s.tasks + [x], admitted := s.admitted + if x.Evaluating? then 1 else 0))
  {
    hide At, Sum, Open;
    var after := s.(tasks := s.tasks + [x], admitted := s.admitted + if x.Evaluating? then 1 else 0);
    AtAppend(s.tasks, x, Closed);
    forall k
      ensures Balanced(after, k)
    {
      assert Balanced(s, k);
      AtAppend(s.tasks, x, Done(k));
      AtAppend(s.tasks, x, Bumped(k));
    }
  }

  lemma BumpWorkerKeepsInv(s: State, t: nat)
    requires Inv(s) && Enabled(s, BumpWorker(t))
    ensures Inv(Next(s, BumpWorker(t)))
  {
    hide At, Sum, Open;
    var after, which, r := Next(s, BumpWorker(t)), s.tasks[t].kind, s.tasks[t].record;
    OpenUpdate(s.tasks, t, Bumped(which));
    forall k
      ensures Balanced(after, k)
    {
      assert Balanced(s, k);
      AtUpdate(s.tasks, t, Bumped(which), Done(k));
      AtUpdate(s.tasks, t, Bumped(which), Bumped(k));
      SumBump(s.records, r, which, k);
    }
  }

  lemma BumpOverallKeepsInv(s: State, t: nat)
    requires Inv(s) && Enabled(s, BumpOverall(t))
    ensures Inv(Next(s, BumpOverall(t)))
  {
    hide At, Sum, Open;
    var after, which := Next(s, BumpOverall(t)), s.tasks[t].kind;
    OpenUpdate(s.tasks, t, Done(which));
    forall k
      ensures Balanced(after, k)
    {
      assert Balanced(s, k);
      AtUpdate(s.tasks, t, Done(which), Done(k));
      AtUpdate(s.tasks, t, Done(which), Bumped(k));
    }
  }

  lemma PruneKeepsInv(s: State, gone: set<Worker>)
    requires Inv(s)
    ensures Inv(Next(s, Prune(gone)))
  {
    hide At, Sum, Open;
    var after := Next(s, Prune(gone));
    forall k
      ensures Balanced(after, k)
    {
      assert Balanced(s, k);
    }
  }

  lemma NextKeepsInv(s: State, e: Event)
    requires Inv(s) && Enabled(s, e)
    ensures Inv(Next(s, e))
  {
    hide Inv, Handles, Balanced;
    match e
    case Admit(worker) => AppendKeepsInv(s, Evaluating(worker));
    case Judge(t, verdict) => Advance(s, t, Judged(s.tasks[t].worker, CounterOf(verdict)));
    case Touch(worker) => CreatedKeepsInv(s, worker);
    case Confirm(worker) =>
      CreatedKeepsInv(s, worker);
      var c := Created(s, worker);
      AppendKeepsInv(c, Holding(Block, c.live[worker]));
    case Look(t) =>
      var worker, kind := s.tasks[t].worker, s.tasks[t].kind;
      CreatedKeepsInv(s, worker);
      JudgedKind(s, t);
      var c := Created(s, worker);
      Advance(c, t, Holding(kind, c.live[worker]));
    case BumpWorker(t) => BumpWorkerKeepsInv(s, t);
    case BumpOverall(t) => BumpOverallKeepsInv(s, t);
    case Close(t) => Advance(s, t, Closed);
    case Prune(gone) => PruneKeepsInv(s, gone);
  }

  lemma JudgedKind(s: State, t: nat)
    requires Inv(s) && t < |s.tasks| && s.tasks[t].Judged?
    ensures s.tasks[t].kind != Block
  {
  }

  lemma StartInv()
    ensures Inv(START)
  {
  }

  lemma {:induction false} RunKeepsInv(run: seq<Event>)
    ensures Inv(After(run))
  {
    hide Inv, Next, Enabled;
    if run == [] {
      StartInv();
    } else {
      var s, e := After(run[..|run| - 1]), run[|run| - 1];
      RunKeepsInv(run[..|run| - 1]);
      if Enabled(s, e) {
        NextKeepsInv(s, e);
      }
    }
  }

  // ---- Totals over live and pruned records ----

  predicate OneToOne(live: map<Worker, nat>) {
    forall w, v | w in live && v in live && w != v :: live[w] != live[v]
  }

  ghost function Reader(records: seq<Counts>, k: Kind): nat -> nat {
    (r: nat) => if r < |records| then Get(records[r], k) else 0
  }

  /** A counter added up over the live workers. */
  ghost function LiveTotal(s: State, k: Kind): nat {
    TotalSize(s.live, Reader(s.records, k))
  }

  /** The same counter over the records no worker has any more. */
  ghost function PrunedTotal(records: seq<Counts>, live: map<Worker, nat>, k: Kind): nat {
    if records == [] then 0
    else
      var n := |records| - 1;
      PrunedTotal(records[..n], live, k) + if n in live.Values then 0 else Get(records[n], k)
  }

  lemma OwnerLeaves(live: map<Worker, nat>, w: Worker, r: nat)
    requires OneToOne(live) && w in live
    ensures r in Without(live, w).Values <==> r in live.Values && r != live[w]
  {
    if r in live.Values && r != live[w] {
      var v :| v in live && live[v] == r;
      assert v in Without(live, w) && Without(live, w)[v] == r;
    }
    if r in Without(live, w).Values {
      var v :| v in Without(live, w) && Without(live, w)[v] == r;
      assert v in live && live[v] == r && v != w;
    }
  }

  lemma {:induction false} PrunedMore(records: seq<Counts>, live: map<Worker, nat>, w: Worker, k: Kind)
    requires OneToOne(live) && w in live
    ensures PrunedTotal(records, Without(live, w), k) == PrunedTotal(records, live, k) + Reader(records, k)(live[w])
  {
    if records != [] {
      var n := |records| - 1;
      PrunedMore(records[..n], live, w, k);
      OwnerLeaves(live, w, n);
      assert n == live[w] ==> n in live.Values;
      assert live[w] < n ==> records[..n][live[w]] == records[live[w]];
    }
  }

  lemma {:induction false} NobodyLive(records: seq<Counts>, k: Kind)
    ensures PrunedTotal(records, map[], k) == Sum(records, k)
  {
    if records != [] {
      NobodyLive(records[..|records| - 1], k);
    }
  }

  lemma {:induction false} LivePlusPruned(records: seq<Counts>, live: map<Worker, nat>, k: Kind)
    requires OneToOne(live)
    ensures TotalSize(live, Reader(records, k)) + PrunedTotal(records, live, k) == Sum(records, k)
    decreases |live|
  {
    hide Reader, Sum, PrunedTotal;
    if live == map[] {
      NobodyLive(records, k);
    } else {
      var w := Pick(live);
      var rest := Without(live, w);
      WithoutSize(live, w);
      LivePlusPruned(records, rest, k);
      PrunedMore(records, live, w, k);
      TotalSizeDrop(live, Reader(records, k), w);
    }
  }

  /**
   * In every interleaving of submissions, confirmations, pruning and re-creation: the overall totals count exactly the
   * finished evaluations, and a total differs from the sum over live and pruned records only by the updates that
   * have reached a record and not yet the totals.
   */
  lemma TotalsAgree(run: seq<Event>, k: Kind)
    ensures var s := After(run);
            && s.overall.accepted + s.overall.stale + s.overall.invalid == s.admitted - Open(s.tasks)
            && Get(s.overall, k) == At(s.tasks, Done(k))
            && Get(s.overall, k) + At(s.tasks, Bumped(k)) == LiveTotal(s, k) + PrunedTotal(s.records, s.live, k)
  {
    hide At, Sum, Open, After, TotalSize, PrunedTotal, Reader;
    var s := After(run);
    RunKeepsInv(run);
    assert Balanced(s, k);
    LivePlusPruned(s.records, s.live, k);
  }

  lemma {:induction false} NothingOpen(tasks: seq<Task>, k: Kind)
    requires forall t | 0 <= t < |tasks| :: tasks[t].Done? || tasks[t].Closed?
    ensures Open(tasks) == 0 && At(tasks, Bumped(k)) == 0
  {
    if tasks != [] {
      var n := |tasks| - 1;
      NothingOpen(tasks[..n], k);
      assert tasks == tasks[..n] + [tasks[n]];
      AtAppend(tasks[..n], tasks[n], Bumped(k));
    }
  }

  /** Once every task has ended, the books balance exactly. */
  lemma QuiescentTotals(run: seq<Event>, k: Kind)
    ensures var s := After(run);
            (forall t | 0 <= t < |s.tasks| :: s.tasks[t].Done? || s.tasks[t].Closed?) ==>
              && s.overall.accepted + s.overall.stale + s.overall.invalid == s.admitted
              && Get(s.overall, k) == LiveTotal(s, k) + PrunedTotal(s.records, s.live, k)
  {
    hide At, Sum, Open, After, LiveTotal, PrunedTotal;
    var s := After(run);
    TotalsAgree(run, k);
    if forall t | 0 <= t < |s.tasks| :: s.tasks[t].Done? || s.tasks[t].Closed? {
      NothingOpen(s.tasks, k);
    }
  }

  /** The handler's table of records, its totals, and the steps that update them. */
  class ShareStats {
    var live: map<Worker, nat>
    var records: seq<Counts>
    var overall: Counts
    ghost var tasks: seq<Task>
    ghost var admitted: nat

    ghost function View(): State
      reads this
    {
      State(live, records, overall, tasks, admitted)
    }

    constructor ()
      ensures View() == START
    {
      live, records, overall, tasks, admitted := map[], [], ZERO, [], 0;
    }

    method GetCreateStats(worker: Worker) returns (record: nat)
      modifies this
      ensures View() == Created(old(View()), worker) && worker in live && record == live[worker]
      ensures if worker in old(live) then live == old(live) && records == old(records)
              else live == old(live)[worker := |old(records)|] && records == old(records) + [Counts(0, 0, 0, 0)]
    {
      if worker !in live {
        live := live[worker := |records|];
        records := records + [ZERO];
      }
      record := live[worker];
    }

    /** The first half of a counter update, through the handle a task holds. */
    method BumpRecord(record: nat, kind: Kind, ghost t: nat)
      requires Enabled(View(), BumpWorker(t)) && tasks[t] == Holding(kind, record)
      modifies this
      ensures View() == Next(old(View()), BumpWorker(t))
    {
      records := records[record := Bump(records[record], kind)];
      tasks := tasks[t := Bumped(kind)];
    }

    /** The second half. */
    method BumpTotals(kind: Kind, ghost t: nat)
      requires Enabled(View(), BumpOverall(t)) && tasks[t] == Bumped(kind)
      modifies this
      ensures View() == Next(old(View()), BumpOverall(t))
    {
      overall := Bump(overall, kind);
      tasks := tasks[t := Done(kind)];
    }

    /** Drops the workers chosen by the retention test; their records stay with whoever holds them. */
    method PruneStats(gone: set<Worker>)
      modifies this
      ensures View() == Next(old(View()), Prune(gone))
      ensures forall w :: w in live <==> w in old(live) && w !in gone
      ensures forall w :: w in live ==> live[w] == old(live)[w]
      ensures records == old(records) && overall == old(overall)
    {
      live := map w | w in live && w !in gone :: live[w];
    }
  }
}
