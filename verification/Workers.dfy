/**
 * Whose shares a record counts (share_handler.rs). The ledger with two columns of names beside it: for whom a task works,
 * and for whom a record was made. A worker that was pruned and came back has several records.
 */
module Workers {
  import opened Util
  import L = Ledger

  datatype State = State(ledger: L.State, workers: seq<L.Worker>, names: seq<L.Worker>)

  const START: State := State(L.START, [], [])

  /** The worker whose record a step looks up, making it if need be. */
  function LooksUp(l: L.State, e: L.Event): Option<L.Worker>
    requires L.Enabled(l, e)
  {
    match e
    case Touch(worker) => Some(worker)
    case Confirm(worker) => Some(worker)
    case Look(t) => Some(l.tasks[t].worker)
    case _ => None
  }

  function Next(s: State, e: L.Event): State
    requires L.Enabled(s.ledger, e)
  {
    var worker := LooksUp(s.ledger, e);
    State(L.Next(s.ledger, e),
          if e.Admit? || e.Confirm? then s.workers + [e.worker] else s.workers,
          if worker.Some? && worker.value !in s.ledger.live then s.names + [worker.value] else s.names)
  }

  function After(run: seq<L.Event>): State {
    if run == [] then START
    else
      var s, e := After(run[..|run| - 1]), run[|run| - 1];
      if L.Enabled(s.ledger, e) then Next(s, e) else s
  }

  /** The columns change nothing. */
  lemma {:induction false} SameLedger(run: seq<L.Event>)
    ensures After(run).ledger == L.After(run)
  {
    hide L.Next, L.Enabled;
    if run != [] {
      SameLedger(run[..|run| - 1]);
    }
  }

  /** A counter added up over all records of one worker. */
  ghost function Recorded(names: seq<L.Worker>, records: seq<L.Counts>, w: L.Worker, k: L.Kind): nat
    requires |names| == |records|
  {
    if records == [] then 0
    else
      var n := |records| - 1;
      Recorded(names[..n], records[..n], w, k) + if names[n] == w then L.Get(records[n], k) else 0
  }

  /** Has bumped the record it held. */
  predicate Bumps(x: L.Task, k: L.Kind) {
    x == L.Bumped(k) || x == L.Done(k)
  }

  /** How many tasks of one worker have done so. */
  ghost function Bumpers(workers: seq<L.Worker>, tasks: seq<L.Task>, w: L.Worker, k: L.Kind): nat
    requires |workers| == |tasks|
  {
    if tasks == [] then 0
    else
      var n := |tasks| - 1;
      Bumpers(workers[..n], tasks[..n], w, k) + if workers[n] == w && Bumps(tasks[n], k) then 1 else 0
  }

  /** Tasks and the table refer to records of the right worker. */
  ghost predicate Matched(s: State) {
    && |s.workers| == |s.ledger.tasks| && |s.names| == |s.ledger.records|
    && (forall w :: w in s.ledger.live ==> s.ledger.live[w] < |s.names| && s.names[s.ledger.live[w]] == w)
    && (forall t: nat :: t < |s.ledger.tasks| ==> MatchedTask(s.names, s.ledger.tasks[t], s.workers[t]))
  }

  ghost predicate MatchedTask(names: seq<L.Worker>, x: L.Task, worker: L.Worker) {
    && (x.Evaluating? || x.Judged? ==> x.worker == worker)
    && (x.Holding? ==> x.record < |names| && names[x.record] == worker)
  }

  ghost predicate Inv(s: State) {
    && Matched(s)
    && forall w, k :: Recorded(s.names, s.ledger.records, w, k) == Bumpers(s.workers, s.ledger.tasks, w, k)
  }

  lemma NextKeepsMatched(s: State, e: L.Event)
    requires Matched(s) && L.Enabled(s.ledger, e)
    ensures Matched(Next(s, e))
  {
    var s' := Next(s, e);
    assert forall x, worker :: MatchedTask(s.names, x, worker) ==> MatchedTask(s'.names, x, worker);
  }

  lemma {:induction false} BumpersUpdate(workers: seq<L.Worker>, tasks: seq<L.Task>, t: nat, x: L.Task, w: L.Worker, k: L.Kind)
    requires |workers| == |tasks| && t < |tasks|
    ensures Bumpers(workers, tasks[t := x], w, k) == Bumpers(workers, tasks, w, k)
              - (if workers[t] == w && Bumps(tasks[t], k) then 1 else 0) + (if workers[t] == w && Bumps(x, k) then 1 else 0)
  {
    hide Bumps;
    var n := |tasks| - 1;
    if t == n {
      assert tasks[t := x][..n] == tasks[..n];
    } else {
      BumpersUpdate(workers[..n], tasks[..n], t, x, w, k);
      assert tasks[t := x][..n] == tasks[..n][t := x];
    }
  }

  lemma BumpersAppend(workers: seq<L.Worker>, tasks: seq<L.Task>, worker: L.Worker, x: L.Task, w: L.Worker, k: L.Kind)
    requires |workers| == |tasks| && !Bumps(x, k)
    ensures Bumpers(workers + [worker], tasks + [x], w, k) == Bumpers(workers, tasks, w, k)
  {
    assert (workers + [worker])[..|tasks|] == workers && (tasks + [x])[..|tasks|] == tasks;
  }

  lemma {:induction false} RecordedBump(names: seq<L.Worker>, records: seq<L.Counts>, r: nat, which: L.Kind, w: L.Worker, k: L.Kind)
    requires |names| == |records| && r < |records|
    ensures Recorded(names, records[r := L.Bump(records[r], which)], w, k)
         == Recorded(names, records, w, k) + if names[r] == w && k == which then 1 else 0
  {
    var n := |records| - 1;
    var after := records[r := L.Bump(records[r], which)];
    if r == n {
      assert after[..n] == records[..n];
    } else {
      RecordedBump(names[..n], records[..n], r, which, w, k);
      assert after[..n] == records[..n][r := L.Bump(records[r], which)];
    }
  }

  lemma RecordedFresh(names: seq<L.Worker>, records: seq<L.Counts>, worker: L.Worker, w: L.Worker, k: L.Kind)
    requires |names| == |records|
    ensures Recorded(names + [worker], records + [L.ZERO], w, k) == Recorded(names, records, w, k)
  {
    assert (names + [worker])[..|names|] == names && (records + [L.ZERO])[..|names|] == records;
  }

  /** What a step does to the tasks of a worker. */
  lemma NextBumpers(s: State, e: L.Event, w: L.Worker, k: L.Kind)
    requires Matched(s) && L.Enabled(s.ledger, e)
    ensures var s' := Next(s, e);
            && |s'.workers| == |s'.ledger.tasks|
            && Bumpers(s'.workers, s'.ledger.tasks, w, k) == Bumpers(s.workers, s.ledger.tasks, w, k)
                 + if e.BumpWorker? && s.workers[e.t] == w && s.ledger.tasks[e.t].kind == k then 1 else 0
  {
    hide Bumpers, L.Bump;
    var s' := Next(s, e);
    match e
    case Admit(worker) => BumpersAppend(s.workers, s.ledger.tasks, worker, L.Evaluating(worker), w, k);
    case Confirm(worker) =>
      BumpersAppend(s.workers, s.ledger.tasks, worker, s'.ledger.tasks[|s.ledger.tasks|], w, k);
      assert s'.ledger.tasks == s.ledger.tasks + [s'.ledger.tasks[|s.ledger.tasks|]];
    case Touch(_) =>
    case Prune(_) =>
    case _ =>
      BumpersUpdate(s.workers, s.ledger.tasks, e.t, s'.ledger.tasks[e.t], w, k);
      assert s'.ledger.tasks == s.ledger.tasks[e.t := s'.ledger.tasks[e.t]];
  }

  /** What it does to the records of a worker. */
  lemma NextRecorded(s: State, e: L.Event, w: L.Worker, k: L.Kind)
    requires Matched(s) && L.Enabled(s.ledger, e)
    ensures var s' := Next(s, e);
            && |s'.names| == |s'.ledger.records|
            && Recorded(s'.names, s'.ledger.records, w, k) == Recorded(s.names, s.ledger.records, w, k)
                 + if e.BumpWorker? && s.workers[e.t] == w && s.ledger.tasks[e.t].kind == k then 1 else 0
  {
    hide Recorded, L.Bump;
    var s' := Next(s, e);
    var worker := LooksUp(s.ledger, e);
    if worker.Some? && worker.value !in s.ledger.live {
      RecordedFresh(s.names, s.ledger.records, worker.value, w, k);
    }
    if e.BumpWorker? {
      assert MatchedTask(s.names, s.ledger.tasks[e.t], s.workers[e.t]);
      RecordedBump(s.names, s.ledger.records, s.ledger.tasks[e.t].record, s.ledger.tasks[e.t].kind, w, k);
    }
  }

  lemma NextKeepsInv(s: State, e: L.Event)
    requires Inv(s) && L.Enabled(s.ledger, e)
    ensures Inv(Next(s, e))
  {
    NextKeepsMatched(s, e);
    hide Matched, Next, Recorded, Bumpers, L.Enabled;
    forall w, k
      ensures var s' := Next(s, e);
              Matched(s') && Recorded(s'.names, s'.ledger.records, w, k) == Bumpers(s'.workers, s'.ledger.tasks, w, k)
    {
      NextBumpers(s, e, w, k);
      NextRecorded(s, e, w, k);
    }
  }

  lemma {:induction false} RunKeepsInv(run: seq<L.Event>)
    ensures Inv(After(run))
  {
    hide Inv, Next, L.Enabled;
    if run == [] {
      StartInv();
    } else {
      var s, e := After(run[..|run| - 1]), run[|run| - 1];
      RunKeepsInv(run[..|run| - 1]);
      if L.Enabled(s.ledger, e) {
        NextKeepsInv(s, e);
      }
    }
  }

  lemma StartInv()
    ensures Inv(START)
  {
  }

  /** In every interleaving, the records of a worker, live or pruned, count exactly the updates made by its own tasks. */
  lemma WorkerBooks(run: seq<L.Event>, w: L.Worker, k: L.Kind)
    ensures var s := After(run);
            && s.ledger == L.After(run) && |s.workers| == |s.ledger.tasks| && |s.names| == |s.ledger.records|
            && Recorded(s.names, s.ledger.records, w, k) == Bumpers(s.workers, s.ledger.tasks, w, k)
  {
    hide After, L.After, Recorded, Bumpers;
    SameLedger(run);
    RunKeepsInv(run);
  }

  /** The retention test never chose this worker. */
  ghost predicate Retained(run: seq<L.Event>, w: L.Worker) {
    forall i :: 0 <= i < |run| && run[i].Prune? ==> w !in run[i].gone
  }

  /** Every record of the worker is the live one. */
  ghost predicate OneRecord(s: State, w: L.Worker) {
    forall r :: 0 <= r < |s.names| && s.names[r] == w ==> w in s.ledger.live && s.ledger.live[w] == r
  }

  lemma NextKeepsOneRecord(s: State, e: L.Event, w: L.Worker)
    requires Matched(s) && L.Enabled(s.ledger, e) && OneRecord(s, w) && (e.Prune? ==> w !in e.gone)
    ensures OneRecord(Next(s, e), w)
  {
  }

  lemma {:induction false} RetainedHasOne(run: seq<L.Event>, w: L.Worker)
    requires Retained(run, w)
    ensures OneRecord(After(run), w)
  {
    hide Next, L.Enabled, Matched, Recorded, Bumpers;
    if run != [] {
      var s, e := After(run[..|run| - 1]), run[|run| - 1];
      RetainedHasOne(run[..|run| - 1], w);
      RunKeepsInv(run[..|run| - 1]);
      if L.Enabled(s.ledger, e) {
        NextKeepsOneRecord(s, e, w);
      }
    }
  }

  lemma {:induction false} OnlyRecord(names: seq<L.Worker>, records: seq<L.Counts>, w: L.Worker, k: L.Kind, r: nat)
    requires |names| == |records| && forall i :: 0 <= i < |names| && names[i] == w ==> i == r
    ensures Recorded(names, records, w, k) == if r < |names| && names[r] == w then L.Get(records[r], k) else 0
  {
    if records != [] {
      var n := |records| - 1;
      OnlyRecord(names[..n], records[..n], w, k, r);
    }
  }

  /** A worker that is never pruned has one record at most, and it counts exactly the updates of its own tasks. */
  lemma RetainedWorker(run: seq<L.Event>, w: L.Worker, k: L.Kind)
    requires Retained(run, w)
    ensures var s := After(run);
            && |s.workers| == |s.ledger.tasks|
            && (w in s.ledger.live ==> s.ledger.live[w] < |s.ledger.records|)
            && (if w in s.ledger.live then L.Get(s.ledger.records[s.ledger.live[w]], k) else 0)
               == Bumpers(s.workers, s.ledger.tasks, w, k)
  {
    hide After, Recorded, Bumpers, MatchedTask;
    var s := After(run);
    RunKeepsInv(run);
    RetainedHasOne(run, w);
    OnlyRecord(s.names, s.ledger.records, w, k, if w in s.ledger.live then s.ledger.live[w] else 0);
  }
}
