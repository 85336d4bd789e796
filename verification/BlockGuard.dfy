/**
 * `BlockSubmitGuard` of kaspaapi.rs and the mark / RPC / release protocol of `submit_block`.
 * The guard is global, so the tasks of every connection and the CPU miner meet in it. `Remove`
 * leaves its key in the queue, hence `order` may list a hash twice or list a hash without a mark.
 */
module BlockGuard {
  import opened Util
  import opened FifoGuard

  type Marks = Table<()>

  function WithMark(t: Marks, hash: Key, now: nat): Marks {
    Table(t.entries[hash := Entry(now, ())], t.order + [hash])
  }

  function WithoutMark(t: Marks, hash: Key): Marks {
    t.(entries := Without(t.entries, hash))
  }

  class BlockSubmitGuard {
    const limits: Limits
    var entries: map<Key, Entry<()>>
    var order: seq<Key>

    ghost function Contents(): Marks
      reads this
    {
      Table(entries, order)
    }

    constructor (ttl: nat, maxEntries: nat)
      ensures Contents() == Table(map[], []) && limits == Limits(ttl, maxEntries)
    {
      limits, entries, order := Limits(ttl, maxEntries), map[], [];
    }

    method TryMark(hash: Key, now: nat) returns (marked: bool)
      modifies this
      ensures var p := Pruned(old(Contents()), now, limits);
              && marked == (hash !in p.entries)
              && Contents() == if marked then WithMark(p, hash, now) else p
    {
      var t := Prune(Table(entries, order), now, limits);
      entries, order := t.entries, t.order;
      if hash in entries {
        return false;
      }
      entries := entries[hash := Entry(now, ())];
      order := order + [hash];
      return true;
    }

    method Remove(hash: Key, now: nat)
      modifies this
      ensures Contents() == WithoutMark(Pruned(old(Contents()), now, limits), hash)
    {
      var t := Prune(Table(entries, order), now, limits);
      entries, order := Without(t.entries, hash), t.order;
    }
  }

  /** How an attempt ends: accepted, not accepted by the report, or failed with an error of the RPC. */
  datatype Reply = Success | Rejected | Failed(error: string)

  /** The context `submit_block` wraps around an error of the RPC. */
  const CONTEXT: string := "Failed to submit block"

  /** The text of a wrapped error is its outermost context; the error inside is not part of it. */
  function Printed(error: string): string {
    CONTEXT
  }

  predicate Contains(s: string, t: string) {
    t <= s || (s != "" && Contains(s[1..], t))
  }

  /** The test that is meant to spare blocks the node already knows. */
  predicate LooksDuplicate(error: string) {
    Contains(Printed(error), "ErrDuplicateBlock") || Contains(Printed(error), "duplicate")
  }

  /** The reply takes the mark away. */
  predicate Releases(reply: Reply) {
    match reply
    case Success => false
    case Rejected => true
    case Failed(error) => !LooksDuplicate(error)
  }

  /** The test never fires, so the mark outlives no reply but a success, whatever the node says. */
  lemma OnlySuccessKeeps(reply: Reply)
    ensures Releases(reply) <==> !reply.Success?
  {
    hide Contains;
    NoError("ErrDuplicateBlock");
    NoDuplicate("duplicate");
  }

  lemma NoError(t: string)
    requires |t| >= 2 && t[0] == 'E'
    ensures !Contains(CONTEXT, t)
  {
    hide Contains;
    NoStart(CONTEXT, t);
  }

  lemma NoDuplicate(t: string)
    requires |t| >= 2 && t[0] == 'd' && t[1] == 'u'
    ensures !Contains(CONTEXT, t)
  {
    hide Contains;
    NoStart(CONTEXT, t);
  }

  /** A text in which the first two letters of `t` never follow each other does not contain `t`. */
  lemma {:induction false} NoStart(s: string, t: string)
    requires |t| >= 2 && forall i :: 0 <= i < |s| - 1 && s[i] == t[0] ==> s[i + 1] != t[1]
    ensures !Contains(s, t)
  {
    assert |s| >= 2 ==> s[0] != t[0] || s[1] != t[1];
    if s != "" {
      NoStart(s[1..], t);
    }
  }

  /** A task between its mark and the handling of its reply. */
  datatype Attempt = Attempt(hash: Key, marked: nat)

  /** `settled` remembers, for each hash the node took, when its mark was set. */
  datatype System = System(clock: nat, marks: Marks, inflight: map<nat, Attempt>, settled: map<Key, nat>)

  datatype Action =
    | Begin(id: nat, hash: Key, now: nat)
    | End(id: nat, now: nat, reply: Reply)

  const INITIAL: System := System(0, Table(map[], []), map[], map[])

  /** One critical section of one task. Task ids are fresh when they begin; anything else is no step. */
  function Next(limits: Limits, s: System, a: Action): System {
    var p := Pruned(s.marks, a.now, limits);
    match a
    case Begin(id, hash, now) =>
      if id in s.inflight then s
      else if hash in p.entries then s.(clock := now, marks := p)
      else s.(clock := now, marks := WithMark(p, hash, now), inflight := s.inflight[id := Attempt(hash, now)])
    case End(id, now, reply) =>
      if id !in s.inflight then s
      else
        var attempt := s.inflight[id];
        var rest := map i | i in s.inflight && i != id :: s.inflight[i];
        if Releases(reply) then s.(clock := now, marks := WithoutMark(p, attempt.hash), inflight := rest)
        else s.(clock := now, inflight := rest, settled := s.settled[attempt.hash := attempt.marked])
  }

  function After(limits: Limits, run: seq<Action>, n: nat): System
    requires n <= |run|
  {
    if n == 0 then INITIAL else Next(limits, After(limits, run, n - 1), run[n - 1])
  }

  /** Time does not run backwards, and no RPC has been out for longer than the TTL. */
  ghost predicate Timely(limits: Limits, s: System, a: Action) {
    s.clock <= a.now && forall i :: i in s.inflight ==> a.now - s.inflight[i].marked <= limits.ttl
  }

  ghost predicate TimelyRun(limits: Limits, run: seq<Action>, n: nat)
    requires n <= |run|
  {
    forall m :: 0 <= m < n ==> Timely(limits, After(limits, run, m), run[m])
  }

  /** The step calls `prune`. */
  predicate Prunes(s: System, a: Action) {
    match a
    case Begin(id, _, _) => id !in s.inflight
    case End(id, _, reply) => id in s.inflight && Releases(reply)
  }

  /** The mark of `h` must not be lost in this step: it belongs to a task that goes on, or to a settled hash. */
  ghost predicate Needed(limits: Limits, s: System, a: Action, h: Key) {
    || (exists i :: i in s.inflight && s.inflight[i].hash == h && !(a.End? && a.id == i))
    || (h in s.settled && a.now - s.settled[h] <= limits.ttl)
  }

  /** When the queue slot `p` of a needed hash comes up, more marks are left than the table may hold. Expired marks
      that a fresh front key shields count as well. */
  ghost predicate CrowdedAt(limits: Limits, s: System, a: Action, p: nat)
    requires p < |s.marks.order|
  {
    Needed(limits, s, a, s.marks.order[p]) && |Popped(s.marks, p).entries| > limits.maxEntries
  }

  ghost predicate Crowded(limits: Limits, s: System, a: Action) {
    Prunes(s, a) && exists p :: 0 <= p < |s.marks.order| && CrowdedAt(limits, s, a, p)
  }

  ghost predicate UncrowdedRun(limits: Limits, run: seq<Action>, n: nat)
    requires n <= |run|
  {
    forall m :: 0 <= m < n ==> !Crowded(limits, After(limits, run, m), run[m])
  }

  /** No two tasks are in flight for one hash. */
  ghost predicate Exclusive(s: System) {
    forall i, j :: i in s.inflight && j in s.inflight && s.inflight[i].hash == s.inflight[j].hash ==> i == j
  }

  /** Every task in flight still owns the mark it set. */
  ghost predicate Owned(s: System) {
    forall i :: i in s.inflight ==>
      var a := s.inflight[i];
      a.hash in s.marks.entries && s.marks.entries[a.hash].ts == a.marked
  }

  /** The mark of a settled hash stays until it expires, and nobody else is submitting that hash. */
  ghost predicate Kept(limits: Limits, s: System) {
    forall h :: h in s.settled && s.clock - s.settled[h] <= limits.ttl ==>
      && h in s.marks.entries && s.marks.entries[h].ts == s.settled[h]
      && (forall i :: i in s.inflight ==> s.inflight[i].hash != h)
  }

  ghost predicate Inv(limits: Limits, s: System) {
    Exclusive(s) && Owned(s) && Kept(limits, s)
  }

  /** A second attempt passes exactly when the hash has no mark, or one of its queue slots is lost to the prune. */
  lemma BeginPasses(limits: Limits, s: System, id: nat, hash: Key, now: nat)
    requires id !in s.inflight
    ensures id in Next(limits, s, Begin(id, hash, now)).inflight <==>
            || hash !in s.marks.entries
            || exists p :: 0 <= p < |s.marks.order| && s.marks.order[p] == hash && Lost(s.marks, now, limits, p)
  {
    hide Pruned, Lost;
    SurvivalExactly(s.marks, now, limits, hash);
  }

  lemma NeededIsFresh(limits: Limits, s: System, a: Action, h: Key)
    requires Inv(limits, s) && Timely(limits, s, a) && Needed(limits, s, a, h)
    ensures Fresh(s.marks, h, a.now, limits.ttl)
  {
  }

  lemma NeededSurvives(limits: Limits, s: System, a: Action, h: Key)
    requires Inv(limits, s) && Timely(limits, s, a) && Needed(limits, s, a, h) && Prunes(s, a) && !Crowded(limits, s, a)
    ensures var p := Pruned(s.marks, a.now, limits);
            h in p.entries && p.entries[h] == s.marks.entries[h]
  {
    hide Pruned, Popped, Inv, Timely, Needed;
    NeededIsFresh(limits, s, a, h);
    forall p | 0 <= p < |s.marks.order| && s.marks.order[p] == h
      ensures !Lost(s.marks, a.now, limits, p)
    {
      assert !CrowdedAt(limits, s, a, p);
      assert Fresh(s.marks, s.marks.order[p], a.now, limits.ttl);
    }
    SurvivalExactly(s.marks, a.now, limits, h);
    PrunedKeeps(s.marks, a.now, limits);
  }

  lemma UncrowdedKeepsInv(limits: Limits, s: System, a: Action)
    requires Inv(limits, s) && Timely(limits, s, a) && !Crowded(limits, s, a)
    ensures Inv(limits, Next(limits, s, a))
  {
    hide Pruned, Crowded;
    if Prunes(s, a) {
      forall h | Needed(limits, s, a, h)
        ensures var p := Pruned(s.marks, a.now, limits);
                h in p.entries && p.entries[h] == s.marks.entries[h]
      {
        NeededSurvives(limits, s, a, h);
      }
      PrunedKeepsInv(limits, s, a);
    }
  }

  lemma PrunedKeepsInv(limits: Limits, s: System, a: Action)
    requires Inv(limits, s) && Timely(limits, s, a) && Prunes(s, a)
    requires forall h :: Needed(limits, s, a, h) ==>
               var p := Pruned(s.marks, a.now, limits);
               h in p.entries && p.entries[h] == s.marks.entries[h]
    ensures Inv(limits, Next(limits, s, a))
  {
    hide Pruned;
    forall i | i in s.inflight && !(a.End? && a.id == i)
      ensures Needed(limits, s, a, s.inflight[i].hash)
    {
    }
  }

  lemma CrowdedBreaksInv(limits: Limits, s: System, a: Action)
    requires Inv(limits, s) && Crowded(limits, s, a) && s.clock <= a.now
    ensures !Inv(limits, Next(limits, s, a))
  {
    hide Pruned, Popped;
    var p :| 0 <= p < |s.marks.order| && CrowdedAt(limits, s, a, p);
    var h := s.marks.order[p];
    assert Lost(s.marks, a.now, limits, p);
    SurvivalExactly(s.marks, a.now, limits, h);
    var s' := Next(limits, s, a);
    if h in s.settled && a.now - s.settled[h] <= limits.ttl {
      assert s'.clock == a.now && h in s'.settled && s'.settled[h] == s.settled[h];
      if a.Begin? && a.hash == h {
        assert s'.inflight[a.id].hash == h;
      } else {
        assert h !in s'.marks.entries;
      }
    } else {
      var i :| i in s.inflight && s.inflight[i].hash == h && !(a.End? && a.id == i);
      assert i in s'.inflight && s'.inflight[i] == s.inflight[i];
      if a.Begin? && a.hash == h {
        assert a.id in s'.inflight && a.id != i && s'.inflight[a.id].hash == h;
      } else {
        assert h !in s'.marks.entries;
      }
    }
  }

  ghost predicate InvThroughout(limits: Limits, run: seq<Action>, n: nat)
    requires n <= |run|
  {
    forall m :: 0 <= m <= n ==> Inv(limits, After(limits, run, m))
  }

  /**
   * Whole runs, exactly. While every RPC ends within the TTL: no two tasks submit the same hash at the same time, every
   * task in flight owns its mark, and a settled hash keeps its mark until the TTL has passed, if and only if no step
   * is crowded.
   */
  lemma {:induction false} RunExactly(limits: Limits, run: seq<Action>, n: nat)
    requires n <= |run|
    ensures TimelyRun(limits, run, n) ==>
              (InvThroughout(limits, run, n) <==> UncrowdedRun(limits, run, n))
  {
    hide Next, Inv, Timely, Crowded;
    if TimelyRun(limits, run, n) {
      if n == 0 {
        InitialInv(limits);
      } else {
        RunExactly(limits, run, n - 1);
        var s := After(limits, run, n - 1);
        assert Timely(limits, s, run[n - 1]) && TimelyRun(limits, run, n - 1);
        assert UncrowdedRun(limits, run, n) <==> UncrowdedRun(limits, run, n - 1) && !Crowded(limits, s, run[n - 1]);
        assert InvThroughout(limits, run, n) <==> InvThroughout(limits, run, n - 1) && Inv(limits, After(limits, run, n));
        if InvThroughout(limits, run, n - 1) {
          assert Inv(limits, s);
          StepExactly(limits, s, run[n - 1]);
        }
      }
    }
  }

  lemma InitialInv(limits: Limits)
    ensures Inv(limits, INITIAL)
  {
  }

  /** One step of any task keeps the invariant exactly when it is not crowded. */
  lemma StepExactly(limits: Limits, s: System, a: Action)
    requires Inv(limits, s) && Timely(limits, s, a)
    ensures Inv(limits, Next(limits, s, a)) <==> !Crowded(limits, s, a)
  {
    hide Next, Inv, Crowded;
    if Crowded(limits, s, a) {
      CrowdedBreaksInv(limits, s, a);
    } else {
      UncrowdedKeepsInv(limits, s, a);
    }
  }

  /** A table that never holds more marks than its limit, expired ones included, is never crowded. */
  lemma RoomyIsUncrowded(limits: Limits, run: seq<Action>, n: nat)
    requires n <= |run|
    ensures (forall m :: 0 <= m < n ==> |After(limits, run, m).marks.entries| <= limits.maxEntries) ==>
              UncrowdedRun(limits, run, n)
  {
    hide After, Popped, Needed;
    if forall m :: 0 <= m < n ==> |After(limits, run, m).marks.entries| <= limits.maxEntries {
      forall m, p: nat | 0 <= m < n && p < |After(limits, run, m).marks.order|
        ensures !CrowdedAt(limits, After(limits, run, m), run[m], p)
      {
        PoppedShrinks(After(limits, run, m).marks, p);
      }
    }
  }

  lemma RefusedWhileKept(limits: Limits, s: System, a: Action)
    requires Inv(limits, s) && Timely(limits, s, a) && !Crowded(limits, s, a) && a.Begin? && a.hash in s.settled
    requires a.now - s.settled[a.hash] <= limits.ttl
    ensures Next(limits, s, a).inflight == s.inflight
  {
    hide Pruned, Crowded, Inv, Timely;
    if Prunes(s, a) {
      NeededSurvives(limits, s, a, a.hash);
    }
  }

  /** After a success, every further attempt at that hash is refused until the mark set by the settled attempt has
      expired. */
  lemma SettledIsRefused(limits: Limits, run: seq<Action>, n: nat)
    requires n < |run| && run[n].Begin?
    ensures var s := After(limits, run, n);
            TimelyRun(limits, run, n + 1) && UncrowdedRun(limits, run, n + 1) && run[n].hash in s.settled
            && run[n].now - s.settled[run[n].hash] <= limits.ttl
            ==> After(limits, run, n + 1).inflight == s.inflight
  {
    hide Next, Timely, Crowded, Inv;
    var s := After(limits, run, n);
    if TimelyRun(limits, run, n + 1) && UncrowdedRun(limits, run, n + 1) && run[n].hash in s.settled
       && run[n].now - s.settled[run[n].hash] <= limits.ttl {
      assert TimelyRun(limits, run, n) && UncrowdedRun(limits, run, n);
      RunExactly(limits, run, n);
      assert Inv(limits, After(limits, run, n));
      assert Timely(limits, s, run[n]) && !Crowded(limits, s, run[n]);
      RefusedWhileKept(limits, s, run[n]);
    }
  }

  /** A submission that did not succeed can be tried again at once, in any state and at any later time. */
  lemma FailedMayRetry(limits: Limits, s: System, id: nat, now: nat, reply: Reply, id': nat, now': nat)
    requires id in s.inflight && !reply.Success? && (id' !in s.inflight || id' == id)
    ensures var s' := Next(limits, s, End(id, now, reply));
            var hash := s.inflight[id].hash;
            && id !in s'.inflight
            && Next(limits, s', Begin(id', hash, now')).inflight == s'.inflight[id' := Attempt(hash, now')]
  {
    hide Pruned, Releases;
    OnlySuccessKeeps(reply);
    var s' := Next(limits, s, End(id, now, reply));
    PrunedKeeps(s'.marks, now', limits);
  }

  /** In particular a block the node already knows is not remembered: the next attempt at it passes. */
  lemma DuplicateMayRetry(limits: Limits, s: System, id: nat, now: nat, id': nat, now': nat)
    requires id in s.inflight && id' !in s.inflight
    ensures var s' := Next(limits, s, End(id, now, Failed("ErrDuplicateBlock: duplicate block")));
            id' in Next(limits, s', Begin(id', s.inflight[id].hash, now')).inflight
  {
    hide Next;
    FailedMayRetry(limits, s, id, now, Failed("ErrDuplicateBlock: duplicate block"), id', now');
  }

  /** What the next attempt at a hash depends on, exactly, once the attempt in flight has ended: it passes unless the
      reply was a success and the mark is still there and survives the prune. */
  lemma RetryExactly(limits: Limits, s: System, id: nat, now: nat, reply: Reply, id': nat, now': nat)
    requires id in s.inflight && id' !in s.inflight
    ensures var s' := Next(limits, s, End(id, now, reply));
            var hash := s.inflight[id].hash;
            && (hash in s'.marks.entries <==> reply.Success? && hash in s.marks.entries)
            && (id' in Next(limits, s', Begin(id', hash, now')).inflight <==>
                  || !reply.Success?
                  || hash !in s.marks.entries
                  || exists p :: 0 <= p < |s.marks.order| && s.marks.order[p] == hash && Lost(s.marks, now', limits, p))
  {
    hide Pruned, Releases, Lost;
    OnlySuccessKeeps(reply);
    var s' := Next(limits, s, End(id, now, reply));
    BeginPasses(limits, s', id', s.inflight[id].hash, now');
  }

  // ---- Exclusion alone ----

  /** A new task passes the guard for a hash that is in flight. */
  ghost predicate Doubles(limits: Limits, s: System, a: Action) {
    && a.Begin? && a.id !in s.inflight
    && (exists i :: i in s.inflight && s.inflight[i].hash == a.hash)
    && (|| a.hash !in s.marks.entries
        || exists p :: 0 <= p < |s.marks.order| && s.marks.order[p] == a.hash && Lost(s.marks, a.now, limits, p))
  }

  lemma ExclusiveStep(limits: Limits, s: System, a: Action)
    requires Exclusive(s)
    ensures Exclusive(Next(limits, s, a)) <==> !Doubles(limits, s, a)
  {
    hide Pruned, Lost;
    var s' := Next(limits, s, a);
    if a.Begin? && a.id !in s.inflight {
      BeginPasses(limits, s, a.id, a.hash, a.now);
      if a.id in s'.inflight {
        assert s'.inflight == s.inflight[a.id := Attempt(a.hash, a.now)];
        assert Doubles(limits, s, a) <==> exists i :: i in s.inflight && s.inflight[i].hash == a.hash;
        if i :| i in s.inflight && s.inflight[i].hash == a.hash {
          assert s'.inflight[i].hash == s'.inflight[a.id].hash && i != a.id;
        }
      }
    }
  }

  ghost predicate ExclusiveThroughout(limits: Limits, run: seq<Action>, n: nat)
    requires n <= |run|
  {
    forall m :: 0 <= m <= n ==> Exclusive(After(limits, run, m))
  }

  /** In every run, however slow the replies and full the table: no two tasks ever submit one hash at the same time if and
      only if no task begins while its hash is in flight with its mark gone or one of its queue slots lost to the prune. */
  lemma {:induction false} ExclusionExactly(limits: Limits, run: seq<Action>, n: nat)
    requires n <= |run|
    ensures ExclusiveThroughout(limits, run, n) <==> forall m :: 0 <= m < n ==> !Doubles(limits, After(limits, run, m), run[m])
  {
    hide Next, Exclusive, Doubles;
    if n == 0 {
      InitialExclusive();
    } else {
      ExclusionExactly(limits, run, n - 1);
      var s := After(limits, run, n - 1);
      assert ExclusiveThroughout(limits, run, n) <==>
             ExclusiveThroughout(limits, run, n - 1) && Exclusive(After(limits, run, n));
      if ExclusiveThroughout(limits, run, n - 1) {
        assert Exclusive(s);
        ExclusiveStep(limits, s, run[n - 1]);
      }
    }
  }

  lemma InitialExclusive()
    ensures Exclusive(INITIAL)
  {
  }
}
