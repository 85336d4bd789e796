/** Runs of `submit_block` in which the guard of kaspaapi.rs lets two tasks through, or keeps one out for too long. */
module BlockRaces {
  import opened Util
  import opened FifoGuard
  import opened BlockGuard

  /** A run from any state. */
  function From(limits: Limits, s: System, run: seq<Action>): System {
    if run == [] then s else Next(limits, From(limits, s, run[..|run| - 1]), run[|run| - 1])
  }

  lemma {:induction false} AfterIsFrom(limits: Limits, run: seq<Action>, n: nat)
    requires n <= |run|
    ensures After(limits, run, n) == From(limits, INITIAL, run[..n])
  {
    hide Next;
    if n > 0 {
      AfterIsFrom(limits, run, n - 1);
      assert run[..n][..n - 1] == run[..n - 1];
    }
  }

  lemma {:induction false} FromConcat(limits: Limits, s: System, r: seq<Action>, q: seq<Action>)
    ensures From(limits, s, r + q) == From(limits, From(limits, s, r), q)
    decreases |q|
  {
    hide Next;
    if q == [] {
      assert r + q == r;
    } else {
      var n := |q| - 1;
      FromConcat(limits, s, r, q[..n]);
      assert (r + q)[..|r| + n] == r + q[..n];
    }
  }

  /** The RPC bound is needed: a task whose RPC outlives the TTL can be overtaken by another one. */
  lemma SlowReplyBreaksExclusion(limits: Limits, a: Key)
    requires limits.maxEntries >= 1
    ensures !Exclusive(After(limits, [Begin(0, a, 0), Begin(1, a, limits.ttl + 1)], 2))
  {
    var run := [Begin(0, a, 0), Begin(1, a, limits.ttl + 1)];
    var s1 := System(0, Table(map[a := Entry(0, ())], [a]), map[0 := Attempt(a, 0)], map[]);
    assert After(limits, run, 1) == s1;
    var s := After(limits, run, 2);
    assert Pop(s1.marks).order == [];
    assert 0 in s.inflight && 1 in s.inflight;
  }

  // ---- Filling the table at one moment ----

  function Begins(fs: seq<Key>, now: nat, id: nat): (r: seq<Action>)
    ensures |r| == |fs|
  {
    seq(|fs|, i requires 0 <= i < |fs| => Begin(id + i, fs[i], now))
  }

  /** Marks for new hashes, all set at `now`. */
  function Stamped(t: Marks, fs: seq<Key>, now: nat): Marks {
    if fs == [] then t else WithMark(Stamped(t, fs[..|fs| - 1], now), fs[|fs| - 1], now)
  }

  lemma {:induction false} StampedIs(t: Marks, fs: seq<Key>, now: nat)
    ensures Stamped(t, fs, now).order == t.order + fs
    ensures Stamped(t, fs, now).entries.Keys == t.entries.Keys + Elements(fs)
    ensures forall k :: k in t.entries && k !in fs ==> Stamped(t, fs, now).entries[k] == t.entries[k]
    ensures forall k :: k in fs ==> Stamped(t, fs, now).entries[k] == Entry(now, ())
  {
    if fs != [] {
      var n := |fs| - 1;
      StampedIs(t, fs[..n], now);
      assert fs == fs[..n] + [fs[n]];
      assert t.order + fs == t.order + fs[..n] + [fs[n]];
    }
  }

  /** New, distinct hashes. */
  ghost predicate New(t: Marks, fs: seq<Key>) {
    Distinct(fs) && forall k :: k in fs ==> k !in t.entries
  }

  lemma StampedSize(t: Marks, fs: seq<Key>, now: nat)
    requires New(t, fs)
    ensures |Stamped(t, fs, now).entries| == |t.entries| + |fs|
  {
    StampedIs(t, fs, now);
    DistinctSize(fs);
    assert t.entries.Keys !! Elements(fs);
    assert |t.entries.Keys + Elements(fs)| == |t.entries.Keys| + |Elements(fs)|;
  }

  /** The tasks in flight after `fs` began at `now` under the ids from `id` on. */
  function Started(inflight: map<nat, Attempt>, fs: seq<Key>, now: nat, id: nat): map<nat, Attempt> {
    if fs == [] then inflight else Started(inflight, fs[..|fs| - 1], now, id)[id + |fs| - 1 := Attempt(fs[|fs| - 1], now)]
  }

  lemma {:induction false} StartedIs(inflight: map<nat, Attempt>, fs: seq<Key>, now: nat, id: nat)
    requires forall i :: i in inflight ==> i < id
    ensures forall i :: i in Started(inflight, fs, now, id) ==> i < id + |fs|
    ensures forall i :: i in inflight ==>
                          i in Started(inflight, fs, now, id) && Started(inflight, fs, now, id)[i] == inflight[i]
    ensures forall i :: i in Started(inflight, fs, now, id) && i !in inflight ==>
                          id <= i && Started(inflight, fs, now, id)[i] == Attempt(fs[i - id], now)
  {
    if fs != [] {
      StartedIs(inflight, fs[..|fs| - 1], now, id);
    }
  }

  /** An empty table, or one with a fresh key at the front of its queue. */
  ghost predicate FrontFresh(limits: Limits, t: Marks, now: nat) {
    if t.order == [] then t.entries == map[] else Fresh(t, t.order[0], now, limits.ttl)
  }

  lemma StampedFrontFresh(limits: Limits, t: Marks, fs: seq<Key>, now: nat)
    requires FrontFresh(limits, t, now) && New(t, fs)
    ensures FrontFresh(limits, Stamped(t, fs, now), now)
  {
    hide Stamped;
    StampedIs(t, fs, now);
    if t.order == [] && fs == [] {
      assert t.order + fs == [] && Stamped(t, fs, now).entries.Keys == {};
    } else if t.order == [] {
      assert (t.order + fs)[0] == fs[0];
    } else {
      assert (t.order + fs)[0] == t.order[0];
    }
  }

  lemma FreshBegin(limits: Limits, s: System, hash: Key, id: nat, now: nat)
    requires hash !in s.marks.entries && id !in s.inflight && Pruned(s.marks, now, limits) == s.marks
    ensures Next(limits, s, Begin(id, hash, now))
            == s.(clock := now, marks := WithMark(s.marks, hash, now), inflight := s.inflight[id := Attempt(hash, now)])
  {
  }

  lemma NewPrefix(t: Marks, fs: seq<Key>, n: nat)
    requires New(t, fs) && n < |fs|
    ensures New(t, fs[..n]) && fs[n] !in fs[..n] && fs[n] !in t.entries
  {
  }

  lemma RoomForOne(limits: Limits, s: System, fs: seq<Key>, id: nat)
    requires fs != [] && New(s.marks, fs) && (forall i :: i in s.inflight ==> i < id)
    requires FrontFresh(limits, s.marks, s.clock) && |s.marks.entries| + |fs| <= limits.maxEntries + 1
    ensures var n, now := |fs| - 1, s.clock;
            var t := Stamped(s.marks, fs[..n], now);
            fs[n] !in t.entries && id + n !in Started(s.inflight, fs[..n], now, id) && Pruned(t, now, limits) == t
  {
    hide Stamped, Started, Pruned, FrontFresh, New;
    var n, now := |fs| - 1, s.clock;
    var t := Stamped(s.marks, fs[..n], now);
    NewPrefix(s.marks, fs, n);
    assert fs[n] !in t.entries by { StampedIs(s.marks, fs[..n], now); }
    assert id + n !in Started(s.inflight, fs[..n], now, id) by { StartedIs(s.inflight, fs[..n], now, id); }
    assert Pruned(t, now, limits) == t by {
      StampedSize(s.marks, fs[..n], now);
      StampedFrontFresh(limits, s.marks, fs[..n], now);
      NothingPruned(limits, t, now);
    }
  }

  /** While the front key is fresh and there is room, every new hash is marked and nothing is lost. */
  lemma {:induction false} FillUp(limits: Limits, s: System, fs: seq<Key>, id: nat)
    requires New(s.marks, fs) && (forall i :: i in s.inflight ==> i < id) && FrontFresh(limits, s.marks, s.clock)
    requires |s.marks.entries| + |fs| <= limits.maxEntries + 1
    ensures From(limits, s, Begins(fs, s.clock, id))
            == s.(marks := Stamped(s.marks, fs, s.clock), inflight := Started(s.inflight, fs, s.clock, id))
    decreases |fs|
  {
    hide Next, FrontFresh, Pruned, WithMark, New;
    if fs != [] {
      var n, bs, now := |fs| - 1, Begins(fs, s.clock, id), s.clock;
      NewPrefix(s.marks, fs, n);
      FillUp(limits, s, fs[..n], id);
      assert bs[..n] == Begins(fs[..n], now, id) && bs[n] == Begin(id + n, fs[n], now);
      var t, started := Stamped(s.marks, fs[..n], now), Started(s.inflight, fs[..n], now, id);
      RoomForOne(limits, s, fs, id);
      FreshBegin(limits, s.(marks := t, inflight := started), fs[n], id + n, now);
    }
  }

  lemma NothingPruned(limits: Limits, t: Marks, now: nat)
    requires FrontFresh(limits, t, now) && |t.entries| <= limits.maxEntries
    ensures Pruned(t, now, limits) == t
  {
    if t.order == [] {
      EmptyPruned<()>(now, limits);
    } else {
      FreshFrontShields(t, now, limits);
    }
  }

  /** The capacity matters: when one task more than the table holds begins at once, the oldest mark goes and a second
      task for its hash gets in. */
  lemma OverflowBreaksExclusion(limits: Limits, hashes: seq<Key>)
    requires Distinct(hashes) && |hashes| == limits.maxEntries + 1
    ensures var run := Begins(hashes, 0, 0) + [Begin(|hashes|, hashes[0], 0)];
            !Exclusive(After(limits, run, |run|))
  {
    hide Next, From, After, Exclusive;
    var begins, n := Begins(hashes, 0, 0), |hashes|;
    var run := begins + [Begin(n, hashes[0], 0)];
    assert run[..n] == begins;
    AfterIsFrom(limits, run, n);
    AfterStep(limits, run, n + 1);
    FilledBeyond(limits, hashes);
  }

  lemma FilledBeyond(limits: Limits, hashes: seq<Key>)
    requires Distinct(hashes) && |hashes| == limits.maxEntries + 1
    ensures !Exclusive(Next(limits, From(limits, INITIAL, Begins(hashes, 0, 0)), Begin(|hashes|, hashes[0], 0)))
  {
    hide Next, From, Exclusive, Stamped, Started, Begins;
    var n, s := |hashes|, From(limits, INITIAL, Begins(hashes, 0, 0));
    assert New(INITIAL.marks, hashes);
    FillUp(limits, INITIAL, hashes, 0);
    assert s.marks.order[0] == hashes[0] && |s.marks.entries| == n by {
      StampedIs(INITIAL.marks, hashes, 0);
      StampedSize(INITIAL.marks, hashes, 0);
    }
    hide New, Distinct;
    StartedIs(map[], hashes, 0, 0);
    FirstStarted(map[], hashes, 0, 0);
    LostFront(limits, s, n, hashes[0], 0, 0);
  }

  lemma {:induction false} FirstStarted(inflight: map<nat, Attempt>, fs: seq<Key>, now: nat, id: nat)
    requires fs != []
    ensures id in Started(inflight, fs, now, id) && Started(inflight, fs, now, id)[id] == Attempt(fs[0], now)
  {
    if |fs| > 1 {
      FirstStarted(inflight, fs[..|fs| - 1], now, id);
    }
  }

  /** With too many marks, the hash at the front of the queue can be begun again. */
  lemma LostFront(limits: Limits, s: System, id: nat, hash: Key, now: nat, first: nat)
    requires id !in s.inflight && first in s.inflight && s.inflight[first].hash == hash
    requires s.marks.order != [] && s.marks.order[0] == hash && |s.marks.entries| > limits.maxEntries
    ensures !Exclusive(Next(limits, s, Begin(id, hash, now)))
  {
    hide Pruned;
    assert Popped(s.marks, 0) == s.marks;
    assert Lost(s.marks, now, limits, 0);
    BeginPasses(limits, s, id, hash, now);
    var s' := Next(limits, s, Begin(id, hash, now));
    assert s'.inflight[id].hash == s'.inflight[first].hash && id != first;
  }

  // ---- A stale queue slot ----

  /** A hash that was released and marked again while an older mark kept its first slot in the queue. */
  function Requeued(limits: Limits, x: Key, a: Key, b: Key): seq<Action>
    requires limits.ttl >= 4
  {
    [Begin(0, x, 0), Begin(1, a, 1), End(1, 1, Rejected), Begin(2, b, 2), Begin(3, a, limits.ttl - 1),
     End(0, limits.ttl, Success), End(2, limits.ttl, Success)]
  }

  function Queue(limits: Limits, x: Key, a: Key, b: Key): Marks
    requires limits.ttl >= 4
  {
    Table(map[x := Entry(0, ()), b := Entry(2, ()), a := Entry(limits.ttl - 1, ())], [x, a, b, a])
  }

  ghost predicate Three(limits: Limits, x: Key, a: Key, b: Key) {
    limits.ttl >= 4 && limits.maxEntries >= 3 && x != a && x != b && a != b
  }

  /** The state after the first `n` steps of `Requeued`. */
  function Stage(limits: Limits, x: Key, a: Key, b: Key, n: nat): System
    requires limits.ttl >= 4
  {
    var one, two, again := Attempt(x, 0), Attempt(b, 2), Attempt(a, limits.ttl - 1);
    var q := Queue(limits, x, a, b);
    if n == 0 then INITIAL
    else if n == 1 then System(0, Table(map[x := Entry(0, ())], [x]), map[0 := one], map[])
    else if n == 2 then
      System(1, Table(map[x := Entry(0, ()), a := Entry(1, ())], [x, a]), map[0 := one, 1 := Attempt(a, 1)], map[])
    else if n == 3 then System(1, Table(map[x := Entry(0, ())], [x, a]), map[0 := one], map[])
    else if n == 4 then System(2, Table(map[x := Entry(0, ()), b := Entry(2, ())], [x, a, b]), map[0 := one, 2 := two], map[])
    else if n == 5 then System(limits.ttl - 1, q, map[0 := one, 2 := two, 3 := again], map[])
    else if n == 6 then System(limits.ttl, q, map[2 := two, 3 := again], map[x := 0])
    else System(limits.ttl, q, map[3 := again], map[x := 0, b := 2])
  }

  lemma FirstStages(limits: Limits, x: Key, a: Key, b: Key, n: nat)
    requires Three(limits, x, a, b) && n < 3
    ensures Next(limits, Stage(limits, x, a, b, n), Requeued(limits, x, a, b)[n]) == Stage(limits, x, a, b, n + 1)
  {
    hide Pruned;
    var s := Stage(limits, x, a, b, n);
    if n == 0 {
      EmptyPruned<()>(0, limits);
    } else {
      FreshFrontShields(s.marks, 1, limits);
      assert n == 2 ==> Without(s.marks.entries, a) == Stage(limits, x, a, b, 3).marks.entries;
      assert n == 2 ==> (map i | i in s.inflight && i != 1 :: s.inflight[i]) == Stage(limits, x, a, b, 3).inflight;
    }
  }

  lemma MiddleStages(limits: Limits, x: Key, a: Key, b: Key, n: nat)
    requires Three(limits, x, a, b) && 3 <= n < 5
    ensures Next(limits, Stage(limits, x, a, b, n), Requeued(limits, x, a, b)[n]) == Stage(limits, x, a, b, n + 1)
  {
    hide Next;
    var s, e := Stage(limits, x, a, b, n), Requeued(limits, x, a, b)[n];
    FreshFrontShields(s.marks, e.now, limits);
    FreshBegin(limits, s, e.hash, e.id, e.now);
  }

  lemma LastStages(limits: Limits, x: Key, a: Key, b: Key, n: nat)
    requires Three(limits, x, a, b) && 5 <= n < 7
    ensures Next(limits, Stage(limits, x, a, b, n), Requeued(limits, x, a, b)[n]) == Stage(limits, x, a, b, n + 1)
  {
    hide Next, Queue;
    var s, e := Stage(limits, x, a, b, n), Requeued(limits, x, a, b)[n];
    SuccessStep(limits, s, e.id, e.now, Stage(limits, x, a, b, n + 1).inflight);
  }

  lemma {:induction false} Stages(limits: Limits, x: Key, a: Key, b: Key, run: seq<Action>, n: nat)
    requires Three(limits, x, a, b) && n <= 7 && Requeued(limits, x, a, b) <= run
    ensures After(limits, run, n) == Stage(limits, x, a, b, n)
  {
    if n == 0 {
      assert After(limits, run, 0) == INITIAL;
    } else {
      hide Next, Stage;
      Stages(limits, x, a, b, run, n - 1);
      assert run[n - 1] == Requeued(limits, x, a, b)[n - 1];
      if n <= 3 {
        FirstStages(limits, x, a, b, n - 1);
      } else if n <= 5 {
        MiddleStages(limits, x, a, b, n - 1);
      } else {
        LastStages(limits, x, a, b, n - 1);
      }
    }
  }

  lemma SuccessStep(limits: Limits, s: System, id: nat, now: nat, rest: map<nat, Attempt>)
    requires id in s.inflight && id !in rest && s.inflight == rest[id := s.inflight[id]]
    ensures Next(limits, s, End(id, now, Success))
            == s.(clock := now, inflight := rest, settled := s.settled[s.inflight[id].hash := s.inflight[id].marked])
  {
    hide Pruned;
    assert rest == map i | i in s.inflight && i != id :: s.inflight[i];
  }

  /** The marks left at `ttl + 3`: `b` has expired, the stale slot of `a` shields it. */
  function Shield(limits: Limits, a: Key, b: Key): Marks
    requires limits.ttl >= 4
  {
    Table(map[b := Entry(2, ()), a := Entry(limits.ttl - 1, ())], [a, b, a])
  }

  /** Once the older mark has expired, the stale slot of the requeued hash leads the queue. */
  lemma StaleSlotLeads(limits: Limits, x: Key, a: Key, b: Key)
    requires Three(limits, x, a, b)
    ensures Pruned(Queue(limits, x, a, b), limits.ttl + 3, limits) == Shield(limits, a, b)
  {
    var q, now := Queue(limits, x, a, b), limits.ttl + 3;
    var r := Shield(limits, a, b);
    assert Pop(q) == r;
    assert ExpiredSlots(r, now, limits.ttl) == 0 && ExpiredSlots(q, now, limits.ttl) == 1;
    assert Popped(q, 1) == r && |r.entries| == 2;
  }

  /**
   * A mark may block for longer than the TTL. A released hash keeps its old queue slot; once it is marked again that
   * slot shields the expired marks queued behind it. Here `b`, marked at time 2, is still refused at `ttl + 3`.
   */
  lemma ExpiredMarkMayStillBlock(limits: Limits, x: Key, a: Key, b: Key)
    requires Three(limits, x, a, b)
    ensures b in Pruned(After(limits, Requeued(limits, x, a, b), 7).marks, limits.ttl + 3, limits).entries
  {
    hide Pruned;
    Stages(limits, x, a, b, Requeued(limits, x, a, b), 7);
    StaleSlotLeads(limits, x, a, b);
  }

  // ---- Unexpired marks that fit do not suffice ----

  ghost function Unexpired(t: Marks, now: nat, ttl: nat): set<Key> {
    set k | k in t.entries && Fresh(t, k, now, ttl)
  }

  ghost predicate UnexpiredFit(limits: Limits, t: Marks, now: nat) {
    |Unexpired(t, now, limits.ttl)| <= limits.maxEntries
  }

  lemma UnexpiredWithin(limits: Limits, t: Marks, now: nat, ks: seq<Key>)
    requires forall k :: k in t.entries && Fresh(t, k, now, limits.ttl) ==> k in ks
    requires |ks| <= limits.maxEntries
    ensures UnexpiredFit(limits, t, now)
  {
    SubsetSize(Unexpired(t, now, limits.ttl), Elements(ks));
    ElementsSize(ks);
  }

  lemma {:induction false} ElementsSize(ks: seq<Key>)
    ensures |Elements(ks)| <= |ks|
  {
    if ks != [] {
      var n := |ks| - 1;
      ElementsSize(ks[..n]);
      assert Elements(ks) == Elements(ks[..n]) + {ks[n]};
    }
  }

  /** Enough further hashes to fill the table next to one fresh mark. */
  ghost predicate Fillers(limits: Limits, x: Key, a: Key, b: Key, fs: seq<Key>) {
    Three(limits, x, a, b) && Distinct(fs) && |fs| == limits.maxEntries - 1 && x !in fs && a !in fs && b !in fs
  }

  function Shielded(limits: Limits, x: Key, a: Key, b: Key, fs: seq<Key>): seq<Action>
    requires limits.ttl >= 4
  {
    Requeued(limits, x, a, b) + Begins(fs, limits.ttl + 3, 4) + [Begin(4 + |fs|, a, limits.ttl + 3)]
  }

  function ShieldedAt(limits: Limits, x: Key, a: Key, b: Key, fs: seq<Key>): System
    requires limits.ttl >= 4
  {
    var now := limits.ttl + 3;
    System(now, Stamped(Shield(limits, a, b), fs, now),
           Started(map[3 := Attempt(a, limits.ttl - 1)], fs, now, 4), map[x := 0, b := 2])
  }

  lemma ShieldFront(limits: Limits, x: Key, a: Key, b: Key, fs: seq<Key>)
    requires Three(limits, x, a, b) && Distinct(fs) && a !in fs && b !in fs
    ensures FrontFresh(limits, Shield(limits, a, b), limits.ttl + 3) && New(Shield(limits, a, b), fs)
    ensures |Shield(limits, a, b).entries| == 2
  {
  }

  lemma PrunedFirst(limits: Limits, s: System, t: System, id: nat, hash: Key, now: nat)
    requires t == s.(clock := now, marks := Pruned(s.marks, now, limits)) && Pruned(t.marks, now, limits) == t.marks
    requires id !in s.inflight
    ensures Next(limits, s, Begin(id, hash, now)) == Next(limits, t, Begin(id, hash, now))
  {
    hide Pruned;
  }

  /** The first filler prunes the queue down to the shield. */
  lemma FirstFiller(limits: Limits, x: Key, a: Key, b: Key, f: Key)
    requires Three(limits, x, a, b)
    ensures var e := Begin(4, f, limits.ttl + 3);
            Next(limits, Stage(limits, x, a, b, 7), e) == Next(limits, ShieldedAt(limits, x, a, b, []), e)
  {
    hide Pruned, Next, Shield, Queue;
    StaleSlotLeads(limits, x, a, b);
    ShieldFront(limits, x, a, b, []);
    NothingPruned(limits, Shield(limits, a, b), limits.ttl + 3);
    PrunedFirst(limits, Stage(limits, x, a, b, 7), ShieldedAt(limits, x, a, b, []), 4, f, limits.ttl + 3);
  }

  lemma SameFirstStep(limits: Limits, s: System, t: System, run: seq<Action>)
    requires run != [] && Next(limits, s, run[0]) == Next(limits, t, run[0])
    ensures From(limits, s, run) == From(limits, t, run)
  {
    hide Next;
    assert run == [run[0]] + run[1..];
    FromConcat(limits, s, [run[0]], run[1..]);
    FromConcat(limits, t, [run[0]], run[1..]);
    FromOne(limits, s, run[0]);
    FromOne(limits, t, run[0]);
  }

  lemma AfterContinues(limits: Limits, run: seq<Action>, m: nat, n: nat)
    requires m <= n <= |run|
    ensures After(limits, run, n) == From(limits, After(limits, run, m), run[m..n])
  {
    hide Next, After, From;
    AfterIsFrom(limits, run, m);
    AfterIsFrom(limits, run, n);
    assert run[..n] == run[..m] + run[m..n];
    FromConcat(limits, INITIAL, run[..m], run[m..n]);
  }

  lemma ShieldedStates(limits: Limits, x: Key, a: Key, b: Key, fs: seq<Key>, j: nat)
    requires Fillers(limits, x, a, b, fs) && 1 <= j <= |fs|
    ensures After(limits, Shielded(limits, x, a, b, fs), 7 + j) == ShieldedAt(limits, x, a, b, fs[..j])
  {
    hide Next, Stage, Pruned, After, From, Shield, New, FrontFresh;
    var run, now := Shielded(limits, x, a, b, fs), limits.ttl + 3;
    var bs, s := Begins(fs[..j], now, 4), ShieldedAt(limits, x, a, b, []);
    Stages(limits, x, a, b, run, 7);
    AfterContinues(limits, run, 7, 7 + j);
    assert run[7..7 + j] == bs && bs[0] == Begin(4, fs[0], now);
    FirstFiller(limits, x, a, b, fs[0]);
    SameFirstStep(limits, Stage(limits, x, a, b, 7), s, bs);
    ShieldFront(limits, x, a, b, fs[..j]);
    FillUp(limits, s, fs[..j], 4);
  }

  lemma FromOne(limits: Limits, s: System, e: Action)
    ensures From(limits, s, [e]) == Next(limits, s, e)
  {
    hide Next;
    assert [e][..0] == [];
  }

  lemma ShieldedFits(limits: Limits, x: Key, a: Key, b: Key, fs: seq<Key>, j: nat, t: Marks)
    requires Fillers(limits, x, a, b, fs) && j <= |fs|
    requires var full := Stamped(Shield(limits, a, b), fs[..j], limits.ttl + 3);
             forall k :: k in t.entries ==> k == a || (k in full.entries && t.entries[k] == full.entries[k])
    ensures UnexpiredFit(limits, t, limits.ttl + 3)
  {
    StampedIs(Shield(limits, a, b), fs[..j], limits.ttl + 3);
    UnexpiredWithin(limits, t, limits.ttl + 3, [a] + fs[..j]);
  }

  lemma StageTimely(limits: Limits, x: Key, a: Key, b: Key, fs: seq<Key>, m: nat)
    requires Fillers(limits, x, a, b, fs) && m <= 7
    ensures var s, e := Stage(limits, x, a, b, m), Shielded(limits, x, a, b, fs)[m];
            Timely(limits, s, e) && UnexpiredFit(limits, s.marks, e.now)
  {
    var s, e := Stage(limits, x, a, b, m), Shielded(limits, x, a, b, fs)[m];
    assert m == 7 ==> e.now == limits.ttl + 3;
    UnexpiredWithin(limits, s.marks, e.now, [x, a, b]);
  }

  lemma FillerTimely(limits: Limits, x: Key, a: Key, b: Key, fs: seq<Key>, j: nat)
    requires Fillers(limits, x, a, b, fs) && 1 <= j <= |fs|
    ensures var s, e := ShieldedAt(limits, x, a, b, fs[..j]), Shielded(limits, x, a, b, fs)[7 + j];
            Timely(limits, s, e) && UnexpiredFit(limits, s.marks, e.now)
  {
    var s, e := ShieldedAt(limits, x, a, b, fs[..j]), Shielded(limits, x, a, b, fs)[7 + j];
    assert e.now == limits.ttl + 3;
    StartedIs(map[3 := Attempt(a, limits.ttl - 1)], fs[..j], limits.ttl + 3, 4);
    ShieldedFits(limits, x, a, b, fs, j, s.marks);
  }

  /**
   * Unexpired marks that fit the table are not enough. Here every RPC is within the TTL and before and after every step
   * at most `maxEntries` marks are unexpired, yet two tasks submit `a` at the same time: the expired mark of `b`, shielded
   * by the stale slot of `a`, makes the table one too large, and the capacity loop pops that slot.
   */
  lemma ShieldedMarkBreaksExclusion(limits: Limits, x: Key, a: Key, b: Key, fs: seq<Key>)
    requires Fillers(limits, x, a, b, fs)
    ensures var run := Shielded(limits, x, a, b, fs);
            && TimelyRun(limits, run, |run|)
            && (forall m :: 0 <= m < |run| ==> UnexpiredFit(limits, After(limits, run, m).marks, run[m].now))
            && UnexpiredFit(limits, After(limits, run, |run|).marks, run[|run| - 1].now)
            && !Exclusive(After(limits, run, |run|))
  {
    hide Timely, UnexpiredFit, Next, Stage, ShieldedAt, After;
    var run := Shielded(limits, x, a, b, fs);
    forall m | 0 <= m < |run|
      ensures Timely(limits, After(limits, run, m), run[m]) && UnexpiredFit(limits, After(limits, run, m).marks, run[m].now)
    {
      if m <= 7 {
        Stages(limits, x, a, b, run, m);
        StageTimely(limits, x, a, b, fs, m);
      } else {
        ShieldedStates(limits, x, a, b, fs, m - 7);
        FillerTimely(limits, x, a, b, fs, m - 7);
      }
    }
    LastAttemptFits(limits, x, a, b, fs);
    LastAttemptPasses(limits, x, a, b, fs);
    assert fs[..|fs|] == fs;
    ShieldedStates(limits, x, a, b, fs, |fs|);
    AfterStep(limits, run, |run|);
  }

  lemma AfterStep(limits: Limits, run: seq<Action>, n: nat)
    requires 0 < n <= |run|
    ensures After(limits, run, n) == Next(limits, After(limits, run, n - 1), run[n - 1])
  {
    hide Next;
  }

  lemma BeginMarks(limits: Limits, s: System, id: nat, hash: Key, now: nat)
    ensures var t := Next(limits, s, Begin(id, hash, now)).marks;
            forall k :: k in t.entries ==> k == hash || (k in s.marks.entries && t.entries[k] == s.marks.entries[k])
  {
    hide Pruned;
    PrunedKeeps(s.marks, now, limits);
  }

  lemma LastAttemptFits(limits: Limits, x: Key, a: Key, b: Key, fs: seq<Key>)
    requires Fillers(limits, x, a, b, fs)
    ensures var s, e := ShieldedAt(limits, x, a, b, fs), Begin(4 + |fs|, a, limits.ttl + 3);
            UnexpiredFit(limits, Next(limits, s, e).marks, e.now)
  {
    hide UnexpiredFit, Stamped, Started, Shield, Next;
    var now, n, s := limits.ttl + 3, |fs|, ShieldedAt(limits, x, a, b, fs);
    BeginMarks(limits, s, 4 + n, a, now);
    assert fs[..n] == fs;
    ShieldedFits(limits, x, a, b, fs, n, Next(limits, s, Begin(4 + n, a, now)).marks);
  }

  /** The table is one too large, and the stale slot is next to go. */
  lemma LastAttemptPasses(limits: Limits, x: Key, a: Key, b: Key, fs: seq<Key>)
    requires Fillers(limits, x, a, b, fs)
    ensures !Exclusive(Next(limits, ShieldedAt(limits, x, a, b, fs), Begin(4 + |fs|, a, limits.ttl + 3)))
  {
    hide Exclusive, Stamped, Started, Shield, Next, New, FrontFresh, Elements, Distinct;
    var now, s := limits.ttl + 3, ShieldedAt(limits, x, a, b, fs);
    assert s.marks.order[0] == a && |s.marks.entries| > limits.maxEntries by {
      ShieldFront(limits, x, a, b, fs);
      StampedSize(Shield(limits, a, b), fs, now);
      StampedIs(Shield(limits, a, b), fs, now);
      ShieldLeads(limits, a, b, fs);
    }
    StartedIs(map[3 := Attempt(a, limits.ttl - 1)], fs, now, 4);
    LostFront(limits, s, 4 + |fs|, a, now, 3);
  }

  lemma ShieldLeads(limits: Limits, a: Key, b: Key, fs: seq<Key>)
    requires limits.ttl >= 4
    ensures (Shield(limits, a, b).order + fs)[0] == a
  {
  }
}
