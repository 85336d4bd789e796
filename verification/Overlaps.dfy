/**
 * Write calls of a cached store (access.rs) that may overlap in any way, also on one key. Module Calls has the machine; here
 * is the exact condition for its cached values at rest, whatever the interleaving.
 */
module Overlaps {
  import opened Util
  import opened Bytes
  import opened Store
  import K = Calls

  ghost predicate Sane<V>(s: K.Calling<V>) {
    OwnKeys(s.store) && forall j :: 0 <= j < |s.calls| ==> K.Shaped(s.store, s.calls[j])
  }

  /** Every cached value of a key that no call is moving is the one the key shows. */
  ghost predicate Resting<V>(s: K.Calling<V>) {
    forall k :: k in s.store.cache && !K.Busy(s, k) ==> Shows(s.store, k, Some(s.store.cache[k]))
  }

  lemma RestingIsCoherent<V>(s: K.Calling<V>)
    ensures Resting(s) <==> Coherent(K.Quiet(s))
  {
    hide Shows, K.Busy;
    forall k, v
      ensures Shows(K.Quiet(s), k, v) <==> Shows(s.store, k, v)
    {
      ShowsIgnores(s.store, K.Quiet(s), k, v);
    }
    assert forall k :: k in K.Quiet(s).cache <==> k in s.store.cache && !K.Busy(s, k);
  }

  // ---- One step, exactly ----

  /**
   * The writer gets an operation of call `j`. Every cached key that it touches and that no call moves afterwards holds the
   * value of the operation, and the other batches that stage the key leave it too. A direct operation on a staged key is
   * overwritten by the commit, so there the staging batches have to leave the cached value.
   */
  ghost predicate Lands<V>(s: K.Calling<V>, j: nat)
    requires K.Enabled(s, K.Event<V>.Issue(j))
  {
    var c, cache := s.calls[j], s.store.cache;
    var op := c.ops[c.issued];
    forall k :: k in cache && Touches(op, k) && !K.Busy(K.Next(s, K.Issue(j)), k) ==>
      && OthersLeave(s.store, c.target, k, Some(cache[k]))
      && (OpValue(op) == Some(cache[k]) || (c.target.Direct? && !Unstaged(s.store, k)))
  }

  /** A reader may cache a key at rest only with what the key shows. Of the other steps only those of writers matter. */
  ghost predicate Keeps<V>(s: K.Calling<V>, e: K.Event<V>)
    requires K.Enabled(s, e)
  {
    match e
    case Issue(j) => Lands(s, j)
    case Step(a) =>
      a.Fill? && !K.Busy(s, s.store.fetched[a.index].key) ==>
        Shows(s.store, s.store.fetched[a.index].key, Some(s.store.fetched[a.index].value))
    case _ => true
  }

  lemma OwnKeysStep<V>(s: K.Calling<V>, e: K.Event<V>)
    requires Sane(s) && K.Enabled(s, e)
    ensures OwnKeys(K.Next(s, e).store)
  {
    hide Staged, Apply, ApplyOp, K.Shaped;
    if e.Step? {
      StepOwnKeys(s.store, e.action);
    } else if !e.Issue? && !e.Close? {
      K.BeginOwn(s, e);
    }
  }

  lemma SaneStep<V>(s: K.Calling<V>, e: K.Event<V>)
    requires Sane(s) && K.Enabled(s, e)
    ensures Sane(K.Next(s, e))
  {
    hide Staged, Apply, ApplyOp;
    var s' := K.Next(s, e);
    OwnKeysStep(s, e);
    hide OwnKeys;
    forall j | 0 <= j < |s'.calls|
      ensures K.Shaped(s'.store, s'.calls[j])
    {
      if j < |s.calls| {
        K.ShapedIgnores(s.store, s'.store, s.calls[j]);
      }
    }
  }

  /** Steps of the store, the calls left alone. */
  lemma StepKeeps<V>(s: K.Calling<V>, a: Action<V>)
    requires Sane(s) && Resting(s) && K.Enabled(s, K.Step(a))
    ensures Resting(K.Next(s, K.Step(a))) <==> Keeps(s, K.Step(a))
  {
    RestingIsCoherent(s);
    RestingIsCoherent(K.Next(s, K.Step(a)));
    hide Resting, K.Busy, K.Quiet;
    if a.Fill? {
      FillKeeps(s, a.index);
    } else {
      QuietOwnKeys(s);
      assert K.Apart(s, K.Step(a)) by { NothingNew(s, a); }
      hide Sane, Coherent, OwnKeys, K.Apart, Store.Next;
      K.StepQuiet(s, a);
      StepExact(K.Quiet(s), a);
    }
  }

  lemma NothingNew<V>(s: K.Calling<V>, a: Action<V>)
    requires K.Enabled(s, K.Step(a)) && !a.Fill?
    ensures K.Apart(s, K.Step(a))
  {
  }

  lemma QuietOwnKeys<V>(s: K.Calling<V>)
    requires Sane(s)
    ensures OwnKeys(K.Quiet(s))
  {
  }

  lemma FillKeeps<V>(s: K.Calling<V>, i: nat)
    requires Coherent(K.Quiet(s)) && K.Enabled(s, K.Step(Action<V>.Fill(i)))
    ensures Coherent(K.Quiet(K.Next(s, K.Step(Fill(i))))) <==> Keeps(s, K.Step(Action<V>.Fill(i)))
  {
    hide Shows;
    var s', key, v := K.Next(s, K.Step(Fill(i))), s.store.fetched[i].key, s.store.fetched[i].value;
    var q, q' := K.Quiet(s), K.Quiet(s');
    forall k ensures K.Busy(s', k) <==> K.Busy(s, k) {}
    hide K.Busy;
    forall k, x
      ensures Shows(q', k, x) <==> Shows(s.store, k, x)
      ensures Shows(q, k, x) <==> Shows(s.store, k, x)
    {
      ShowsIgnores(s.store, q', k, x);
      ShowsIgnores(s.store, q, k, x);
    }
    assert key in q'.cache <==> !K.Busy(s, key);
    assert forall k :: k != key ==> (k in q'.cache <==> k in q.cache);
    assert forall k :: k != key && k in q.cache ==> q'.cache[k] == q.cache[k];
  }

  /** A call begins: the keys it changes in the cache are on the move. */
  lemma BeginKeeps<V>(s: K.Calling<V>, e: K.Event<V>)
    requires Sane(s) && Resting(s) && K.Enabled(s, e) && !e.Step? && !e.Issue? && !e.Close?
    ensures Resting(K.Next(s, e))
  {
    hide Staged, Shows, K.Busy, K.Shaped;
    var s', ops := K.Next(s, e), K.NewOps(s, e);
    K.BeginFollows(s, e);
    forall k | k in s'.store.cache && !K.Busy(s', k)
      ensures Shows(s'.store, k, Some(s'.store.cache[k]))
    {
      K.BegunBusy(s, e.target, ops, s'.store.cache, e.BeginUncached?, k);
      assert At(s'.store.cache, k) == At(s.store.cache, k);
      ShowsIgnores(s.store, s'.store, k, Some(s.store.cache[k]));
    }
  }

  /** Only touched keys can come to rest when the writer gets an operation. */
  lemma UntouchedStays<V>(s: K.Calling<V>, j: nat, k: Bytes)
    requires Sane(s) && K.Enabled(s, K.Event<V>.Issue(j))
    ensures var c := s.calls[j];
            && (!Touches(c.ops[c.issued], k) ==> (K.Busy(K.Next(s, K.Issue(j)), k) <==> K.Busy(s, k)))
  {
    hide Touches, K.Moves, ApplyOp, Staged;
    var s' := K.Next(s, K.Issue(j));
    assert K.Shaped(s.store, s.calls[j]);
    K.IssueMoves(s, j, k);
    assert forall i :: 0 <= i < |s.calls| && i != j ==> s'.calls[i] == s.calls[i];
    if !Touches(s.calls[j].ops[s.calls[j].issued], k) {
      assert K.Moves(s'.calls[j], k) <==> K.Moves(s.calls[j], k);
    }
  }

  lemma IssueKeeps<V>(s: K.Calling<V>, j: nat)
    requires Sane(s) && Resting(s) && K.Enabled(s, K.Event<V>.Issue(j))
    ensures Resting(K.Next(s, K.Issue(j))) <==> Lands(s, j)
  {
    hide Touches, K.Busy, ApplyOp, Shows, OthersLeave, Unstaged, Sane;
    var c, s', cache := s.calls[j], K.Next(s, K.Issue(j)), s.store.cache;
    var op := c.ops[c.issued];
    assert s'.store.cache == cache && s'.store == Perform(s.store, c.target, op);
    forall k | k in cache && !K.Busy(s', k)
      ensures !Touches(op, k) ==> Shows(s'.store, k, Some(cache[k]))
      ensures Touches(op, k) ==> (Shows(s'.store, k, Some(cache[k])) <==>
                                    && OthersLeave(s.store, c.target, k, Some(cache[k]))
                                    && (OpValue(op) == Some(cache[k]) || (c.target.Direct? && !Unstaged(s.store, k))))
    {
      UntouchedStays(s, j, k);
      PerformShows(s.store, c.target, op, k, Some(cache[k]));
      StagedShows(s.store, k, Some(cache[k]));
    }
  }

  lemma StagedShows<V>(s: State<V>, k: Bytes, v: Option<V>)
    ensures !Unstaged(s, k) ==> (Shows(s, k, v) <==> OthersLeave(s, Direct, k, v))
  {
  }

  /** One step of any interleaving, exactly. */
  lemma StepExactly<V>(s: K.Calling<V>, e: K.Event<V>)
    requires Sane(s) && Resting(s) && K.Enabled(s, e)
    ensures Resting(K.Next(s, e)) <==> Keeps(s, e)
  {
    match e
    case Step(a) =>
      hide Resting, Keeps, Sane;
      StepKeeps(s, a);
    case Issue(j) =>
      hide Resting, Lands, Sane;
      IssueKeeps(s, j);
    case Close(j) =>
    case _ =>
      hide Resting, Sane;
      BeginKeeps(s, e);
  }

  // ---- Runs ----

  /** What a step leaves in the committed row of `key`, if it changes it at all. */
  ghost function RowEffect<V>(s: K.Calling<V>, e: K.Event<V>, key: Bytes): Option<Option<V>>
    requires K.Enabled(s, e)
  {
    match e
    case Step(a) => Store.RowEffect(s.store, a, key)
    case Issue(j) =>
      var c := s.calls[j];
      if c.target.Direct? && Touches(c.ops[c.issued], key) then Some(OpValue(c.ops[c.issued])) else None
    case _ => None
  }

  lemma RowEffectIs<V>(s: K.Calling<V>, e: K.Event<V>, key: Bytes)
    requires K.Enabled(s, e)
    ensures var x := RowEffect(s, e, key);
            At(K.Next(s, e).store.rows, key) == if x.Some? then x.value else At(s.store.rows, key)
  {
    hide ApplyOp, Touches;
    match e
    case Step(a) => hide Store.Next, Store.RowEffect; Store.RowEffectIs(s.store, a, key);
    case Issue(j) => ApplyOpAt(s.store.rows, s.calls[j].ops[s.calls[j].issued], key);
    case _ =>
  }

  /** The last change of the committed row of `key` in the steps `[lo, hi)`. */
  ghost function Since<V>(prefix: Bytes, rows: Rows<V>, run: seq<K.Event<V>>, lo: nat, hi: nat, key: Bytes): Option<Option<V>>
    requires lo <= hi <= |run|
    decreases hi
  {
    if lo == hi then None
    else
      var s, e := K.After(prefix, rows, run, hi - 1), run[hi - 1];
      if K.Enabled(s, e) && RowEffect(s, e, key).Some? then RowEffect(s, e, key)
      else Since(prefix, rows, run, lo, hi - 1, key)
  }

  lemma {:induction false} RowHistory<V>(prefix: Bytes, rows: Rows<V>, run: seq<K.Event<V>>, lo: nat, hi: nat, key: Bytes)
    requires lo <= hi <= |run|
    ensures var x := Since(prefix, rows, run, lo, hi, key);
            At(K.After(prefix, rows, run, hi).store.rows, key)
            == if x.Some? then x.value else At(K.After(prefix, rows, run, lo).store.rows, key)
    decreases hi
  {
    hide K.Next, K.Enabled, RowEffect;
    if lo < hi {
      RowHistory(prefix, rows, run, lo, hi - 1, key);
      var s, e := K.After(prefix, rows, run, hi - 1), run[hi - 1];
      if K.Enabled(s, e) {
        RowEffectIs(s, e, key);
      }
    }
  }

  lemma StepFetched<V>(s: K.Calling<V>, e: K.Event<V>)
    requires K.Enabled(s, e)
    ensures var f := K.Next(s, e).store.fetched;
            && Extends(f, s.store.fetched)
            && (|f| > |s.store.fetched| ==>
                  && e.Step? && e.action.Fetch? && |f| == |s.store.fetched| + 1 && e.action.key in s.store.rows
                  && f[|s.store.fetched|] == Fetched(e.action.key, s.store.rows[e.action.key], false))
  {
    hide ApplyOp;
    if e.Step? {
      hide Store.Next;
      Store.StepFetched(s.store, e.action);
    }
  }

  /** The step at which the `i`-th value was fetched. */
  ghost function FetchStep<V>(prefix: Bytes, rows: Rows<V>, run: seq<K.Event<V>>, n: nat, i: nat): (m: nat)
    requires n <= |run| && i < |K.After(prefix, rows, run, n).store.fetched|
    ensures m < n
  {
    if i < |K.After(prefix, rows, run, n - 1).store.fetched| then FetchStep(prefix, rows, run, n - 1, i) else n - 1
  }

  lemma {:induction false} FetchStepIs<V>(prefix: Bytes, rows: Rows<V>, run: seq<K.Event<V>>, n: nat, i: nat)
    requires n <= |run| && i < |K.After(prefix, rows, run, n).store.fetched|
    ensures var f, m := K.After(prefix, rows, run, n).store.fetched[i], FetchStep(prefix, rows, run, n, i);
            run[m] == K.Step(Fetch(f.key)) && At(K.After(prefix, rows, run, m).store.rows, f.key) == Some(f.value)
  {
    hide K.Next, K.Enabled;
    var s, e := K.After(prefix, rows, run, n - 1), run[n - 1];
    if K.Enabled(s, e) {
      StepFetched(s, e);
    }
    if i < |s.store.fetched| {
      FetchStepIs(prefix, rows, run, n - 1, i);
    }
  }

  /**
   * What the callers together have to see to at step `m`. When the writer gets the last operation on a key, the cached value
   * is the one it leaves. When a reader caches a key that no call is moving, every open batch that stages the key leaves the
   * fetched value, and if there is none, the last change of the row since the fetch, if any, left it there.
   */
  ghost predicate Sound<V>(prefix: Bytes, rows: Rows<V>, run: seq<K.Event<V>>, m: nat)
    requires m < |run|
  {
    var s, e := K.After(prefix, rows, run, m), run[m];
    K.Enabled(s, e) ==>
      && (e.Issue? ==> Lands(s, e.j))
      && (e.Step? && e.action.Fill? && !K.Busy(s, s.store.fetched[e.action.index].key) ==>
            var i := e.action.index;
            var f, x := s.store.fetched[i], Since(prefix, rows, run, FetchStep(prefix, rows, run, m, i), m, s.store.fetched[i].key);
            && OthersLeave(s.store, Direct, f.key, Some(f.value))
            && (Unstaged(s.store, f.key) && x.Some? ==> x.value == Some(f.value)))
  }

  lemma SoundIsKeeps<V>(prefix: Bytes, rows: Rows<V>, run: seq<K.Event<V>>, m: nat)
    requires m < |run| && K.Enabled(K.After(prefix, rows, run, m), run[m])
    ensures Sound(prefix, rows, run, m) <==> Keeps(K.After(prefix, rows, run, m), run[m])
  {
    hide K.After, Since, FetchStep, OthersLeave, Unstaged, K.Busy, Lands;
    var s, e := K.After(prefix, rows, run, m), run[m];
    if e.Step? && e.action.Fill? {
      FetchStepIs(prefix, rows, run, m, e.action.index);
      RowHistory(prefix, rows, run, FetchStep(prefix, rows, run, m, e.action.index), m, s.store.fetched[e.action.index].key);
    }
  }

  lemma {:induction false} AlwaysSane<V>(prefix: Bytes, rows: Rows<V>, run: seq<K.Event<V>>, n: nat)
    requires n <= |run|
    ensures Sane(K.After(prefix, rows, run, n))
  {
    if n > 0 {
      hide Sane, K.Next, K.Enabled;
      AlwaysSane(prefix, rows, run, n - 1);
      var s, e := K.After(prefix, rows, run, n - 1), run[n - 1];
      if K.Enabled(s, e) {
        SaneStep(s, e);
      }
    }
  }

  lemma StepInRun<V>(prefix: Bytes, rows: Rows<V>, run: seq<K.Event<V>>, m: nat)
    requires m < |run| && Coherent(K.Quiet(K.After(prefix, rows, run, m)))
    ensures Coherent(K.Quiet(K.After(prefix, rows, run, m + 1))) <==> Sound(prefix, rows, run, m)
  {
    hide K.Next, Coherent, Sane, Keeps, Resting, K.Quiet;
    var s, e := K.After(prefix, rows, run, m), run[m];
    RestingIsCoherent(s);
    RestingIsCoherent(K.After(prefix, rows, run, m + 1));
    AlwaysSane(prefix, rows, run, m);
    if K.Enabled(s, e) {
      StepExactly(s, e);
      SoundIsKeeps(prefix, rows, run, m);
    }
  }

  ghost predicate SoundRun<V>(prefix: Bytes, rows: Rows<V>, run: seq<K.Event<V>>, n: nat)
    requires n <= |run|
  {
    forall m :: 0 <= m < n ==> Sound(prefix, rows, run, m)
  }

  /** In every interleaving of the halves of reads and writes, overlapping or not: the cached values of keys at rest are
      coherent all the way if and only if every step was sound. */
  lemma {:induction false} OverlapsExactly<V>(prefix: Bytes, rows: Rows<V>, run: seq<K.Event<V>>, n: nat)
    requires n <= |run|
    ensures K.CoherentAtRest(prefix, rows, run, n) <==> SoundRun(prefix, rows, run, n)
  {
    hide K.Next, K.Enabled, Coherent, Sound, K.Quiet;
    if n == 0 {
      K.ColdStart(prefix, rows);
      ColdIsCoherent(prefix, rows);
    } else {
      OverlapsExactly(prefix, rows, run, n - 1);
      assert SoundRun(prefix, rows, run, n) <==> SoundRun(prefix, rows, run, n - 1) && Sound(prefix, rows, run, n - 1);
      assert K.CoherentAtRest(prefix, rows, run, n) <==>
             K.CoherentAtRest(prefix, rows, run, n - 1) && Coherent(K.Quiet(K.After(prefix, rows, run, n)));
      if K.CoherentAtRest(prefix, rows, run, n - 1) {
        assert Coherent(K.Quiet(K.After(prefix, rows, run, n - 1)));
        StepInRun(prefix, rows, run, n - 1);
      }
    }
  }

  /** After every sound run, overlapping or not, a read of a key that is at rest and not staged gives the committed value,
      and `has` says whether there is one. */
  lemma OverlapsAreTransparent<V>(prefix: Bytes, rows: Rows<V>, run: seq<K.Event<V>>, n: nat, key: Bytes)
    requires n <= |run|
    ensures var s := K.After(prefix, rows, run, n);
            SoundRun(prefix, rows, run, n) && !K.Busy(s, key) ==>
              && (Unstaged(s.store, key) ==>
                    Read(s.store, key) == At(s.store.rows, key) && (Has(s.store, key) <==> key in s.store.rows))
              && (key in s.store.cache ==> OthersLeave(s.store, Direct, key, Some(s.store.cache[key])))
  {
    hide K.After, SoundRun, K.Busy, Unstaged, OthersLeave, K.Quiet, Coherent;
    var s := K.After(prefix, rows, run, n);
    OverlapsExactly(prefix, rows, run, n);
    assert K.CoherentAtRest(prefix, rows, run, n) ==> Coherent(K.Quiet(s));
    RestingIsCoherent(s);
  }
}
