/**
 * The write calls of a cached store (access.rs) taken apart. `write`, `write_many`, `delete`, `delete_many` and `delete_all`
 * change the cache first and then hand their operations to the writer one by one; `write_many_without_cache` hands them over
 * first and empties the cache at the end. Calls of several threads interleave between any two of these steps. Module Store
 * has the same machine with whole calls.
 */
module Calls {
  import opened Util
  import opened Bytes
  import opened Store

  /** A call in progress: its operations, how many of them the writer has, and whether an uncached call is over. */
  datatype Call<V> = Call(target: Target, ops: seq<Op<V>>, issued: nat, uncached: bool, closed: bool)

  datatype Calling<V> = Calling(store: State<V>, calls: seq<Call<V>>)

  /** Keys are full keys. */
  datatype Event<V> =
    | Step(action: Action<V>)
    | BeginWrite(target: Target, entries: seq<(Bytes, V)>)
    | BeginRemove(target: Target, keys: seq<Bytes>)
    | BeginClear(target: Target)
    | BeginUncached(target: Target, entries: seq<(Bytes, V)>)
    | Issue(j: nat)
    | Close(j: nat)

  /** The operations the writer does not have yet. */
  function Rest<V>(c: Call<V>): seq<Op<V>> {
    if c.issued <= |c.ops| then c.ops[c.issued..] else []
  }

  /** The call is between its first and its last effect on `key`. */
  ghost predicate Moves<V>(c: Call<V>, key: Bytes) {
    if c.uncached then !c.closed && Staged(c.ops, key) else Staged(Rest(c), key)
  }

  ghost predicate Busy<V>(s: Calling<V>, key: Bytes) {
    exists j :: 0 <= j < |s.calls| && Moves(s.calls[j], key)
  }

  ghost predicate Enabled<V>(s: Calling<V>, e: Event<V>) {
    match e
    case Step(a) =>
      && (a.Fetch? || a.Fill? || a.Foreign? || a.Open? || a.Commit? || a.Evict?)
      && Store.Enabled(s.store, a)
    case BeginWrite(t, es) => Exists(s.store, t) && forall i :: 0 <= i < |es| ==> Own(s.store.prefix, es[i].0)
    case BeginRemove(t, ks) => Exists(s.store, t) && forall i :: 0 <= i < |ks| ==> Own(s.store.prefix, ks[i])
    case BeginClear(t) => Exists(s.store, t) && Successor(s.store.prefix).Some?
    case BeginUncached(t, es) => Exists(s.store, t) && forall i :: 0 <= i < |es| ==> Own(s.store.prefix, es[i].0)
    case Issue(j) => j < |s.calls| && s.calls[j].issued < |s.calls[j].ops| && Exists(s.store, s.calls[j].target)
    case Close(j) => j < |s.calls| && s.calls[j].uncached && !s.calls[j].closed && s.calls[j].issued == |s.calls[j].ops|
  }

  ghost function Begun<V>(s: Calling<V>, t: Target, ops: seq<Op<V>>, cache: map<Bytes, V>, uncached: bool): Calling<V> {
    Calling(s.store.(cache := cache), s.calls + [Call(t, ops, 0, uncached, false)])
  }

  ghost function Next<V>(s: Calling<V>, e: Event<V>): Calling<V>
    requires Enabled(s, e)
  {
    match e
    case Step(a) => s.(store := Store.Next(s.store, a))
    case BeginWrite(t, es) => Begun(s, t, Puts(es), PutAll(s.store.cache, es), false)
    case BeginRemove(t, ks) => Begun(s, t, Deletes(ks), WithoutAll(s.store.cache, ks), false)
    case BeginClear(t) => Begun(s, t, [ClearOp(s.store.prefix)], map[], false)
    case BeginUncached(t, es) => Begun(s, t, Puts(es), s.store.cache, true)
    case Issue(j) =>
      var c := s.calls[j];
      Calling(Perform(s.store, c.target, c.ops[c.issued]), s.calls[j := c.(issued := c.issued + 1)])
    case Close(j) => Calling(s.store.(cache := map[]), s.calls[j := s.calls[j].(closed := true)])
  }

  /** The operations a new call will hand to its writer. */
  ghost function NewOps<V>(s: Calling<V>, e: Event<V>): seq<Op<V>>
    requires Enabled(s, e)
  {
    match e
    case BeginWrite(_, es) => Puts(es)
    case BeginRemove(_, ks) => Deletes(ks)
    case BeginClear(_) => [ClearOp(s.store.prefix)]
    case BeginUncached(_, es) => Puts(es)
    case _ => []
  }

  /** No call begins on a key that another call is moving, and no reader caches such a key. */
  ghost predicate Apart<V>(s: Calling<V>, e: Event<V>)
    requires Enabled(s, e)
  {
    if e.Step? && e.action.Fill? then !Busy(s, s.store.fetched[e.action.index].key)
    else forall key :: Staged(NewOps(s, e), key) ==> !Busy(s, key)
  }

  // ---- The machine with whole calls, seen through this one ----

  /** The store without the cached values of keys on the move. */
  ghost function Quiet<V>(s: Calling<V>): State<V> {
    s.store.(cache := map k | k in s.store.cache && !Busy(s, k) :: s.store.cache[k])
  }

  /** What a step amounts to for whole calls: a call takes effect key by key when the writer gets its last operation on a
      key; before that the key only leaves the cache. */
  ghost function Shadow<V>(s: Calling<V>, e: Event<V>): Action<V>
    requires Enabled(s, e)
  {
    match e
    case Step(a) => a
    case Issue(j) =>
      var c := s.calls[j];
      (match c.ops[c.issued]
       case Put(key, v) =>
         if !c.uncached && key in s.store.cache && !Staged(c.ops[c.issued + 1..], key) then Write(c.target, key, v)
         else Overwrite(c.target, key, v)
       case Delete(key) => Remove(c.target, key)
       case DeleteRange(_, _) => Clear(c.target))
    case Close(_) => Evict(s.store.cache.Keys)
    case _ => Evict(set k | k in s.store.cache && Staged(NewOps(s, e), k))
  }

  /** The shape of calls: operations on own keys, and a range deletion only as the whole of `delete_all`. */
  ghost predicate Shaped<V>(s: State<V>, c: Call<V>) {
    && Exists(s, c.target) && c.issued <= |c.ops| && (c.closed ==> c.issued == |c.ops|)
    && (forall i :: 0 <= i < |c.ops| ==>
          if c.ops[i].DeleteRange? then Successor(s.prefix).Some? && c.ops == [ClearOp(s.prefix)] && !c.uncached
          else Own(s.prefix, c.ops[i].key) && (c.uncached ==> c.ops[i].Put?))
  }

  /** A key moves in one call at most, and a cached value of a moving key is the one its call will leave. */
  ghost predicate Inv<V>(s: Calling<V>) {
    && OwnKeys(s.store)
    && (forall j :: 0 <= j < |s.calls| ==> Shaped(s.store, s.calls[j]))
    && (forall i, j, key :: 0 <= i < j < |s.calls| && Moves(s.calls[i], key) ==> !Moves(s.calls[j], key))
    && (forall j, key :: 0 <= j < |s.calls| && !s.calls[j].uncached && Moves(s.calls[j], key) && key in s.store.cache ==>
          Leaves(Rest(s.calls[j]), key) == Some(s.store.cache[key]))
  }

  lemma {:induction false} LeavesConcat<V>(a: seq<Op<V>>, b: seq<Op<V>>, key: Bytes)
    ensures Staged(a + b, key) <==> Staged(a, key) || Staged(b, key)
    ensures Leaves(a + b, key) == if Staged(b, key) then Leaves(b, key) else Leaves(a, key)
    decreases |b|
  {
    if b == [] {
      assert a + b == a;
    } else {
      var n := |b| - 1;
      LeavesConcat(a, b[..n], key);
      assert a + b == a + b[..n] + [b[n]] && b == b[..n] + [b[n]];
      StagedMore(a + b[..n], b[n], key);
      StagedMore(b[..n], b[n], key);
      hide Staged, Leaves, Touches;
    }
  }

  /** Handing over the next operation of a list. */
  lemma Suffix<V>(ops: seq<Op<V>>, i: nat, key: Bytes)
    requires i < |ops|
    ensures Staged(ops[i..], key) <==> Touches(ops[i], key) || Staged(ops[i + 1..], key)
    ensures Staged(ops[i + 1..], key) ==> Leaves(ops[i..], key) == Leaves(ops[i + 1..], key)
    ensures !Staged(ops[i + 1..], key) && Touches(ops[i], key) ==> Leaves(ops[i..], key) == OpValue(ops[i])
  {
    assert ops[i..] == [ops[i]] + ops[i + 1..];
    LeavesConcat([ops[i]], ops[i + 1..], key);
    assert Staged([ops[i]], key) <==> Touches(ops[i], key) by { StagedMore([], ops[i], key); assert [] + [ops[i]] == [ops[i]]; }
    assert Touches(ops[i], key) ==> Leaves([ops[i]], key) == OpValue(ops[i]);
  }

  lemma NewCallMoves<V>(t: Target, ops: seq<Op<V>>, uncached: bool, key: Bytes)
    ensures Moves(Call(t, ops, 0, uncached, false), key) <==> Staged(ops, key)
  {
    assert ops[0..] == ops;
  }

  lemma BegunBusy<V>(s: Calling<V>, t: Target, ops: seq<Op<V>>, cache: map<Bytes, V>, uncached: bool, key: Bytes)
    ensures Busy(Begun(s, t, ops, cache, uncached), key) <==> Busy(s, key) || Staged(ops, key)
  {
    hide Staged, Moves;
    var s', n := Begun(s, t, ops, cache, uncached), |s.calls|;
    NewCallMoves(t, ops, uncached, key);
    assert s'.calls[n] == Call(t, ops, 0, uncached, false);
    assert forall j :: 0 <= j < n ==> s'.calls[j] == s.calls[j];
  }

  /** A new call may change the cached values of the keys it stages, to what it will leave there. */
  ghost predicate Follows<V>(before: map<Bytes, V>, cache: map<Bytes, V>, ops: seq<Op<V>>, uncached: bool) {
    && (forall k :: !Staged(ops, k) ==> At(cache, k) == At(before, k))
    && (!uncached ==> forall k :: k in cache && Staged(ops, k) ==> Leaves(ops, k) == Some(cache[k]))
  }

  lemma BeginInv<V>(s: Calling<V>, t: Target, ops: seq<Op<V>>, cache: map<Bytes, V>, uncached: bool)
    requires Inv(s) && Shaped(s.store, Call(t, ops, 0, uncached, false)) && Follows(s.store.cache, cache, ops, uncached)
    requires (forall key :: Staged(ops, key) ==> !Busy(s, key)) && forall k :: k in cache ==> Own(s.store.prefix, k)
    ensures Inv(Begun(s, t, ops, cache, uncached))
  {
    hide Staged, Leaves, Moves, Shaped, Own;
    var s', n := Begun(s, t, ops, cache, uncached), |s.calls|;
    assert forall j :: 0 <= j < n ==> s'.calls[j] == s.calls[j];
    forall key ensures Moves(s'.calls[n], key) <==> Staged(ops, key) { NewCallMoves(t, ops, uncached, key); }
    forall j | 0 <= j <= n ensures Shaped(s'.store, s'.calls[j]) {
      ShapedIgnores(s.store, s'.store, s'.calls[j]);
    }
    forall i, j, key | 0 <= i < j <= n && Moves(s'.calls[i], key)
      ensures !Moves(s'.calls[j], key)
    {
      assert Moves(s.calls[i], key) ==> Busy(s, key);
    }
    forall j, key | 0 <= j <= n && !s'.calls[j].uncached && Moves(s'.calls[j], key) && key in cache
      ensures Leaves(Rest(s'.calls[j]), key) == Some(cache[key])
    {
      if j < n {
        assert Busy(s, key);
        assert At(cache, key) == At(s.store.cache, key);
      } else {
        assert ops[0..] == ops;
      }
    }
  }

  lemma ShapedIgnores<V>(s: State<V>, s': State<V>, c: Call<V>)
    requires s'.prefix == s.prefix && |s'.pending| >= |s.pending| && Shaped(s, c)
    ensures Shaped(s', c)
  {
  }

  lemma BeginQuiet<V>(s: Calling<V>, t: Target, ops: seq<Op<V>>, cache: map<Bytes, V>, uncached: bool)
    requires Follows(s.store.cache, cache, ops, uncached)
    ensures Quiet(Begun(s, t, ops, cache, uncached))
            == Store.Next(Quiet(s), Evict(set k | k in s.store.cache && Staged(ops, k)))
  {
    hide Staged, Leaves, Busy;
    var s' := Begun(s, t, ops, cache, uncached);
    forall k
      ensures k in Quiet(s').cache <==> k in Quiet(s).cache && !Staged(ops, k)
      ensures k in Quiet(s').cache ==> Quiet(s').cache[k] == s.store.cache[k]
    {
      BegunBusy(s, t, ops, cache, uncached, k);
      assert !Staged(ops, k) ==> At(cache, k) == At(s.store.cache, k);
    }
  }

  lemma {:induction false} PutsFollow<V>(before: map<Bytes, V>, es: seq<(Bytes, V)>, k: Bytes)
    ensures !Staged(Puts(es), k) ==> At(PutAll(before, es), k) == At(before, k)
    ensures Staged(Puts(es), k) ==> At(PutAll(before, es), k) == Leaves(Puts(es), k)
  {
    if es != [] {
      var n := |es| - 1;
      PutsFollow(before, es[..n], k);
      assert Puts(es) == Puts(es[..n]) + [Put(es[n].0, es[n].1)];
      StagedMore(Puts(es[..n]), Put(es[n].0, es[n].1), k);
      hide Staged, Leaves;
    }
  }

  lemma {:induction false} DeletesFollow<V>(before: map<Bytes, V>, ks: seq<Bytes>, k: Bytes)
    ensures !Staged(Deletes<V>(ks), k) ==> At(WithoutAll(before, ks), k) == At(before, k)
    ensures Staged(Deletes<V>(ks), k) ==> k !in WithoutAll(before, ks)
  {
    if ks != [] {
      var n := |ks| - 1;
      DeletesFollow(before, ks[..n], k);
      assert Deletes<V>(ks) == Deletes(ks[..n]) + [Delete(ks[n])];
      StagedMore(Deletes<V>(ks[..n]), Delete(ks[n]), k);
      hide Staged, Leaves;
    }
  }

  lemma ClearStages<V>(prefix: Bytes, k: Bytes)
    requires Successor(prefix).Some?
    ensures Staged([ClearOp<V>(prefix)], k) <==> Own(prefix, k)
  {
    RangeIsPrefix(prefix, k);
    StagedMore([], ClearOp<V>(prefix), k);
    assert [] + [ClearOp<V>(prefix)] == [ClearOp<V>(prefix)];
  }

  // ---- Every step, seen as a step of whole calls ----

  /** The step keeps the invariant and is the shadow step of the quiet store. */
  ghost predicate Simulated<V>(s: Calling<V>, e: Event<V>)
    requires Enabled(s, e)
  {
    && Inv(Next(s, e))
    && Store.Enabled(Quiet(s), Shadow(s, e))
    && Quiet(Next(s, e)) == Store.Next(Quiet(s), Shadow(s, e))
  }

  lemma BeginSimulated<V>(s: Calling<V>, e: Event<V>)
    requires Inv(s) && Enabled(s, e) && Apart(s, e) && !e.Step? && !e.Issue? && !e.Close?
    ensures Simulated(s, e)
  {
    hide Staged, Leaves, Busy, Moves;
    var prefix, before, ops := s.store.prefix, s.store.cache, NewOps(s, e);
    var cache := Next(s, e).store.cache;
    assert Follows(before, cache, ops, e.BeginUncached?) by { BeginFollows(s, e); }
    assert forall k :: k in cache ==> Own(prefix, k) by { BeginOwn(s, e); }
    BeginInv(s, e.target, ops, cache, e.BeginUncached?);
    BeginQuiet(s, e.target, ops, cache, e.BeginUncached?);
  }

  lemma BeginFollows<V>(s: Calling<V>, e: Event<V>)
    requires OwnKeys(s.store) && Enabled(s, e) && !e.Step? && !e.Issue? && !e.Close?
    ensures Follows(s.store.cache, Next(s, e).store.cache, NewOps(s, e), e.BeginUncached?)
  {
    hide Staged, Leaves, Busy, Moves, Shaped;
    var before, ops, cache := s.store.cache, NewOps(s, e), Next(s, e).store.cache;
    match e
    case BeginWrite(_, es) =>
      forall k
        ensures !Staged(ops, k) ==> At(cache, k) == At(before, k)
        ensures Staged(ops, k) ==> At(cache, k) == Leaves(ops, k)
      {
        PutsFollow(before, es, k);
      }
    case BeginRemove(_, ks) =>
      forall k
        ensures !Staged(ops, k) ==> At(cache, k) == At(before, k)
        ensures Staged(ops, k) ==> k !in cache
      {
        DeletesFollow(before, ks, k);
      }
    case BeginClear(_) =>
      forall k
        ensures !Staged(ops, k) ==> At(cache, k) == At(before, k)
      {
        ClearStages<V>(s.store.prefix, k);
      }
    case BeginUncached(_, _) =>
  }

  lemma BeginOwn<V>(s: Calling<V>, e: Event<V>)
    requires OwnKeys(s.store) && Enabled(s, e) && !e.Step? && !e.Issue? && !e.Close?
    ensures forall k :: k in Next(s, e).store.cache ==> Own(s.store.prefix, k)
  {
    hide Leaves, Busy, Moves, Shaped;
    var before, cache := s.store.cache, Next(s, e).store.cache;
    forall k | k in cache
      ensures Own(s.store.prefix, k)
    {
      match e
      case BeginWrite(_, es) => PutsFollow(before, es, k);
      case BeginRemove(_, ks) => DeletesFollow(before, ks, k);
      case BeginClear(_) =>
      case BeginUncached(_, _) =>
    }
  }

  lemma IssueMoves<V>(s: Calling<V>, j: nat, key: Bytes)
    requires Enabled(s, Event<V>.Issue(j)) && Shaped(s.store, s.calls[j])
    ensures var c, c' := s.calls[j], Next(s, Issue(j)).calls[j];
            && (Moves(c, key) <==> if c.uncached then !c.closed && Staged(c.ops, key)
                                   else Touches(c.ops[c.issued], key) || Moves(c', key))
            && (Touches(c.ops[c.issued], key) ==> Moves(c, key))
            && (Moves(c', key) <==> if c.uncached then Moves(c, key) else Staged(c.ops[c.issued + 1..], key))
            && (!c.uncached && Moves(c', key) ==> Leaves(Rest(c'), key) == Leaves(Rest(c), key))
  {
    var c := s.calls[j];
    Suffix(c.ops, c.issued, key);
    hide Leaves, Touches;
  }

  lemma OnlyOne<V>(s: Calling<V>, i: nat, j: nat, key: Bytes)
    requires Inv(s) && i < |s.calls| && j < |s.calls| && i != j && Moves(s.calls[j], key)
    ensures !Moves(s.calls[i], key)
  {
    hide Staged, Leaves, Moves, Shaped;
  }

  lemma IssueBusy<V>(s: Calling<V>, j: nat, key: Bytes)
    requires Inv(s) && Enabled(s, Event<V>.Issue(j))
    ensures var c, s' := s.calls[j], Next(s, Issue(j));
            && (!Touches(c.ops[c.issued], key) ==> (Busy(s', key) <==> Busy(s, key)))
            && (Touches(c.ops[c.issued], key) ==>
                  Busy(s, key) && (Busy(s', key) <==> c.uncached || Staged(c.ops[c.issued + 1..], key)))
  {
    hide Staged, Leaves, Touches, Moves, ApplyOp, Shaped;
    var c, s' := s.calls[j], Next(s, Issue(j));
    IssueMoves(s, j, key);
    assert forall i :: 0 <= i < |s.calls| && i != j ==> s'.calls[i] == s.calls[i];
    if Touches(c.ops[c.issued], key) {
      assert Moves(s.calls[j], key);
      forall i | 0 <= i < |s.calls| && i != j
        ensures !Moves(s'.calls[i], key)
      {
        OnlyOne(s, i, j, key);
      }
      assert Busy(s', key) <==> Moves(s'.calls[j], key);
    } else {
      assert Moves(s'.calls[j], key) <==> Moves(s.calls[j], key);
    }
  }

  lemma IssueInv<V>(s: Calling<V>, j: nat)
    requires Inv(s) && Enabled(s, Event<V>.Issue(j))
    ensures Inv(Next(s, Issue(j)))
  {
    hide Staged, Leaves, Touches, Moves, ApplyOp;
    var c, s' := s.calls[j], Next(s, Issue(j));
    assert Shaped(s.store, c);
    forall i | 0 <= i < |s.calls| ensures Shaped(s'.store, s'.calls[i]) {
      ShapedIgnores(s.store, s'.store, s.calls[i]);
    }
    hide Shaped, Rest;
    assert forall i :: 0 <= i < |s.calls| && i != j ==> s'.calls[i] == s.calls[i];
    forall key
      ensures Moves(s'.calls[j], key) ==> Moves(s.calls[j], key)
      ensures !c.uncached && Moves(s'.calls[j], key) ==> Leaves(Rest(s'.calls[j]), key) == Leaves(Rest(s.calls[j]), key)
    {
      IssueMoves(s, j, key);
    }
    assert s'.calls[j].uncached == c.uncached;
  }

  lemma IssueBusyAll<V>(s: Calling<V>, j: nat)
    requires Inv(s) && Enabled(s, Event<V>.Issue(j))
    ensures var c, s' := s.calls[j], Next(s, Issue(j));
            forall k ::
              && (!Touches(c.ops[c.issued], k) ==> (Busy(s', k) <==> Busy(s, k)))
              && (Touches(c.ops[c.issued], k) ==>
                    Busy(s, k) && (Busy(s', k) <==> c.uncached || Staged(c.ops[c.issued + 1..], k)))
  {
    hide Staged, Touches, Busy, Inv;
    var c, s' := s.calls[j], Next(s, Issue(j));
    forall k
      ensures !Touches(c.ops[c.issued], k) ==> (Busy(s', k) <==> Busy(s, k))
      ensures Touches(c.ops[c.issued], k) ==> Busy(s, k) && (Busy(s', k) <==> c.uncached || Staged(c.ops[c.issued + 1..], k))
    {
      IssueBusy(s, j, k);
    }
  }

  lemma IssuePut<V>(s: Calling<V>, j: nat)
    requires Inv(s) && Enabled(s, Event<V>.Issue(j)) && s.calls[j].ops[s.calls[j].issued].Put?
    ensures Store.Enabled(Quiet(s), Shadow(s, Issue(j)))
    ensures Quiet(Next(s, Issue(j))) == Store.Next(Quiet(s), Shadow(s, Issue(j)))
  {
    hide Staged, Leaves, ApplyOp, Busy, Moves;
    var c, s' := s.calls[j], Next(s, Issue(j));
    assert Shaped(s.store, c);
    var op := c.ops[c.issued];
    IssueBusyAll(s, j);
    assert Touches(op, op.key);
    if op.key in s.store.cache && !Busy(s', op.key) {
      Promised(s, j, op.key);
      hide Inv, Shaped;
      assert Quiet(s').cache == Quiet(s).cache[op.key := op.value];
    } else {
      hide Inv, Shaped;
      assert Quiet(s').cache == Without(Quiet(s).cache, op.key);
    }
  }

  lemma IssueDelete<V>(s: Calling<V>, j: nat)
    requires Inv(s) && Enabled(s, Event<V>.Issue(j)) && s.calls[j].ops[s.calls[j].issued].Delete?
    ensures Store.Enabled(Quiet(s), Shadow(s, Issue(j)))
    ensures Quiet(Next(s, Issue(j))) == Store.Next(Quiet(s), Shadow(s, Issue(j)))
  {
    hide Staged, Leaves, ApplyOp, Busy, Moves;
    var c, s' := s.calls[j], Next(s, Issue(j));
    assert Shaped(s.store, c);
    var op := c.ops[c.issued];
    IssueBusyAll(s, j);
    assert Touches(op, op.key);
    assert op.key in s.store.cache ==> Busy(s', op.key) by {
      if op.key in s.store.cache && !Busy(s', op.key) {
        Promised(s, j, op.key);
      }
    }
    hide Inv, Shaped;
    assert Quiet(s').cache == Without(Quiet(s).cache, op.key);
  }

  lemma IssueClear<V>(s: Calling<V>, j: nat)
    requires Inv(s) && Enabled(s, Event<V>.Issue(j)) && s.calls[j].ops[s.calls[j].issued].DeleteRange?
    ensures Store.Enabled(Quiet(s), Shadow(s, Issue(j)))
    ensures Quiet(Next(s, Issue(j))) == Store.Next(Quiet(s), Shadow(s, Issue(j)))
  {
    hide Staged, Leaves, ApplyOp, Busy, Moves;
    var c, s' := s.calls[j], Next(s, Issue(j));
    assert Shaped(s.store, c);
    var op := c.ops[c.issued];
    IssueBusyAll(s, j);
    forall k | k in s.store.cache
      ensures Busy(s', k)
    {
      RangeIsPrefix(s.store.prefix, k);
      assert Touches(op, k);
      if !Busy(s', k) {
        Promised(s, j, k);
      }
    }
    hide Inv, Shaped, InRange;
    assert Quiet(s').cache == map[];
  }

  /** A cached value whose key is touched by the last operation of its call is the value of that operation. */
  lemma Promised<V>(s: Calling<V>, j: nat, key: Bytes)
    requires Inv(s) && Enabled(s, Event<V>.Issue(j)) && key in s.store.cache && !s.calls[j].uncached
    requires var c := s.calls[j]; Touches(c.ops[c.issued], key) && !Staged(c.ops[c.issued + 1..], key)
    ensures OpValue(s.calls[j].ops[s.calls[j].issued]) == Some(s.store.cache[key])
  {
    var c := s.calls[j];
    Suffix(c.ops, c.issued, key);
    assert Moves(c, key);
    hide Staged, Leaves, Touches;
  }

  lemma CloseSimulated<V>(s: Calling<V>, j: nat)
    requires Inv(s) && Enabled(s, Event<V>.Close(j))
    ensures Simulated(s, Close(j))
  {
    hide Staged, Leaves;
    var s' := Next(s, Close(j));
    assert forall i :: 0 <= i < |s.calls| && i != j ==> s'.calls[i] == s.calls[i];
    assert forall key :: !Moves(s'.calls[j], key);
    forall i | 0 <= i < |s.calls| ensures Shaped(s'.store, s'.calls[i]) {
      ShapedIgnores(s.store, s'.store, s.calls[i]);
    }
    hide Moves, Shaped, Rest;
    assert Quiet(s').cache == map[];
  }

  /** A step of the store that leaves the calls alone. */
  lemma StepInv<V>(s: Calling<V>, a: Action<V>)
    requires Inv(s) && Enabled(s, Step(a)) && Apart(s, Step(a))
    ensures Inv(Next(s, Step(a)))
  {
    hide Staged, Leaves, Moves, Apply, ApplyOp, Own;
    var s' := Next(s, Step(a));
    StepOwnKeys(s.store, a);
    forall j | 0 <= j < |s.calls| ensures Shaped(s'.store, s'.calls[j]) {
      ShapedIgnores(s.store, s'.store, s.calls[j]);
    }
    hide Shaped;
    forall j, key | 0 <= j < |s.calls| && Moves(s.calls[j], key)
      ensures key in s'.store.cache ==> key in s.store.cache && s'.store.cache[key] == s.store.cache[key]
    {
      assert Busy(s, key);
    }
  }

  lemma StepQuiet<V>(s: Calling<V>, a: Action<V>)
    requires Enabled(s, Step(a)) && Apart(s, Step(a))
    ensures Store.Enabled(Quiet(s), a) && Quiet(Next(s, Step(a))) == Store.Next(Quiet(s), a)
  {
    hide Staged, Leaves, Moves, Apply, ApplyOp;
    var s' := Next(s, Step(a));
    forall key ensures Busy(s', key) <==> Busy(s, key) {}
    hide Busy;
    assert Quiet(s').cache == Store.Next(Quiet(s), a).cache;
  }

  lemma IssueSimulated<V>(s: Calling<V>, j: nat)
    requires Inv(s) && Enabled(s, Event<V>.Issue(j))
    ensures Simulated(s, Issue(j))
  {
    IssueInv(s, j);
    hide Inv, Next, Shadow, Quiet;
    match s.calls[j].ops[s.calls[j].issued]
    case Put(_, _) => IssuePut(s, j);
    case Delete(_) => IssueDelete(s, j);
    case DeleteRange(_, _) => IssueClear(s, j);
  }

  /** Every step of calls that keep apart is a step of whole calls. */
  lemma StepSimulated<V>(s: Calling<V>, e: Event<V>)
    requires Inv(s) && Enabled(s, e) && Apart(s, e)
    ensures Simulated(s, e)
  {
    match e
    case Step(a) =>
      hide Inv, Quiet, Next;
      StepInv(s, a);
      StepQuiet(s, a);
    case Issue(j) => IssueSimulated(s, j);
    case Close(j) => CloseSimulated(s, j);
    case _ => BeginSimulated(s, e);
  }

  // ---- Runs ----

  ghost function After<V>(prefix: Bytes, rows: Rows<V>, run: seq<Event<V>>, n: nat): Calling<V>
    requires n <= |run|
  {
    if n == 0 then Calling(Start(prefix, rows), [])
    else
      var s := After(prefix, rows, run, n - 1);
      if Enabled(s, run[n - 1]) then Next(s, run[n - 1]) else s
  }

  /** Calls on one key do not overlap, and no reader caches a key between the halves of a call on it. */
  ghost predicate ApartRun<V>(prefix: Bytes, rows: Rows<V>, run: seq<Event<V>>, n: nat)
    requires n <= |run|
  {
    forall m :: 0 <= m < n ==>
      var s := After(prefix, rows, run, m);
      Enabled(s, run[m]) ==> Apart(s, run[m])
  }

  /** The run of whole calls that a run amounts to. */
  ghost function ShadowRun<V>(prefix: Bytes, rows: Rows<V>, run: seq<Event<V>>): (r: seq<Action<V>>)
    ensures |r| == |run|
  {
    seq(|run|, m requires 0 <= m < |run| =>
      var s := After(prefix, rows, run, m);
      if Enabled(s, run[m]) then Shadow(s, run[m]) else Evict({}))
  }

  lemma NothingEvicted<V>(s: State<V>)
    ensures Store.Next(s, Evict({})) == s
  {
    assert (map k | k in s.cache && k !in {} :: s.cache[k]) == s.cache;
  }

  /** Interleaved calls that keep apart are a run of whole calls, as far as keys at rest can tell. */
  lemma {:induction false} RunSimulated<V>(prefix: Bytes, rows: Rows<V>, run: seq<Event<V>>, n: nat)
    requires n <= |run|
    ensures ApartRun(prefix, rows, run, n) ==>
              var s := After(prefix, rows, run, n);
              Inv(s) && Quiet(s) == Store.After(prefix, rows, ShadowRun(prefix, rows, run), n)
  {
    hide Inv, Next, Quiet, Shadow, Enabled, Apart, Store.Next, Store.Enabled, ShadowRun;
    if n == 0 {
      ColdStart(prefix, rows);
    } else if ApartRun(prefix, rows, run, n) {
      RunSimulated(prefix, rows, run, n - 1);
      assert ApartRun(prefix, rows, run, n - 1);
      var s, e := After(prefix, rows, run, n - 1), run[n - 1];
      assert Enabled(s, e) ==> Apart(s, e);
      ShadowAt(prefix, rows, run, n - 1);
      ShadowStep(s, e);
    }
  }

  lemma ShadowAt<V>(prefix: Bytes, rows: Rows<V>, run: seq<Event<V>>, m: nat)
    requires m < |run|
    ensures var s := After(prefix, rows, run, m);
            ShadowRun(prefix, rows, run)[m] == if Enabled(s, run[m]) then Shadow(s, run[m]) else Evict({})
  {
    hide After, Enabled, Shadow;
  }

  lemma ShadowStep<V>(s: Calling<V>, e: Event<V>)
    requires Inv(s) && (Enabled(s, e) ==> Apart(s, e))
    ensures var s', a := if Enabled(s, e) then Next(s, e) else s, if Enabled(s, e) then Shadow(s, e) else Evict({});
            Inv(s') && Store.Enabled(Quiet(s), a) && Quiet(s') == Store.Next(Quiet(s), a)
  {
    hide Inv, Next, Quiet, Shadow, Enabled, Apart, Store.Next, Store.Enabled;
    if Enabled(s, e) {
      StepSimulated(s, e);
    } else {
      NothingEvicted(Quiet(s));
      EvictEnabled(Quiet(s));
    }
  }

  lemma EvictEnabled<V>(s: State<V>)
    ensures Store.Enabled(s, Evict({}))
  {
  }

  lemma ColdStart<V>(prefix: Bytes, rows: Rows<V>)
    ensures var s := Calling(Start(prefix, rows), []); Inv(s) && Quiet(s) == Start(prefix, rows)
  {
  }

  ghost predicate CoherentAtRest<V>(prefix: Bytes, rows: Rows<V>, run: seq<Event<V>>, n: nat)
    requires n <= |run|
  {
    forall m :: 0 <= m <= n ==> Coherent(Quiet(After(prefix, rows, run, m)))
  }

  /** With calls on one key kept apart, the cached values of keys at rest are coherent all the way if and only if the
      steps are sound at the moment the writer gets the last operation on a key. */
  lemma CallsExactly<V>(prefix: Bytes, rows: Rows<V>, run: seq<Event<V>>, n: nat)
    requires n <= |run|
    ensures ApartRun(prefix, rows, run, n) ==>
              (CoherentAtRest(prefix, rows, run, n) <==> SoundRun(prefix, rows, ShadowRun(prefix, rows, run), n))
  {
    hide After, ShadowRun, SoundRun, Coherent, Quiet, Store.After, Inv;
    if ApartRun(prefix, rows, run, n) {
      var shadow := ShadowRun(prefix, rows, run);
      forall m | 0 <= m <= n
        ensures Quiet(After(prefix, rows, run, m)) == Store.After(prefix, rows, shadow, m)
      {
        assert ApartRun(prefix, rows, run, m);
        RunSimulated(prefix, rows, run, m);
      }
      assert CoherentAtRest(prefix, rows, run, n) <==> CoherentThroughout(prefix, rows, shadow, n);
      RunExactly(prefix, rows, shadow, n);
    }
  }

  /**
   * The cache of a store used by many threads agrees with the plain map. After every run of calls that keep apart on
   * each key and are sound, a read of a key that is at rest and not staged gives the committed value, and `has` says
   * whether there is one.
   */
  lemma CallsAreTransparent<V>(prefix: Bytes, rows: Rows<V>, run: seq<Event<V>>, n: nat, key: Bytes)
    requires n <= |run|
    ensures var s := After(prefix, rows, run, n);
            ApartRun(prefix, rows, run, n) && SoundRun(prefix, rows, ShadowRun(prefix, rows, run), n) && !Busy(s, key) ==>
              && (Unstaged(s.store, key) ==>
                    Read(s.store, key) == At(s.store.rows, key) && (Has(s.store, key) <==> key in s.store.rows))
              && (key in s.store.cache ==> OthersLeave(s.store, Direct, key, Some(s.store.cache[key])))
  {
    hide After, ApartRun, ShadowRun, SoundRun, Store.After, Inv, Staged, Leaves, Busy;
    var s := After(prefix, rows, run, n);
    if ApartRun(prefix, rows, run, n) && SoundRun(prefix, rows, ShadowRun(prefix, rows, run), n) && !Busy(s, key) {
      RunSimulated(prefix, rows, run, n);
      CacheIsTransparent(prefix, rows, ShadowRun(prefix, rows, run), n, key);
      assert key in Quiet(s).cache <==> key in s.store.cache;
    }
  }

  // ---- Calls that do not keep apart ----

  /** Two direct calls on one key. The deletion has emptied the cache, then the whole write runs, then the deletion reaches
      the DB: the value stays cached and the row is gone. */
  lemma DeleteOverWrite<V>(s: Calling<V>, key: Bytes, v: V)
    requires Own(s.store.prefix, key)
    ensures var j := |s.calls|;
            var s1 := Next(s, BeginRemove(Direct, [key]));
            var s2 := Next(s1, BeginWrite(Direct, [(key, v)]));
            var s3 := Next(s2, Issue(j + 1));
            var s4 := Next(s3, Issue(j));
            Read(s4.store, key) == Some(v) && key !in s4.store.rows && (Busy(s4, key) <==> Busy(s, key))
  {
    var j := |s.calls|;
    var s1 := Next(s, BeginRemove(Direct, [key]));
    var s2 := Next(s1, BeginWrite(Direct, [(key, v)]));
    assert s1.calls[j] == Call(Direct, [Delete(key)], 0, false, false);
    assert [(key, v)][..0] == [];
    assert PutAll(s1.store.cache, [(key, v)]) == s1.store.cache[key := v];
    assert s2.calls[j + 1] == Call(Direct, [Put(key, v)], 0, false, false);
    var s3 := Next(s2, Issue(j + 1));
    var s4 := Next(s3, Issue(j));
    assert !Moves(s4.calls[j], key) && !Moves(s4.calls[j + 1], key);
    assert forall i :: 0 <= i < j ==> s4.calls[i] == s.calls[i];
  }

  /** A reader that fetched before a direct write caches its value between the write's halves: the old value stays. */
  lemma FillBetweenHalves<V>(s: Calling<V>, key: Bytes, v: V)
    requires Own(s.store.prefix, key) && key !in s.store.cache && key in s.store.rows
    ensures var j, i := |s.calls|, |s.store.fetched|;
            var s1 := Next(s, Step(Fetch(key)));
            var s2 := Next(s1, BeginWrite(Direct, [(key, v)]));
            var s3 := Next(s2, Step(Fill(i)));
            var s4 := Next(s3, Issue(j));
            Read(s4.store, key) == At(s.store.rows, key) && At(s4.store.rows, key) == Some(v)
  {
    var j, i := |s.calls|, |s.store.fetched|;
    var s1 := Next(s, Step(Fetch(key)));
    var s2 := Next(s1, BeginWrite(Direct, [(key, v)]));
    assert s2.calls[j] == Call(Direct, [Put(key, v)], 0, false, false);
  }
}
