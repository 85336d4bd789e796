/** Lists of steps of the store's state machine, and states that differ by evictions only. */
module Steps {
  import opened Util
  import opened Bytes
  import opened Store

  /** `t` is `s`, with some of its cache evicted. */
  ghost predicate UpToEviction<V>(t: State<V>, s: State<V>) {
    t == s.(cache := t.cache) && forall k :: k in t.cache ==> k in s.cache && t.cache[k] == s.cache[k]
  }

  /** States that agree up to eviction are one eviction step apart. */
  lemma EvictionReaches<V>(s: State<V>, t: State<V>)
    requires UpToEviction(t, s)
    ensures t == Next(s, Evict(s.cache.Keys - t.cache.Keys))
  {
    assert t.cache == Next(s, Evict(s.cache.Keys - t.cache.Keys)).cache;
  }

  /** Actions one after the other. */
  ghost function Played<V>(s: State<V>, actions: seq<Action<V>>): State<V> {
    if actions == [] then s
    else
      var t, a := Played(s, actions[..|actions| - 1]), actions[|actions| - 1];
      if Enabled(t, a) then Next(t, a) else t
  }

  /** A list of operations performed in order. */
  ghost function Performed<V>(s: State<V>, t: Target, ops: seq<Op<V>>): State<V>
    requires Exists(s, t)
  {
    match t
    case Direct => s.(rows := Apply(s.rows, ops))
    case Batch(i) => s.(pending := s.pending[i := s.pending[i] + ops])
  }

  lemma PerformedMore<V>(s: State<V>, t: Target, ops: seq<Op<V>>, op: Op<V>)
    requires Exists(s, t)
    ensures Performed(s, t, ops + [op]) == Perform(Performed(s, t, ops), t, op)
  {
    hide ApplyOp;
    assert (ops + [op])[..|ops|] == ops;
    if t.Batch? {
      assert s.pending[t.index] + (ops + [op]) == s.pending[t.index] + ops + [op];
    }
  }

  lemma PerformedNone<V>(s: State<V>, t: Target)
    requires Exists(s, t)
    ensures Performed(s, t, []) == s
  {
    if t.Batch? {
      assert s.pending[t.index] + [] == s.pending[t.index];
    }
  }

  function Writes<V>(t: Target, entries: seq<(Bytes, V)>): (r: seq<Action<V>>)
    ensures |r| == |entries|
  {
    seq(|entries|, i requires 0 <= i < |entries| => Action.Write(t, entries[i].0, entries[i].1))
  }

  function Overwrites<V>(t: Target, entries: seq<(Bytes, V)>): (r: seq<Action<V>>)
    ensures |r| == |entries|
  {
    seq(|entries|, i requires 0 <= i < |entries| => Action.Overwrite(t, entries[i].0, entries[i].1))
  }

  function Removes<V>(t: Target, keys: seq<Bytes>): (r: seq<Action<V>>)
    ensures |r| == |keys|
  {
    seq(|keys|, i requires 0 <= i < |keys| => Action.Remove(t, keys[i]))
  }

  ghost predicate OwnEntries<V>(prefix: Bytes, entries: seq<(Bytes, V)>) {
    forall i :: 0 <= i < |entries| ==> Own(prefix, entries[i].0)
  }

  /** The keys of a list of entries. */
  function Named<V>(entries: seq<(Bytes, V)>): (r: seq<Bytes>)
    ensures |r| == |entries|
  {
    seq(|entries|, i requires 0 <= i < |entries| => entries[i].0)
  }

  lemma StepOf<V>(s: State<V>, s': State<V>, t: Target, before: seq<Op<V>>, op: Op<V>, cache: map<Bytes, V>, a: Action<V>)
    requires Exists(s, t) && s' == Performed(s, t, before).(cache := cache)
    requires match a
             case Write(u, k, v) => u == t && op == Put(k, v) && Own(s.prefix, k)
             case Overwrite(u, k, v) => u == t && op == Put(k, v) && Own(s.prefix, k)
             case Remove(u, k) => u == t && op == Delete(k) && Own(s.prefix, k)
             case _ => false
    ensures Enabled(s', a)
    ensures Next(s', a)
            == Performed(s, t, before + [op]).(cache := if a.Write? then cache[a.key := a.value] else Without(cache, a.key))
  {
    hide ApplyOp, Apply;
    PerformedMore(s, t, before, op);
  }

  /** Writing entry by entry ends where caching all of them and then writing all of them does. */
  lemma {:induction false} WritesPlayed<V>(s: State<V>, t: Target, entries: seq<(Bytes, V)>)
    requires Exists(s, t) && OwnEntries(s.prefix, entries)
    ensures Played(s, Writes(t, entries)) == Performed(s, t, Puts(entries)).(cache := PutAll(s.cache, entries))
    decreases |entries|
  {
    hide Performed, Next, Enabled;
    var ws, ps := Writes(t, entries), Puts(entries);
    if entries == [] {
      PerformedNone(s, t);
      assert ps == [];
    } else {
      var n := |entries| - 1;
      assert ws[..n] == Writes(t, entries[..n]) && ps == Puts(entries[..n]) + [Put(entries[n].0, entries[n].1)];
      WritesPlayed(s, t, entries[..n]);
      StepOf(s, Played(s, ws[..n]), t, Puts(entries[..n]), ps[n], PutAll(s.cache, entries[..n]), ws[n]);
    }
  }

  /** Uncached writes leave all puts, and none of their keys in the cache. */
  lemma {:induction false} OverwritesPlayed<V>(s: State<V>, t: Target, entries: seq<(Bytes, V)>)
    requires Exists(s, t) && OwnEntries(s.prefix, entries)
    ensures Played(s, Overwrites(t, entries)) == Performed(s, t, Puts(entries)).(cache := WithoutAll(s.cache, Named(entries)))
    decreases |entries|
  {
    hide Performed, Next, Enabled;
    var ws, ps := Overwrites(t, entries), Puts(entries);
    if entries == [] {
      PerformedNone(s, t);
      assert ps == [];
    } else {
      var n := |entries| - 1;
      assert ws[..n] == Overwrites(t, entries[..n]) && ps == Puts(entries[..n]) + [Put(entries[n].0, entries[n].1)];
      assert Named(entries)[..n] == Named(entries[..n]);
      OverwritesPlayed(s, t, entries[..n]);
      StepOf(s, Played(s, ws[..n]), t, Puts(entries[..n]), ps[n], WithoutAll(s.cache, Named(entries[..n])), ws[n]);
    }
  }

  /** Removing key by key ends where removing all keys from the cache and then all from the DB does. */
  lemma {:induction false} RemovesPlayed<V>(s: State<V>, t: Target, keys: seq<Bytes>)
    requires Exists(s, t) && forall i :: 0 <= i < |keys| ==> Own(s.prefix, keys[i])
    ensures Played(s, Removes(t, keys)) == Performed(s, t, Deletes(keys)).(cache := WithoutAll(s.cache, keys))
    decreases |keys|
  {
    hide Performed, Next, Enabled;
    var rs: seq<Action<V>>, ds: seq<Op<V>> := Removes(t, keys), Deletes(keys);
    if keys == [] {
      PerformedNone(s, t);
      assert ds == [];
    } else {
      var n := |keys| - 1;
      assert rs[..n] == Removes(t, keys[..n]) && ds == Deletes(keys[..n]) + [Delete(keys[n])];
      RemovesPlayed(s, t, keys[..n]);
      StepOf(s, Played(s, rs[..n]), t, Deletes(keys[..n]), ds[n], WithoutAll(s.cache, keys[..n]), rs[n]);
    }
  }
}
