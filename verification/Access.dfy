/** `CachedDbAccess` (access.rs) over a DB object, write batches and the cache object. */
module Access {
  import opened Util
  import opened Bytes
  import opened Store
  import opened Steps
  import C = Cache

  class Db<V> {
    var rows: Rows<V>

    constructor ()
      ensures rows == map[]
    {
      rows := map[];
    }

    /** Commit of a batch. */
    method WriteBatch(batch: Batch<V>)
      modifies this
      ensures rows == Apply(old(rows), batch.ops)
    {
      for i := 0 to |batch.ops|
        invariant rows == Apply(old(rows), batch.ops[..i])
      {
        assert batch.ops[..i + 1][..i] == batch.ops[..i];
        rows := ApplyOp(rows, batch.ops[i]);
      }
      assert batch.ops[..|batch.ops|] == batch.ops;
    }
  }

  class Batch<V> {
    var ops: seq<Op<V>>

    constructor ()
      ensures ops == []
    {
      ops := [];
    }
  }

  datatype Writer<V> = DirectWriter(db: Db<V>) | BatchWriter(batch: Batch<V>)

  /** The object a writer changes. */
  ghost function Changed<V>(w: Writer<V>): object {
    if w.DirectWriter? then w.db else w.batch
  }

  /** An operation goes to the DB or to the end of the batch. */
  method Issue<V>(w: Writer<V>, op: Op<V>)
    modifies Changed(w)
    ensures w.DirectWriter? ==> w.db.rows == ApplyOp(old(w.db.rows), op)
    ensures w.BatchWriter? ==> w.batch.ops == old(w.batch.ops) + [op]
  {
    match w
    case DirectWriter(target) => target.rows := ApplyOp(target.rows, op);
    case BatchWriter(batch) => batch.ops := batch.ops + [op];
  }

  /** The operations of an iterator, issued one by one. */
  method IssueAll<V>(w: Writer<V>, ops: seq<Op<V>>)
    modifies Changed(w)
    ensures w.DirectWriter? ==> w.db.rows == Apply(old(w.db.rows), ops)
    ensures w.BatchWriter? ==> w.batch.ops == old(w.batch.ops) + ops
  {
    hide ApplyOp;
    for i := 0 to |ops|
      invariant w.DirectWriter? ==> w.db.rows == Apply(old(w.db.rows), ops[..i])
      invariant w.BatchWriter? ==> w.batch.ops == old(w.batch.ops) + ops[..i]
    {
      Issue(w, ops[i]);
      assert ops[..i + 1] == ops[..i] + [ops[i]] && ops[..i + 1][..i] == ops[..i];
    }
    assert ops[..|ops|] == ops;
  }

  /** Entries and keys of a store under their full DB keys. */
  function Full<V>(prefix: Bytes, entries: seq<(Bytes, V)>): (r: seq<(Bytes, V)>)
    ensures |r| == |entries|
  {
    seq(|entries|, i requires 0 <= i < |entries| => (prefix + entries[i].0, entries[i].1))
  }

  function FullNames(prefix: Bytes, keys: seq<Bytes>): (r: seq<Bytes>)
    ensures |r| == |keys|
  {
    seq(|keys|, i requires 0 <= i < |keys| => prefix + keys[i])
  }

  /** Every cached item is the value some rows hold under its full key. */
  ghost predicate Agrees<V>(items: map<Bytes, V>, prefix: Bytes, rows: Rows<V>) {
    forall k :: k in items ==> At(rows, prefix + k) == Some(items[k])
  }

  lemma SameStoreKey(prefix: Bytes, k: Bytes, key: Bytes)
    ensures prefix + k == prefix + key <==> k == key
  {
    assert (prefix + k)[|prefix|..] == k && (prefix + key)[|prefix|..] == key;
  }

  lemma AgreesAfter<V>(items: map<Bytes, V>, items': map<Bytes, V>, prefix: Bytes, rows: Rows<V>, op: Op<V>)
    requires Agrees(items, prefix, rows)
    requires forall k :: k in items' ==>
               if Touches(op, prefix + k) then op.Put? && items'[k] == op.value
               else k in items && items'[k] == items[k]
    ensures Agrees(items', prefix, ApplyOp(rows, op))
  {
    hide ApplyOp, Touches;
    forall k | k in items'
      ensures At(ApplyOp(rows, op), prefix + k) == Some(items'[k])
    {
      ApplyOpAt(rows, op, prefix + k);
    }
  }

  // ---- The steps of the store's state machine that the methods below take ----

  /** The cache under full DB keys. */
  ghost function FullKeys<V>(items: map<Bytes, V>, prefix: Bytes): map<Bytes, V> {
    map x | x in FullKeySet(items, prefix) :: items[x[|prefix|..]]
  }

  ghost function FullKeySet<V>(items: map<Bytes, V>, prefix: Bytes): (keys: set<Bytes>)
    ensures forall x :: x in keys <==> prefix <= x && x[|prefix|..] in items
  {
    var keys := set k | k in items :: prefix + k;
    forall x ensures x in keys <==> prefix <= x && x[|prefix|..] in items {
      if prefix <= x && x[|prefix|..] in items {
        assert x == prefix + x[|prefix|..];
      }
    }
    keys
  }

  lemma FullKeysPut<V>(items: map<Bytes, V>, prefix: Bytes, key: Bytes, v: V)
    ensures FullKeys(items[key := v], prefix) == FullKeys(items, prefix)[prefix + key := v]
  {
    forall x ensures prefix <= x ==> (x == prefix + key <==> x[|prefix|..] == key) {
      assert prefix <= x ==> x == prefix + x[|prefix|..];
    }
  }

  lemma FullKeysWithout<V>(items: map<Bytes, V>, prefix: Bytes, key: Bytes)
    ensures FullKeys(Without(items, key), prefix) == Without(FullKeys(items, prefix), prefix + key)
  {
    forall x ensures prefix <= x ==> (x == prefix + key <==> x[|prefix|..] == key) {
      assert prefix <= x ==> x == prefix + x[|prefix|..];
    }
  }

  lemma FullKeysPart<V>(a: map<Bytes, V>, b: map<Bytes, V>, prefix: Bytes)
    requires C.PartOf(a, b)
    ensures C.PartOf(FullKeys(a, prefix), FullKeys(b, prefix))
  {
  }

  lemma {:induction false} FullKeysPutAll<V>(items: map<Bytes, V>, prefix: Bytes, entries: seq<(Bytes, V)>)
    ensures FullKeys(PutAll(items, entries), prefix) == PutAll(FullKeys(items, prefix), Full(prefix, entries))
  {
    hide FullKeys;
    if entries != [] {
      var n := |entries| - 1;
      FullKeysPutAll(items, prefix, entries[..n]);
      assert Full(prefix, entries)[..n] == Full(prefix, entries[..n]);
      FullKeysPut(PutAll(items, entries[..n]), prefix, entries[n].0, entries[n].1);
    }
  }

  lemma {:induction false} FullKeysWithoutAll<V>(items: map<Bytes, V>, prefix: Bytes, keys: seq<Bytes>)
    ensures FullKeys(WithoutAll(items, keys), prefix) == WithoutAll(FullKeys(items, prefix), FullNames(prefix, keys))
  {
    hide FullKeys;
    if keys != [] {
      var n := |keys| - 1;
      FullKeysWithoutAll(items, prefix, keys[..n]);
      assert FullNames(prefix, keys)[..n] == FullNames(prefix, keys[..n]);
      FullKeysWithout(WithoutAll(items, keys[..n]), prefix, keys[n]);
    }
  }

  lemma NoKeys<V>(prefix: Bytes)
    ensures FullKeys<V>(map[], prefix) == map[]
  {
  }

  /** The rest of the machine around one store: its readers, and the open batches, the writer's one at `slot`. */
  datatype Context<V> = Context(machine: State<V>, slot: nat)

  ghost predicate InContext<V>(w: Writer<V>, ctx: Context<V>) {
    w.BatchWriter? ==> ctx.slot < |ctx.machine.pending|
  }

  ghost function TargetOf<V>(w: Writer<V>, ctx: Context<V>): Target {
    if w.DirectWriter? then Direct else Target.Batch(ctx.slot)
  }

  /** What a writer works on: the rows of the DB, and the operations of its batch. */
  datatype Holding<V> = Holding(rows: Rows<V>, ops: seq<Op<V>>)

  /** The rows it will leave in the DB. */
  function Effective<V>(h: Holding<V>): Rows<V> {
    Apply(h.rows, h.ops)
  }

  function Issued<V>(h: Holding<V>, direct: bool, more: seq<Op<V>>): Holding<V> {
    if direct then h.(rows := Apply(h.rows, more)) else h.(ops := h.ops + more)
  }

  lemma {:induction false} ApplyConcat<V>(rows: Rows<V>, a: seq<Op<V>>, b: seq<Op<V>>)
    ensures Apply(rows, a + b) == Apply(Apply(rows, a), b)
    decreases |b|
  {
    hide ApplyOp;
    if b == [] {
      assert a + b == a;
    } else {
      var n := |b| - 1;
      ApplyConcat(rows, a, b[..n]);
      assert (a + b)[..|a| + n] == a + b[..n];
    }
  }

  lemma EffectiveIssued<V>(h: Holding<V>, direct: bool, more: seq<Op<V>>)
    requires direct ==> h.ops == []
    ensures Effective(Issued(h, direct, more)) == Apply(Effective(h), more)
  {
    ApplyConcat(h.rows, h.ops, more);
  }

  /** The machine's state, given what this store and its writer hold. */
  ghost function Seen<V>(ctx: Context<V>, t: Target, prefix: Bytes, h: Holding<V>, items: map<Bytes, V>): State<V>
    requires Exists(ctx.machine, t)
  {
    var pending := if t.Direct? then ctx.machine.pending else ctx.machine.pending[t.index := h.ops];
    ctx.machine.(prefix := prefix, rows := h.rows, pending := pending, cache := FullKeys(items, prefix))
  }

  /** Operations issued and a new cache, in the machine. */
  lemma SeenIssued<V>(ctx: Context<V>, t: Target, prefix: Bytes, h: Holding<V>, items: map<Bytes, V>,
                      more: seq<Op<V>>, after: map<Bytes, V>)
    requires Exists(ctx.machine, t)
    ensures var s := Seen(ctx, t, prefix, h, items);
            && s.prefix == prefix && s.cache == FullKeys(items, prefix) && Exists(s, t)
            && Seen(ctx, t, prefix, Issued(h, t.Direct?, more), after)
               == Performed(s, t, more).(cache := FullKeys(after, prefix))
  {
    hide Apply, FullKeys;
  }

  lemma OneOp<V>(rows: Rows<V>, op: Op<V>)
    ensures Apply(rows, [op]) == ApplyOp(rows, op)
  {
    assert [op][..0] == [];
  }

  lemma WriteIsStep<V>(s: State<V>, t: Target, items: map<Bytes, V>, after: map<Bytes, V>, key: Bytes, v: V)
    requires Exists(s, t) && s.cache == FullKeys(items, s.prefix) && C.PartOf(after, items[key := v])
    ensures var full := s.prefix + key;
            && Own(s.prefix, full)
            && UpToEviction(Performed(s, t, [Put(full, v)]).(cache := FullKeys(after, s.prefix)),
                            Next(s, Action.Write(t, full, v)))
  {
    hide ApplyOp, Apply, Performed;
    var full := s.prefix + key;
    FullKeysPut(items, s.prefix, key, v);
    FullKeysPart(after, items[key := v], s.prefix);
    PerformedNone(s, t);
    StepOf(s, s, t, [], Put(full, v), s.cache, Action.Write(t, full, v));
    assert [] + [Put(full, v)] == [Put(full, v)];
  }

  lemma RemoveIsStep<V>(s: State<V>, t: Target, items: map<Bytes, V>, key: Bytes)
    requires Exists(s, t) && s.cache == FullKeys(items, s.prefix)
    ensures var full := s.prefix + key;
            && Own(s.prefix, full)
            && Next(s, Action.Remove(t, full))
               == Performed(s, t, [Op.Delete(full)]).(cache := FullKeys(Without(items, key), s.prefix))
  {
    hide ApplyOp, Apply, Performed;
    var full := s.prefix + key;
    FullKeysWithout(items, s.prefix, key);
    PerformedNone(s, t);
    StepOf(s, s, t, [], Op.Delete(full), s.cache, Action.Remove(t, full));
    assert [] + [Op<V>.Delete(full)] == [Op.Delete(full)];
  }

  lemma MissIsTwoSteps<V>(s: State<V>, items: map<Bytes, V>, after: map<Bytes, V>, key: Bytes)
    requires s.cache == FullKeys(items, s.prefix) && key !in items && s.prefix + key in s.rows
    requires C.PartOf(after, items[key := s.rows[s.prefix + key]])
    ensures var full := s.prefix + key;
            && Enabled(s, Action.Fetch(full)) && Enabled(Next(s, Action.Fetch(full)), Fill(|s.fetched|))
            && UpToEviction(s.(cache := FullKeys(after, s.prefix), fetched := s.fetched + [Fetched(full, s.rows[full], true)]),
                            Next(Next(s, Action.Fetch(full)), Fill(|s.fetched|)))
  {
    var full := s.prefix + key;
    assert full[|s.prefix|..] == key;
    FullKeysPut(items, s.prefix, key, s.rows[full]);
    FullKeysPart(after, items[key := s.rows[full]], s.prefix);
    assert (s.fetched + [Fetched(full, s.rows[full], false)])[|s.fetched| := Fetched(full, s.rows[full], true)]
           == s.fetched + [Fetched(full, s.rows[full], true)];
  }

  /** Deleting a list of keys empties exactly those rows of the store. */
  lemma {:induction false} DeletesAt<V>(rows: Rows<V>, prefix: Bytes, keys: seq<Bytes>, x: Bytes)
    ensures At(Apply(rows, Deletes(FullNames(prefix, keys))), x)
            == if prefix <= x && x[|prefix|..] in keys then None else At(rows, x)
    decreases |keys|
  {
    hide ApplyOp;
    if keys != [] {
      var n := |keys| - 1;
      var ops: seq<Op<V>> := Deletes(FullNames(prefix, keys));
      DeletesAt(rows, prefix, keys[..n], x);
      assert ops[..n] == Deletes(FullNames(prefix, keys[..n]));
      ApplyOpAt(Apply(rows, ops[..n]), ops[n], x);
      assert x == prefix + keys[n] <==> prefix <= x && x[|prefix|..] == keys[n] by {
        assert prefix <= x ==> x == prefix + x[|prefix|..];
      }
      assert keys == keys[..n] + [keys[n]];
    }
  }

  /** Caching a list of entries and writing it keep in step. */
  lemma {:induction false} PutAllAgrees<V>(items: map<Bytes, V>, prefix: Bytes, rows: Rows<V>, entries: seq<(Bytes, V)>)
    requires Agrees(items, prefix, rows)
    ensures Agrees(PutAll(items, entries), prefix, Apply(rows, Puts(Full(prefix, entries))))
    decreases |entries|
  {
    if entries == [] {
      assert Puts(Full(prefix, entries)) == [];
    } else {
      var n := |entries| - 1;
      var key, v := entries[n].0, entries[n].1;
      PutAllAgrees(items, prefix, rows, entries[..n]);
      assert Puts(Full(prefix, entries)) == Puts(Full(prefix, entries[..n])) + [Put(prefix + key, v)];
      forall k ensures prefix + k == prefix + key <==> k == key { SameStoreKey(prefix, k, key); }
      AgreesAfter(PutAll(items, entries[..n]), PutAll(items, entries), prefix,
                  Apply(rows, Puts(Full(prefix, entries[..n]))), Put(prefix + key, v));
    }
  }

  function WithFallback<V>(rows: Rows<V>, prefix: Bytes, fallback: Bytes, key: Bytes, convert: V -> V): Option<V> {
    if prefix + key in rows then Some(rows[prefix + key])
    else if fallback + key in rows then Some(convert(rows[fallback + key]))
    else None
  }

  ghost predicate AgreesWithFallback<V>(items: map<Bytes, V>, prefix: Bytes, fallback: Bytes, convert: V -> V, rows: Rows<V>) {
    forall k :: k in items ==> WithFallback(rows, prefix, fallback, k, convert) == Some(items[k])
  }

  lemma PutAgrees<V>(items: map<Bytes, V>, after: map<Bytes, V>, prefix: Bytes, rows: Rows<V>, key: Bytes, v: V)
    requires Agrees(items, prefix, rows) && C.PartOf(after, items[key := v])
    ensures Agrees(after, prefix, Apply(rows, [Put(prefix + key, v)]))
  {
    OneOp(rows, Put(prefix + key, v));
    forall k ensures prefix + k == prefix + key <==> k == key { SameStoreKey(prefix, k, key); }
    AgreesAfter(items, after, prefix, rows, Put(prefix + key, v));
  }

  lemma DeleteAgrees<V>(items: map<Bytes, V>, prefix: Bytes, rows: Rows<V>, key: Bytes)
    requires Agrees(items, prefix, rows)
    ensures Agrees(Without(items, key), prefix, Apply(rows, [Op.Delete(prefix + key)]))
  {
    OneOp(rows, Op<V>.Delete(prefix + key));
    forall k ensures prefix + k == prefix + key <==> k == key { SameStoreKey(prefix, k, key); }
    AgreesAfter(items, Without(items, key), prefix, rows, Op.Delete(prefix + key));
  }

  lemma AgreesPart<V>(items: map<Bytes, V>, full: map<Bytes, V>, prefix: Bytes, rows: Rows<V>)
    requires Agrees(full, prefix, rows) && C.PartOf(items, full)
    ensures Agrees(items, prefix, rows)
  {
  }

  lemma OwnFull<V>(prefix: Bytes, entries: seq<(Bytes, V)>)
    ensures OwnEntries(prefix, Full(prefix, entries))
  {
  }

  lemma ClearIsStep<V>(s: State<V>, t: Target)
    requires Exists(s, t) && Successor(s.prefix).Some?
    ensures Next(s, Action.Clear(t)) == Performed(s, t, [ClearOp(s.prefix)]).(cache := map[])
  {
    hide ApplyOp;
    OneOp(s.rows, ClearOp(s.prefix));
  }

  class CachedDbAccess<V> {
    const db: Db<V>
    const cache: C.Cache<Bytes, V>
    const prefix: Bytes

    ghost predicate Valid()
      reads cache
    {
      cache.Valid()
    }

    constructor (db: Db<V>, policy: C.CachePolicy, size: V -> nat, prefix: Bytes)
      ensures Valid() && this.db == db && this.prefix == prefix && fresh(cache) && cache.items == map[]
      ensures cache.given == policy && cache.size == size
    {
      this.db, this.prefix := db, prefix;
      this.cache := new C.Cache(policy, size);
    }

    ghost function Held(w: Writer<V>): Holding<V>
      reads db, if w.BatchWriter? then {w.batch} else {}
    {
      Holding(db.rows, if w.BatchWriter? then w.batch.ops else [])
    }

    /** The state machine's view of this store in its context. */
    ghost function AsState(w: Writer<V>, ctx: Context<V>): State<V>
      requires InContext(w, ctx)
      reads db, cache, if w.BatchWriter? then {w.batch} else {}
    {
      Seen(ctx, TargetOf(w, ctx), prefix, Held(w), cache.items)
    }

    /** The writer belongs to this store's DB. */
    ghost predicate Suits(w: Writer<V>) {
      w.DirectWriter? ==> w.db == db
    }

    method IssueHere(w: Writer<V>, ops: seq<Op<V>>)
      requires Suits(w)
      modifies Changed(w)
      ensures Held(w) == Issued(old(Held(w)), w.DirectWriter?, ops)
      ensures Effective(Held(w)) == Apply(old(Effective(Held(w))), ops)
    {
      hide Apply;
      IssueAll(w, ops);
      EffectiveIssued(old(Held(w)), w.DirectWriter?, ops);
    }

    method Has(key: Bytes) returns (r: bool)
      requires Valid()
      ensures r <==> key in cache.items || prefix + key in db.rows
      ensures Agrees(cache.items, prefix, db.rows) ==> (r <==> prefix + key in db.rows)
    {
      r := key in cache.items || prefix + key in db.rows;
    }

    /** A hit changes nothing; a miss is the fetch and the fill of the machine, up to evictions. */
    method Read(key: Bytes, ghost ctx: Context<V>) returns (r: Option<V>)
      requires Valid()
      modifies cache
      ensures Valid()
      ensures r == if key in old(cache.items) then Some(old(cache.items)[key]) else At(db.rows, prefix + key)
      ensures r.Some? ==> C.PartOf(cache.items, old(cache.items)[key := r.value])
      ensures if r.None? || key in old(cache.items) then cache.items == old(cache.items)
              else C.Inserted(cache.policy, old(cache.items), key, r.value, cache.items, cache.size)
      ensures old(Agrees(cache.items, prefix, db.rows)) ==>
                r == At(db.rows, prefix + key) && Agrees(cache.items, prefix, db.rows)
      ensures key !in old(cache.items) && r.Some? ==>
                var s, full := old(AsState(DirectWriter(db), ctx)), prefix + key;
                && Enabled(s, Action.Fetch(full)) && Enabled(Next(s, Action.Fetch(full)), Fill(|s.fetched|))
                && UpToEviction(AsState(DirectWriter(db), ctx).(fetched := s.fetched + [Fetched(full, r.value, true)]),
                                Next(Next(s, Action.Fetch(full)), Fill(|s.fetched|)))
    {
      if key in cache.items {
        return Some(cache.items[key]);
      }
      if prefix + key in db.rows {
        var data := db.rows[prefix + key];
        cache.Insert(key, data);
        MissIsTwoSteps(old(AsState(DirectWriter(db), ctx)), old(cache.items), cache.items, key);
        return Some(data);
      }
      return None;
    }

    /** A read that falls back to another prefix caches what it finds there under the primary key, so the cache goes on
        agreeing with the primary rows exactly when the fallback was not used or its value was evicted at once. */
    method ReadWithFallback(fallback: Bytes, key: Bytes, convert: V -> V) returns (r: Option<V>)
      requires Valid()
      modifies cache
      ensures Valid()
      ensures r == if key in old(cache.items) then Some(old(cache.items)[key])
                   else if prefix + key in db.rows then Some(db.rows[prefix + key])
                   else if fallback + key in db.rows then Some(convert(db.rows[fallback + key]))
                   else None
      ensures r.Some? ==> C.PartOf(cache.items, old(cache.items)[key := r.value])
      ensures if r.None? || key in old(cache.items) then cache.items == old(cache.items)
              else C.Inserted(cache.policy, old(cache.items), key, r.value, cache.items, cache.size)
      ensures old(AgreesWithFallback(cache.items, prefix, fallback, convert, db.rows)) ==>
                && r == WithFallback(db.rows, prefix, fallback, key, convert)
                && AgreesWithFallback(cache.items, prefix, fallback, convert, db.rows)
      ensures old(Agrees(cache.items, prefix, db.rows)) ==>
                (Agrees(cache.items, prefix, db.rows) <==>
                   prefix + key in db.rows || fallback + key !in db.rows || key !in cache.items)
    {
      if key in cache.items {
        return Some(cache.items[key]);
      }
      if prefix + key in db.rows {
        var data := db.rows[prefix + key];
        cache.Insert(key, data);
        return Some(data);
      }
      if fallback + key in db.rows {
        var data := convert(db.rows[fallback + key]);
        cache.Insert(key, data);
        return Some(data);
      }
      return None;
    }

    method Write(w: Writer<V>, key: Bytes, data: V, ghost ctx: Context<V>)
      requires Valid() && Suits(w) && InContext(w, ctx)
      modifies cache, Changed(w)
      ensures Valid()
      ensures C.PartOf(cache.items, old(cache.items)[key := data])
      ensures C.Inserted(cache.policy, old(cache.items), key, data, cache.items, cache.size)
      ensures Held(w) == Issued(old(Held(w)), w.DirectWriter?, [Put(prefix + key, data)])
      ensures old(Agrees(cache.items, prefix, Effective(Held(w)))) ==> Agrees(cache.items, prefix, Effective(Held(w)))
      ensures Own(prefix, prefix + key)
      ensures UpToEviction(AsState(w, ctx), Next(old(AsState(w, ctx)), Action.Write(TargetOf(w, ctx), prefix + key, data)))
    {
      hide Apply, Next, UpToEviction, FullKeys, Own, Agrees, Issued, Seen, Performed;
      ghost var t, s := TargetOf(w, ctx), AsState(w, ctx);
      var put := [Put(prefix + key, data)];
      cache.Insert(key, data);
      SeenIssued(ctx, t, prefix, Held(w), old(cache.items), put, cache.items);
      WriteIsStep(s, t, old(cache.items), cache.items, key, data);
      if Agrees(old(cache.items), prefix, Effective(Held(w))) {
        PutAgrees(old(cache.items), cache.items, prefix, Effective(Held(w)), key, data);
      }
      IssueHere(w, put);
    }

    /** All entries go to the cache first, then all of them to the writer. */
    method WriteMany(w: Writer<V>, entries: seq<(Bytes, V)>, ghost ctx: Context<V>)
      requires Valid() && Suits(w) && InContext(w, ctx)
      modifies cache, Changed(w)
      ensures Valid()
      ensures C.PartOf(cache.items, PutAll(old(cache.items), entries))
      ensures entries != [] && !cache.policy.tracked && cache.policy.maxSize > 0 ==>
                var (key, data) := entries[|entries| - 1]; key in cache.items && cache.items[key] == data
      ensures Held(w) == Issued(old(Held(w)), w.DirectWriter?, Puts(Full(prefix, entries)))
      ensures old(Agrees(cache.items, prefix, Effective(Held(w)))) ==> Agrees(cache.items, prefix, Effective(Held(w)))
      ensures UpToEviction(AsState(w, ctx), Played(old(AsState(w, ctx)), Writes(TargetOf(w, ctx), Full(prefix, entries))))
    {
      hide Apply, Played, FullKeys, Agrees, Issued, Seen, Performed;
      ghost var t, s, before := TargetOf(w, ctx), AsState(w, ctx), Held(w);
      var full := Full(prefix, entries);
      cache.InsertMany(entries);
      IssueHere(w, Puts(full));
      SeenIssued(ctx, t, prefix, before, old(cache.items), Puts(full), cache.items);
      OwnFull(prefix, entries);
      WritesPlayed(s, t, full);
      FullKeysPutAll(old(cache.items), prefix, entries);
      FullKeysPart(cache.items, PutAll(old(cache.items), entries), prefix);
      if Agrees(old(cache.items), prefix, Effective(before)) {
        PutAllAgrees(old(cache.items), prefix, Effective(before), entries);
        AgreesPart(cache.items, PutAll(old(cache.items), entries), prefix, Effective(Held(w)));
      }
    }

    /** Writes past the cache, which is then emptied. */
    method WriteManyWithoutCache(w: Writer<V>, entries: seq<(Bytes, V)>, ghost ctx: Context<V>)
      requires Valid() && Suits(w) && InContext(w, ctx)
      modifies cache, Changed(w)
      ensures Valid() && cache.items == map[]
      ensures Held(w) == Issued(old(Held(w)), w.DirectWriter?, Puts(Full(prefix, entries)))
      ensures UpToEviction(AsState(w, ctx), Played(old(AsState(w, ctx)), Overwrites(TargetOf(w, ctx), Full(prefix, entries))))
    {
      hide Apply, Played, FullKeys, Issued, Seen, Performed;
      ghost var t, s, before := TargetOf(w, ctx), AsState(w, ctx), Held(w);
      var full := Full(prefix, entries);
      IssueHere(w, Puts(full));
      cache.RemoveAll();
      SeenIssued(ctx, t, prefix, before, old(cache.items), Puts(full), map[]);
      OwnFull(prefix, entries);
      OverwritesPlayed(s, t, full);
      NoKeys<V>(prefix);
    }

    method Delete(w: Writer<V>, key: Bytes, ghost ctx: Context<V>)
      requires Valid() && Suits(w) && InContext(w, ctx)
      modifies cache, Changed(w)
      ensures Valid() && cache.items == Without(old(cache.items), key)
      ensures Held(w) == Issued(old(Held(w)), w.DirectWriter?, [Op.Delete(prefix + key)])
      ensures old(Agrees(cache.items, prefix, Effective(Held(w)))) ==> Agrees(cache.items, prefix, Effective(Held(w)))
      ensures Own(prefix, prefix + key)
      ensures AsState(w, ctx) == Next(old(AsState(w, ctx)), Action.Remove(TargetOf(w, ctx), prefix + key))
    {
      hide Apply, Next, FullKeys, Own, Agrees, Issued, Seen, Performed;
      ghost var t, s := TargetOf(w, ctx), AsState(w, ctx);
      var delete := [Op.Delete(prefix + key)];
      var _ := cache.Remove(key);
      SeenIssued(ctx, t, prefix, Held(w), old(cache.items), delete, cache.items);
      RemoveIsStep(s, t, old(cache.items), key);
      if Agrees(old(cache.items), prefix, Effective(Held(w))) {
        DeleteAgrees(old(cache.items), prefix, Effective(Held(w)), key);
      }
      IssueHere(w, delete);
    }

    /** All keys leave the cache first, then the writer is told to delete them. */
    method DeleteMany(w: Writer<V>, keys: seq<Bytes>, ghost ctx: Context<V>)
      requires Valid() && Suits(w) && InContext(w, ctx)
      modifies cache, Changed(w)
      ensures Valid() && cache.items == WithoutAll(old(cache.items), keys)
      ensures Held(w) == Issued(old(Held(w)), w.DirectWriter?, Deletes(FullNames(prefix, keys)))
      ensures forall x :: At(Effective(Held(w)), x)
                == if prefix <= x && x[|prefix|..] in keys then None else At(old(Effective(Held(w))), x)
      ensures AsState(w, ctx) == Played(old(AsState(w, ctx)), Removes(TargetOf(w, ctx), FullNames(prefix, keys)))
    {
      hide Apply, ApplyOp, Played, FullKeys, Issued, Seen, Performed;
      ghost var t, s, before := TargetOf(w, ctx), AsState(w, ctx), Held(w);
      for i := 0 to |keys|
        invariant Valid() && cache.items == WithoutAll(old(cache.items), keys[..i])
        invariant Held(w) == before
      {
        var _ := cache.Remove(keys[i]);
        assert keys[..i + 1][..i] == keys[..i];
      }
      assert keys[..|keys|] == keys;
      var full := FullNames(prefix, keys);
      IssueHere(w, Deletes(full));
      SeenIssued(ctx, t, prefix, before, old(cache.items), Deletes(full), cache.items);
      RemovesPlayed(s, t, full);
      FullKeysWithoutAll(old(cache.items), prefix, keys);
      forall x
        ensures At(Effective(Held(w)), x) == if prefix <= x && x[|prefix|..] in keys then None else At(Effective(before), x)
      {
        DeletesAt(Effective(before), prefix, keys, x);
      }
    }

    /** Empties the store and leaves every other row alone. The source unwraps the upper bound of the
        prefix range, which is the precondition. */
    method DeleteAll(w: Writer<V>, ghost ctx: Context<V>)
      requires Valid() && Suits(w) && InContext(w, ctx) && Successor(prefix).Some?
      modifies cache, Changed(w)
      ensures Valid() && cache.items == map[]
      ensures Held(w) == Issued(old(Held(w)), w.DirectWriter?, [ClearOp(prefix)])
      ensures forall key :: At(Effective(Held(w)), key) == if prefix <= key then None else At(old(Effective(Held(w))), key)
      ensures AsState(w, ctx) == Next(old(AsState(w, ctx)), Action.Clear(TargetOf(w, ctx)))
    {
      hide ApplyOp, Apply, FullKeys, Issued, Seen, Next, Performed;
      ghost var t, s, before := TargetOf(w, ctx), AsState(w, ctx), Held(w);
      cache.RemoveAll();
      IssueHere(w, [ClearOp(prefix)]);
      SeenIssued(ctx, t, prefix, before, old(cache.items), [ClearOp(prefix)], map[]);
      NoKeys<V>(prefix);
      ClearIsStep(s, t);
      forall key
        ensures At(Effective(Held(w)), key) == if prefix <= key then None else At(Effective(before), key)
      {
        OneOp(Effective(before), ClearOp(prefix));
        ClearEmptiesOwnStore(Effective(before), prefix, key);
      }
    }
  }
}
