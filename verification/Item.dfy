/** `CachedDbItem` (item.rs): one DB key with a cached value that is never evicted. */
module Item {
  import opened Util
  import opened Bytes
  import opened Store
  import opened Access
  import K = Calls

  /** The item as a reader sees it: the committed row, what the open batch will leave (if it touches the
      key), and the cached value. */
  datatype View<T> = View(row: Option<T>, staged: Option<Option<T>>, cached: Option<T>)

  datatype Command<!T> =
    | Get
    | Set(direct: bool, value: T)
    | Unset(direct: bool)
    | Modify(direct: bool, op: T -> T)
    | CommitBatch

  /** The value a plain item would have once the open batch is committed. */
  function Effective<T>(s: View<T>): Option<T> {
    if s.staged.Some? then s.staged.value else s.row
  }

  function Stored<T>(s: View<T>, direct: bool, v: Option<T>): View<T> {
    if direct then s.(row := v, cached := v) else s.(staged := Some(v), cached := v)
  }

  /** The value `read` and `update` start from. */
  function Current<T>(s: View<T>): Option<T> {
    if s.cached.Some? then s.cached else s.row
  }

  function Run<T>(s: View<T>, c: Command<T>): View<T> {
    match c
    case Get => s.(cached := Current(s))
    case Set(direct, v) => Stored(s, direct, Some(v))
    case Unset(direct) => Stored(s, direct, None)
    case Modify(direct, op) =>
      if Current(s).None? then s else Stored(s, direct, Some(op(Current(s).value)))
    case CommitBatch => View(Effective(s), None, s.cached)
  }

  /** The rest of the world: other readers, the calls in progress, and the open batches, the writer's one at `slot`. */
  datatype World<T> = World(machine: K.Calling<T>, slot: nat) {
    /** With one more reader that has fetched a row. */
    ghost function Reading(key: Bytes, item: T): World<T> {
      var s := machine.store;
      World(machine.(store := s.(fetched := s.fetched + [Fetched(key, item, false)])), slot)
    }

    /** With one more call in progress. */
    ghost function Calling(t: Target, op: Op<T>): World<T> {
      World(machine.(calls := machine.calls + [K.Call(t, [op], 0, false, false)]), slot)
    }
  }

  ghost predicate InWorld<T>(w: Writer<T>, world: World<T>) {
    w.BatchWriter? ==> world.slot < |world.machine.store.pending|
  }

  ghost function PlaceOf<T>(w: Writer<T>, world: World<T>): Target {
    if w.DirectWriter? then Direct else Target.Batch(world.slot)
  }

  ghost function Placed<T>(world: World<T>, direct: bool, key: Bytes, rows: Rows<T>, ops: seq<Op<T>>,
                           cached: Option<T>): K.Calling<T>
    requires !direct ==> world.slot < |world.machine.store.pending|
  {
    var s := world.machine.store;
    world.machine.(store := s.(prefix := key, rows := rows,
                               pending := if direct then s.pending else s.pending[world.slot := ops],
                               cache := if cached.Some? then map[key := cached.value] else map[]))
  }

  lemma PutOne<T>(cache: map<Bytes, T>, key: Bytes, item: T)
    requires cache.Keys <= {key}
    ensures PutAll(cache, [(key, item)]) == map[key := item]
  {
    var entries := [(key, item)];
    assert entries[..0] == [];
    assert PutAll(cache, entries) == PutAll(cache, [])[key := item] == cache[key := item];
  }

  /** A write does not care what was cached before. */
  lemma Overwritten<T>(world: World<T>, t: Target, key: Bytes, rows: Rows<T>, ops: seq<Op<T>>, cached: Option<T>, item: T)
    requires t.Batch? ==> t.index == world.slot < |world.machine.store.pending|
    ensures var s, e := Placed(world, t.Direct?, key, rows, ops, cached), K.BeginWrite(t, [(key, item)]);
            var s0 := Placed(world, t.Direct?, key, rows, ops, None);
            && s.calls == s0.calls == world.machine.calls
            && K.Enabled(s, e) && K.Enabled(s0, e) && K.Next(s, e) == K.Next(s0, e)
  {
    hide PutAll;
    PutOne(Placed(world, t.Direct?, key, rows, ops, cached).store.cache, key, item);
    PutOne(map[], key, item);
  }

  class CachedDbItem<T> {
    const db: Db<T>
    const key: Bytes
    var cachedItem: Option<T>

    constructor (db: Db<T>, key: Bytes)
      ensures this.db == db && this.key == key && cachedItem.None?
    {
      this.db, this.key, cachedItem := db, key, None;
    }

    ghost function Seen(w: Writer<T>): View<T>
      reads this, db, if w.BatchWriter? then {w.batch} else {}
    {
      View(At(db.rows, key),
           if w.BatchWriter? && Staged(w.batch.ops, key) then Some(Leaves(w.batch.ops, key)) else None,
           cachedItem)
    }

    /** The item as the only key of a store whose calls are taken apart, among its other readers, writers and batches. */
    ghost function AsCalling(w: Writer<T>, world: World<T>): K.Calling<T>
      requires InWorld(w, world)
      reads this, db, if w.BatchWriter? then {w.batch} else {}
    {
      Placed(world, w.DirectWriter?, key, db.rows, if w.BatchWriter? then w.batch.ops else [], cachedItem)
    }

    /** The second half of `read`, after the row was fetched. */
    method Fill(item: T, ghost w: Writer<T>, ghost world: World<T>, ghost i: nat)
      requires InWorld(w, world) && i < |world.machine.store.fetched|
      requires world.machine.store.fetched[i] == Fetched(key, item, false)
      modifies this
      ensures cachedItem == Some(item)
      ensures var s, e := old(AsCalling(w, world)), K.Step(Action.Fill(i));
              K.Enabled(s, e) && K.Next(s, e).calls == s.calls
              && K.Next(s, e).store == AsCalling(w, world).store.(fetched := s.store.fetched[i := Fetched(key, item, true)])
    {
      cachedItem := Some(item);
    }

    /** The first half of `write`. */
    method CacheItem(item: T, ghost w: Writer<T>, ghost world: World<T>)
      requires InWorld(w, world)
      modifies this
      ensures cachedItem == Some(item)
      ensures var s, t := old(AsCalling(w, world)), PlaceOf(w, world);
              && K.Enabled(s, K.BeginWrite(t, [(key, item)]))
              && K.Next(s, K.BeginWrite(t, [(key, item)]))
                 == AsCalling(w, world).(calls := s.calls + [K.Call(t, [Put(key, item)], 0, false, false)])
    {
      ghost var entries := [(key, item)];
      assert entries[..0] == [] && Puts(entries) == [Put(key, item)];
      cachedItem := Some(item);
      assert map[key := item] == PutAll(old(AsCalling(w, world)).store.cache, entries);
    }

    /** The first half of `remove`. */
    method DropItem(ghost w: Writer<T>, ghost world: World<T>)
      requires InWorld(w, world)
      modifies this
      ensures cachedItem == None
      ensures var s, t := old(AsCalling(w, world)), PlaceOf(w, world);
              && K.Enabled(s, K.BeginRemove(t, [key]))
              && K.Next(s, K.BeginRemove(t, [key]))
                 == AsCalling(w, world).(calls := s.calls + [K.Call(t, [Op.Delete(key)], 0, false, false)])
    {
      assert [key][..0] == [] && Deletes<T>([key]) == [Op.Delete(key)];
      cachedItem := None;
      assert map[] == WithoutAll(old(AsCalling(w, world)).store.cache, [key]);
    }

    /** The second half of `write` and `remove`: call `j` hands its operation to the writer. */
    method Hand(w: Writer<T>, op: Op<T>, ghost world: World<T>, ghost j: nat)
      requires (w.DirectWriter? ==> w.db == db) && Touches(op, key) && InWorld(w, world)
      modifies Changed(w)
      ensures w.DirectWriter? ==> At(db.rows, key) == OpValue(op)
      ensures w.BatchWriter? ==> db.rows == old(db.rows) && w.batch.ops == old(w.batch.ops) + [op]
      ensures j < |world.machine.calls| && world.machine.calls[j] == K.Call(PlaceOf(w, world), [op], 0, false, false) ==>
                var s := old(AsCalling(w, world));
                && K.Enabled(s, K.Issue(j))
                && K.Next(s, K.Issue(j)) == AsCalling(w, world).(calls := s.calls[j := s.calls[j].(issued := 1)])
    {
      if w.DirectWriter? {
        ApplyOpAt(w.db.rows, op, key);
      }
      Issue(w, op);
    }

    method Read(ghost w: Writer<T>, ghost world: World<T>) returns (r: Option<T>)
      requires InWorld(w, world)
      modifies this
      ensures r == old(Current(Seen(w))) && Seen(w) == Run(old(Seen(w)), Get)
      ensures old(cachedItem).None? && r.Some? ==>
                var s := old(AsCalling(w, world));
                && K.Enabled(s, K.Step(Fetch(key)))
                && K.Enabled(K.Next(s, K.Step(Fetch(key))), K.Step(Action.Fill(|s.store.fetched|)))
                && K.Next(K.Next(s, K.Step(Fetch(key))), K.Step(Action.Fill(|s.store.fetched|))).store
                   == AsCalling(w, world).store.(fetched := s.store.fetched + [Fetched(key, r.value, true)])
    {
      if cachedItem.Some? {
        return cachedItem;
      }
      if key in db.rows {
        var item := db.rows[key];
        Fill(item, w, world.Reading(key, item), |world.machine.store.fetched|);
        ghost var fetched := world.machine.store.fetched;
        assert (fetched + [Fetched(key, item, false)])[|fetched| := Fetched(key, item, true)]
               == fetched + [Fetched(key, item, true)];
        return cachedItem;
      }
      return None;
    }

    method Write(w: Writer<T>, item: T, ghost world: World<T>)
      requires (w.DirectWriter? ==> w.db == db) && InWorld(w, world)
      modifies this, Changed(w)
      ensures Seen(w) == Run(old(Seen(w)), Set(w.DirectWriter?, item))
      ensures var s, e := old(AsCalling(w, world)), K.BeginWrite(PlaceOf(w, world), [(key, item)]);
              && K.Enabled(s, e) && K.Enabled(K.Next(s, e), K.Issue(|s.calls|))
              && K.Next(K.Next(s, e), K.Issue(|s.calls|)).store == AsCalling(w, world).store
    {
      if w.BatchWriter? { StagedMore(w.batch.ops, Put(key, item), key); }
      CacheItem(item, w, world);
      Hand(w, Put(key, item), world.Calling(PlaceOf(w, world), Put(key, item)), |world.machine.calls|);
    }

    method Remove(w: Writer<T>, ghost world: World<T>)
      requires (w.DirectWriter? ==> w.db == db) && InWorld(w, world)
      modifies this, Changed(w)
      ensures Seen(w) == Run(old(Seen(w)), Unset(w.DirectWriter?))
      ensures var s, e := old(AsCalling(w, world)), K.BeginRemove(PlaceOf(w, world), [key]);
              && K.Enabled(s, e) && K.Enabled(K.Next(s, e), K.Issue(|s.calls|))
              && K.Next(K.Next(s, e), K.Issue(|s.calls|)).store == AsCalling(w, world).store
    {
      if w.BatchWriter? { StagedMore(w.batch.ops, Op.Delete(key), key); }
      DropItem(w, world);
      Hand(w, Op.Delete(key), world.Calling(PlaceOf(w, world), Op.Delete(key)), |world.machine.calls|);
    }

    /** The lock on the cached value is held throughout, so the two halves of the write inside have no other step of the
        cache between them. */
    method Update(w: Writer<T>, op: T -> T, ghost world: World<T>) returns (r: Option<T>)
      requires (w.DirectWriter? ==> w.db == db) && InWorld(w, world)
      modifies this, Changed(w)
      ensures Seen(w) == Run(old(Seen(w)), Modify(w.DirectWriter?, op))
      ensures r == if old(Current(Seen(w))).Some? then Some(op(old(Current(Seen(w))).value)) else None
      ensures r.Some? ==>
                var s, e := old(AsCalling(w, world)), K.BeginWrite(PlaceOf(w, world), [(key, r.value)]);
                && K.Enabled(s, e) && K.Enabled(K.Next(s, e), K.Issue(|s.calls|))
                && K.Next(K.Next(s, e), K.Issue(|s.calls|)).store == AsCalling(w, world).store
    {
      hide K.Next, K.Enabled, Placed;
      var item: T;
      if cachedItem.Some? {
        item := cachedItem.value;
        cachedItem := None;
      } else if key in db.rows {
        item := db.rows[key];
      } else {
        return None;
      }
      item := op(item);
      ghost var ops := if w.BatchWriter? then w.batch.ops else [];
      Overwritten(world, PlaceOf(w, world), key, db.rows, ops, old(cachedItem), item);
      Overwritten(world, PlaceOf(w, world), key, db.rows, ops, cachedItem, item);
      Write(w, item, world);
      return Some(item);
    }
  }

  /** The cached value is the one a plain item would have. */
  ghost predicate Coherent<T>(s: View<T>) {
    s.cached.Some? ==> s.cached == Effective(s)
  }

  /** Since nothing is evicted, a staged value is always cached; only a staged removal is not. */
  ghost predicate StagedIsCached<T>(s: View<T>) {
    s.staged.Some? ==> s.cached == s.staged.value
  }

  /** The only rules a caller has to keep: nothing goes straight to the DB while the key is staged, and
      nothing reads the item between a staged removal and its commit. */
  predicate Allowed<T>(s: View<T>, c: Command<T>) {
    match c
    case Get => s.staged != Some(None)
    case Set(direct, _) => !direct || s.staged.None?
    case Unset(direct) => !direct || s.staged.None?
    case Modify(direct, _) => s.staged != Some(None) && (!direct || s.staged.None?)
    case CommitBatch => true
  }

  function After<T>(row: Option<T>, cs: seq<Command<T>>, n: nat): View<T>
    requires n <= |cs|
  {
    if n == 0 then View(row, None, None) else Run(After(row, cs, n - 1), cs[n - 1])
  }

  /** The same commands on a plain item without a cache or a batch. */
  function Plain<T>(row: Option<T>, cs: seq<Command<T>>, n: nat): Option<T>
    requires n <= |cs|
  {
    if n == 0 then row
    else
      var v := Plain(row, cs, n - 1);
      match cs[n - 1]
      case Get => v
      case Set(_, w) => Some(w)
      case Unset(_) => None
      case Modify(_, op) => if v.Some? then Some(op(v.value)) else None
      case CommitBatch => v
  }

  ghost predicate AllowedRun<T>(row: Option<T>, cs: seq<Command<T>>, n: nat)
    requires n <= |cs|
  {
    forall m :: 0 <= m < n ==> Allowed(After(row, cs, m), cs[m])
  }

  /**
   * For every allowed sequence of reads, writes, removals, updates and commits, direct or staged, the
   * item behaves as a plain one: the cached value is the plain value, a read that is allowed next gives
   * the plain value, and after a commit the row is the plain value.
   */
  lemma {:induction false} ItemIsTransparent<T>(row: Option<T>, cs: seq<Command<T>>, n: nat)
    requires n <= |cs|
    ensures AllowedRun(row, cs, n) ==>
              var s := After(row, cs, n);
              && Coherent(s) && StagedIsCached(s)
              && Effective(s) == Plain(row, cs, n)
              && (s.staged != Some(None) ==> Current(s) == Plain(row, cs, n))
              && (s.staged.None? ==> s.row == Plain(row, cs, n))
  {
    if n > 0 && AllowedRun(row, cs, n) {
      ItemIsTransparent(row, cs, n - 1);
      assert Allowed(After(row, cs, n - 1), cs[n - 1]);
    }
  }

  /** Which single commands keep a coherent item coherent, exactly. */
  lemma StepExact<T>(s: View<T>, c: Command<T>)
    requires Coherent(s) && StagedIsCached(s)
    ensures Coherent(Run(s, c)) <==>
              match c
              case Get => s.staged == Some(None) ==> s.row.None?
              case Set(direct, v) => direct ==> s.staged.None? || s.staged.value == Some(v)
              case Unset(_) => true
              case Modify(direct, op) =>
                direct && Current(s).Some? ==> s.staged.None? || s.staged.value == Some(op(Current(s).value))
              case CommitBatch => true
  {
  }

  /** A read between a staged removal and its commit resurrects the removed value for good. */
  lemma ReadResurrectsRemoved<T>(v: T)
    ensures var s := After(Some(v), [Unset(false), Get, CommitBatch], 3);
            s.row.None? && Current(s) == Some(v)
  {
    var cs: seq<Command<T>> := [Unset(false), Get, CommitBatch];
    assert After(Some(v), cs, 1) == View(Some(v), Some(None), None);
    assert After(Some(v), cs, 2) == View(Some(v), Some(None), Some(v));
  }
}
