/**
 * A cached store over RocksDB (access.rs, writer.rs) as a state machine: committed rows, write batches
 * that have not been committed, the cache, and values a reader has fetched but not yet cached.
 * A read that misses the cache is two steps, the DB fetch and the cache fill, because the source holds no
 * lock in between. Each write call is one step here; module Calls takes the halves of writes apart as well.
 * Eviction is a step of its own that may happen at any time to any keys, which covers every cache policy
 * and every random choice.
 */
module Store {
  import opened Util
  import opened Bytes

  datatype Op<V> =
    | Put(key: Bytes, value: V)
    | Delete(key: Bytes)
    | DeleteRange(from: Bytes, to: Bytes)

  type Rows<V> = map<Bytes, V>

  function At<V>(m: map<Bytes, V>, key: Bytes): Option<V> {
    if key in m then Some(m[key]) else None
  }

  predicate Touches<V>(op: Op<V>, key: Bytes) {
    match op
    case Put(k, _) => k == key
    case Delete(k) => k == key
    case DeleteRange(from, to) => InRange(key, from, Some(to))
  }

  function ApplyOp<V>(rows: Rows<V>, op: Op<V>): Rows<V> {
    match op
    case Put(k, v) => rows[k := v]
    case Delete(k) => Without(rows, k)
    case DeleteRange(from, to) => map x | x in rows && !InRange(x, from, Some(to)) :: rows[x]
  }

  /** Committing a batch applies its operations in order. */
  function Apply<V>(rows: Rows<V>, ops: seq<Op<V>>): Rows<V> {
    if ops == [] then rows else ApplyOp(Apply(rows, ops[..|ops| - 1]), ops[|ops| - 1])
  }

  predicate Staged<V>(ops: seq<Op<V>>, key: Bytes) {
    exists i :: 0 <= i < |ops| && Touches(ops[i], key)
  }

  /** What the last operation of a batch that touches `key` leaves there. */
  function Leaves<V>(ops: seq<Op<V>>, key: Bytes): Option<V> {
    if ops == [] then None
    else
      var op := ops[|ops| - 1];
      if Touches(op, key) then (if op.Put? then Some(op.value) else None)
      else Leaves(ops[..|ops| - 1], key)
  }

  /** The meaning of a batch, key by key: touched keys get what the batch leaves, others are unchanged. */
  lemma {:induction false} ApplyAt<V>(rows: Rows<V>, ops: seq<Op<V>>, key: Bytes)
    ensures At(Apply(rows, ops), key) == if Staged(ops, key) then Leaves(ops, key) else At(rows, key)
  {
    if ops != [] {
      var n := |ops| - 1;
      ApplyAt(rows, ops[..n], key);
      if !Touches(ops[n], key) {
        assert Staged(ops, key) <==> Staged(ops[..n], key) by {
          assert forall i :: 0 <= i < n ==> ops[i] == ops[..n][i];
        }
      }
    }
  }

  lemma StagedMore<V>(ops: seq<Op<V>>, op: Op<V>, key: Bytes)
    ensures Staged(ops + [op], key) <==> Staged(ops, key) || Touches(op, key)
    ensures Leaves(ops + [op], key)
         == if Touches(op, key) then (if op.Put? then Some(op.value) else None) else Leaves(ops, key)
  {
    var more := ops + [op];
    assert more[..|ops|] == ops && more[|ops|] == op;
    assert forall i :: 0 <= i < |ops| ==> more[i] == ops[i];
  }

  function OpValue<V>(op: Op<V>): Option<V> {
    if op.Put? then Some(op.value) else None
  }

  /** The puts of a list of entries. */
  function Puts<V>(entries: seq<(Bytes, V)>): (ops: seq<Op<V>>)
    ensures |ops| == |entries|
  {
    seq(|entries|, i requires 0 <= i < |entries| => Put(entries[i].0, entries[i].1))
  }

  /** The deletions of a list of keys. */
  function Deletes<V>(keys: seq<Bytes>): (ops: seq<Op<V>>)
    ensures |ops| == |keys|
  {
    seq(|keys|, i requires 0 <= i < |keys| => Delete(keys[i]))
  }

  lemma ApplyOpAt<V>(rows: Rows<V>, op: Op<V>, key: Bytes)
    ensures At(ApplyOp(rows, op), key) == if Touches(op, key) then OpValue(op) else At(rows, key)
  {
  }

  // ---- The machine ----

  /** A value a reader took from the DB; `filled` once it has gone into the cache. */
  datatype Fetched<V> = Fetched(key: Bytes, value: V, filled: bool)

  /** Keys are full DB keys. `cache` is the cache of the store with prefix `prefix`. */
  datatype State<V> = State(
    prefix: Bytes,
    rows: Rows<V>,
    pending: seq<seq<Op<V>>>,
    cache: map<Bytes, V>,
    fetched: seq<Fetched<V>>)

  /** Where a write goes: straight to the DB, or into one of the open batches. */
  datatype Target = Direct | Batch(index: nat)

  /** `Overwrite` is a write that leaves its key out of the cache. */
  datatype Action<V> =
    | Fetch(key: Bytes)
    | Fill(index: nat)
    | Write(target: Target, key: Bytes, value: V)
    | Overwrite(target: Target, key: Bytes, value: V)
    | Remove(target: Target, key: Bytes)
    | Clear(target: Target)
    | Foreign(target: Target, op: Op<V>)
    | Open
    | Commit(index: nat)
    | Evict(keys: set<Bytes>)

  /** The store's own keys. */
  predicate Own(prefix: Bytes, key: Bytes) {
    prefix <= key
  }

  /** An action that can be taken in this state: batches and fetched values exist (a reader may have looked into the
      cache long before it fetches), keys carry the store prefix, other users of the DB keep off them, and the upper
      bound `delete_all` unwraps exists. */
  ghost predicate Enabled<V>(s: State<V>, a: Action<V>) {
    match a
    case Fetch(key) => Own(s.prefix, key) && key in s.rows
    case Fill(i) => i < |s.fetched| && !s.fetched[i].filled
    case Write(t, key, _) => Own(s.prefix, key) && Exists(s, t)
    case Overwrite(t, key, _) => Own(s.prefix, key) && Exists(s, t)
    case Remove(t, key) => Own(s.prefix, key) && Exists(s, t)
    case Clear(t) => Exists(s, t) && Successor(s.prefix).Some?
    case Foreign(t, op) => Exists(s, t) && forall key :: Own(s.prefix, key) ==> !Touches(op, key)
    case Open => true
    case Commit(i) => i < |s.pending|
    case Evict(_) => true
  }

  predicate Exists<V>(s: State<V>, t: Target) {
    t.Batch? ==> t.index < |s.pending|
  }

  function Perform<V>(s: State<V>, t: Target, op: Op<V>): State<V>
    requires Exists(s, t)
  {
    match t
    case Direct => s.(rows := ApplyOp(s.rows, op))
    case Batch(i) => s.(pending := s.pending[i := s.pending[i] + [op]])
  }

  function ClearOp<V>(prefix: Bytes): Op<V>
    requires Successor(prefix).Some?
  {
    DeleteRange(prefix, Successor(prefix).value)
  }

  /** A committed batch is spent; its place stays empty. */
  ghost function Next<V>(s: State<V>, a: Action<V>): State<V>
    requires Enabled(s, a)
  {
    match a
    case Fetch(key) => s.(fetched := s.fetched + [Fetched(key, s.rows[key], false)])
    case Fill(i) =>
      s.(cache := s.cache[s.fetched[i].key := s.fetched[i].value],
         fetched := s.fetched[i := s.fetched[i].(filled := true)])
    case Write(t, key, v) => Perform(s.(cache := s.cache[key := v]), t, Put(key, v))
    case Overwrite(t, key, v) => Perform(s.(cache := Without(s.cache, key)), t, Put(key, v))
    case Remove(t, key) => Perform(s.(cache := Without(s.cache, key)), t, Delete(key))
    case Clear(t) => Perform(s.(cache := map[]), t, ClearOp(s.prefix))
    case Foreign(t, op) => Perform(s, t, op)
    case Open => s.(pending := s.pending + [[]])
    case Commit(i) => s.(rows := Apply(s.rows, s.pending[i]), pending := s.pending[i := []])
    case Evict(keys) => s.(cache := map k | k in s.cache && k !in keys :: s.cache[k])
  }

  // ---- What a key shows ----

  ghost predicate Unstaged<V>(s: State<V>, key: Bytes) {
    forall b :: 0 <= b < |s.pending| ==> !Staged(s.pending[b], key)
  }

  /** Every open batch that stages the key, apart from `t`, leaves `v`. */
  ghost predicate OthersLeave<V>(s: State<V>, t: Target, key: Bytes, v: Option<V>) {
    forall b :: 0 <= b < |s.pending| && t != Batch(b) && Staged(s.pending[b], key) ==> Leaves(s.pending[b], key) == v
  }

  /** `key` shows `v`: every batch that stages it leaves `v`, and with no such batch the DB holds `v`. */
  ghost predicate Shows<V>(s: State<V>, key: Bytes, v: Option<V>) {
    OthersLeave(s, Direct, key, v) && (Unstaged(s, key) ==> At(s.rows, key) == v)
  }

  /** Each cached value is the committed one for unstaged keys and the last staged one otherwise. */
  ghost predicate Coherent<V>(s: State<V>) {
    forall key :: key in s.cache ==> Shows(s, key, Some(s.cache[key]))
  }

  ghost predicate OwnKeys<V>(s: State<V>) {
    && (forall key :: key in s.cache ==> Own(s.prefix, key))
    && (forall i :: 0 <= i < |s.fetched| ==> Own(s.prefix, s.fetched[i].key))
  }

  lemma ShowsIgnores<V>(s: State<V>, s': State<V>, key: Bytes, v: Option<V>)
    requires s'.rows == s.rows && s'.pending == s.pending
    ensures Shows(s', key, v) <==> Shows(s, key, v)
    ensures Unstaged(s', key) <==> Unstaged(s, key)
  {
  }

  /** What an operation does to what a key shows: nothing to a key it does not touch, nothing to a staged key when it
      goes straight to the DB, and else it shows the operation's value as far as the other batches agree. */
  lemma PerformShows<V>(s: State<V>, t: Target, op: Op<V>, key: Bytes, v: Option<V>)
    requires Exists(s, t)
    ensures var s' := Perform(s, t, op);
            && (Unstaged(s', key) <==> Unstaged(s, key) && !(t.Batch? && Touches(op, key)))
            && (Shows(s', key, v) <==>
                  if !Touches(op, key) || (t.Direct? && !Unstaged(s, key)) then Shows(s, key, v)
                  else v == OpValue(op) && OthersLeave(s, t, key, v))
  {
    hide Staged, Leaves, Touches, ApplyOp;
    var s' := Perform(s, t, op);
    match t
    case Direct => ApplyOpAt(s.rows, op, key);
    case Batch(i) =>
      StagedMore(s.pending[i], op, key);
      assert s'.pending[i] == s.pending[i] + [op];
      assert forall b :: 0 <= b < |s.pending| && b != i ==> s'.pending[b] == s.pending[b];
      if Touches(op, key) {
        assert Staged(s'.pending[i], key);
      }
  }

  lemma NothingStaged<V>(key: Bytes)
    ensures !Staged<V>([], key)
  {
  }

  /** A commit carries out its batch once: every touched row is what the batch leaves there, the batch stages nothing any
      more, the others are as they were, and committing it again does nothing. */
  lemma CommitSpends<V>(s: State<V>, i: nat, key: Bytes)
    requires i < |s.pending|
    ensures var s' := Next(s, Commit(i));
            && At(s'.rows, key) == (if Staged(s.pending[i], key) then Leaves(s.pending[i], key) else At(s.rows, key))
            && |s'.pending| == |s.pending| && !Staged(s'.pending[i], key)
            && (forall b :: 0 <= b < |s.pending| && b != i ==> s'.pending[b] == s.pending[b])
            && Next(s', Commit(i)) == s'
  {
    ApplyAt(s.rows, s.pending[i], key);
  }

  /** Committing a batch changes nothing any key shows. */
  lemma CommitShows<V>(s: State<V>, i: nat, key: Bytes, v: Option<V>)
    requires i < |s.pending| && Shows(s, key, v)
    ensures Shows(Next(s, Commit(i)), key, v)
  {
    hide Staged, Leaves, Apply;
    var s' := Next(s, Commit(i));
    NothingStaged<V>(key);
    ApplyAt(s.rows, s.pending[i], key);
    assert forall b :: 0 <= b < |s.pending| && b != i ==> s'.pending[b] == s.pending[b];
  }

  lemma OpenShows<V>(s: State<V>, key: Bytes, v: Option<V>)
    ensures Shows(Next(s, Open), key, v) <==> Shows(s, key, v)
  {
    hide Staged, Leaves;
    var s' := Next(s, Open);
    NothingStaged<V>(key);
    assert s'.pending[|s.pending|] == [];
    assert forall b :: 0 <= b < |s.pending| ==> s'.pending[b] == s.pending[b];
  }

  // ---- Which steps keep the cache coherent, exactly ----

  /** A cached write must agree with the other batches that stage its key, and a reader may cache only what the key
      still shows. Every other step is safe. */
  ghost predicate Keeps<V>(s: State<V>, a: Action<V>)
    requires Enabled(s, a)
  {
    match a
    case Write(t, key, v) => OthersLeave(s, t, key, Some(v))
    case Fill(i) => Shows(s, s.fetched[i].key, Some(s.fetched[i].value))
    case _ => true
  }

  /** Operations whose touched keys are not in the cache afterwards. */
  lemma DroppedKeeps<V>(s: State<V>, t: Target, op: Op<V>, cache: map<Bytes, V>)
    requires Coherent(s) && Exists(s, t)
    requires forall key :: key in cache ==> key in s.cache && cache[key] == s.cache[key] && !Touches(op, key)
    ensures Coherent(Perform(s.(cache := cache), t, op))
  {
    hide Touches, Shows, Unstaged, OthersLeave, ApplyOp;
    var s0 := s.(cache := cache);
    forall key | key in cache
      ensures Shows(Perform(s0, t, op), key, Some(cache[key]))
    {
      ShowsIgnores(s, s0, key, Some(cache[key]));
      PerformShows(s0, t, op, key, Some(cache[key]));
    }
  }

  /** A cached write keeps the cache coherent exactly when every other batch that stages the key leaves
      the same value. */
  lemma WriteExact<V>(s: State<V>, t: Target, key: Bytes, v: V)
    requires Coherent(s) && Own(s.prefix, key) && Exists(s, t)
    ensures Coherent(Next(s, Write(t, key, v))) <==> OthersLeave(s, t, key, Some(v))
  {
    hide Shows, Unstaged, ApplyOp;
    var s0, s' := s.(cache := s.cache[key := v]), Next(s, Write(t, key, v));
    forall k | k in s'.cache && k != key
      ensures Shows(s', k, Some(s'.cache[k]))
    {
      ShowsIgnores(s, s0, k, Some(s.cache[k]));
      PerformShows(s0, t, Put(key, v), k, Some(s.cache[k]));
    }
    assert key in s'.cache && s'.cache[key] == v;
    WrittenShows(s, s0, t, key, v);
  }

  lemma WrittenShows<V>(s: State<V>, s0: State<V>, t: Target, key: Bytes, v: V)
    requires s0.rows == s.rows && s0.pending == s.pending && Exists(s0, t)
    ensures Shows(Perform(s0, t, Put(key, v)), key, Some(v)) <==> OthersLeave(s, t, key, Some(v))
  {
    hide Staged, Leaves;
    PerformShows(s0, t, Put(key, v), key, Some(v));
    assert t.Direct? && !Unstaged(s0, key) ==> (Shows(s0, key, Some(v)) <==> OthersLeave(s, t, key, Some(v)));
  }

  lemma FillExact<V>(s: State<V>, i: nat)
    requires Coherent(s) && Enabled(s, Action<V>.Fill(i))
    ensures Coherent(Next(s, Fill(i))) <==> Shows(s, s.fetched[i].key, Some(s.fetched[i].value))
  {
    hide Shows;
    var s', key := Next(s, Fill(i)), s.fetched[i].key;
    forall k, v
      ensures Shows(s', k, v) <==> Shows(s, k, v)
    {
      ShowsIgnores(s, s', k, v);
    }
    assert key in s'.cache && s'.cache[key] == s.fetched[i].value;
  }

  lemma CommitKeeps<V>(s: State<V>, i: nat)
    requires Coherent(s) && i < |s.pending|
    ensures Coherent(Next(s, Commit(i)))
  {
    hide Shows;
    forall key | key in s.cache
      ensures Shows(Next(s, Commit(i)), key, Some(s.cache[key]))
    {
      CommitShows(s, i, key, Some(s.cache[key]));
    }
  }

  lemma OpenKeeps<V>(s: State<V>)
    requires Coherent(s)
    ensures Coherent(Next(s, Open))
  {
    hide Shows;
    forall key | key in s.cache
      ensures Shows(Next(s, Open), key, Some(s.cache[key]))
    {
      OpenShows(s, key, Some(s.cache[key]));
    }
  }

  /** Steps that leave rows and batches alone and add nothing to the cache. */
  lemma QuietKeeps<V>(s: State<V>, s': State<V>)
    requires Coherent(s) && s'.rows == s.rows && s'.pending == s.pending
    requires forall key :: key in s'.cache ==> key in s.cache && s'.cache[key] == s.cache[key]
    ensures Coherent(s')
  {
    hide Shows;
    forall key | key in s'.cache
      ensures Shows(s', key, Some(s'.cache[key]))
    {
      ShowsIgnores(s, s', key, Some(s'.cache[key]));
    }
  }

  lemma StepOwnKeys<V>(s: State<V>, a: Action<V>)
    requires OwnKeys(s) && Enabled(s, a)
    ensures OwnKeys(Next(s, a))
  {
    hide Apply, ApplyOp;
  }

  /** One step, exactly. */
  lemma StepExact<V>(s: State<V>, a: Action<V>)
    requires Coherent(s) && OwnKeys(s) && Enabled(s, a)
    ensures Coherent(Next(s, a)) <==> Keeps(s, a)
  {
    hide Shows, Coherent, OthersLeave, ApplyOp;
    match a
    case Write(t, key, v) => WriteExact(s, t, key, v);
    case Fill(i) => FillExact(s, i);
    case Overwrite(t, key, v) => DroppedKeeps(s, t, Put(key, v), Without(s.cache, key));
    case Remove(t, key) => DroppedKeeps(s, t, Delete(key), Without(s.cache, key));
    case Clear(t) => DroppedKeeps(s, t, ClearOp(s.prefix), map[]);
    case Foreign(t, op) =>
      DroppedKeeps(s, t, op, s.cache);
      assert s.(cache := s.cache) == s;
    case Open => OpenKeeps(s);
    case Commit(i) => CommitKeeps(s, i);
    case Fetch(_) => QuietKeeps(s, Next(s, a));
    case Evict(_) => QuietKeeps(s, Next(s, a));
  }

  // ---- Runs ----

  function Start<V>(prefix: Bytes, rows: Rows<V>): State<V> {
    State(prefix, rows, [], map[], [])
  }

  /** A run from a cold cache. Actions that are not enabled do nothing. */
  ghost function After<V>(prefix: Bytes, rows: Rows<V>, run: seq<Action<V>>, n: nat): State<V>
    requires n <= |run|
  {
    if n == 0 then Start(prefix, rows)
    else
      var s := After(prefix, rows, run, n - 1);
      if Enabled(s, run[n - 1]) then Next(s, run[n - 1]) else s
  }

  /** What a step leaves in the committed row of `key`, if it changes it at all. */
  ghost function RowEffect<V>(s: State<V>, a: Action<V>, key: Bytes): Option<Option<V>>
    requires Enabled(s, a)
  {
    match a
    case Write(t, k, v) => if t.Direct? && k == key then Some(Some(v)) else None
    case Overwrite(t, k, v) => if t.Direct? && k == key then Some(Some(v)) else None
    case Remove(t, k) => if t.Direct? && k == key then Some(None) else None
    case Clear(t) => if t.Direct? && Touches(ClearOp<V>(s.prefix), key) then Some(None) else None
    case Foreign(t, op) => if t.Direct? && Touches(op, key) then Some(OpValue(op)) else None
    case Commit(i) => if Staged(s.pending[i], key) then Some(Leaves(s.pending[i], key)) else None
    case _ => None
  }

  lemma RowEffectIs<V>(s: State<V>, a: Action<V>, key: Bytes)
    requires Enabled(s, a)
    ensures var e := RowEffect(s, a, key);
            At(Next(s, a).rows, key) == if e.Some? then e.value else At(s.rows, key)
  {
    hide Apply, ApplyOp, Staged, Leaves, InRange, Own;
    match a
    case Write(t, k, v) => ApplyOpAt(s.rows, Put(k, v), key);
    case Overwrite(t, k, v) => ApplyOpAt(s.rows, Put(k, v), key);
    case Remove(t, k) => ApplyOpAt(s.rows, Delete(k), key);
    case Clear(t) => ApplyOpAt(s.rows, ClearOp(s.prefix), key);
    case Foreign(t, op) => ApplyOpAt(s.rows, op, key);
    case Commit(i) => ApplyAt(s.rows, s.pending[i], key);
    case _ =>
  }

  /** The last change of the committed row of `key` in the steps `[lo, hi)`. */
  ghost function Since<V>(prefix: Bytes, rows: Rows<V>, run: seq<Action<V>>, lo: nat, hi: nat, key: Bytes): Option<Option<V>>
    requires lo <= hi <= |run|
    decreases hi
  {
    if lo == hi then None
    else
      var s, a := After(prefix, rows, run, hi - 1), run[hi - 1];
      if Enabled(s, a) && RowEffect(s, a, key).Some? then RowEffect(s, a, key)
      else Since(prefix, rows, run, lo, hi - 1, key)
  }

  lemma {:induction false} RowHistory<V>(prefix: Bytes, rows: Rows<V>, run: seq<Action<V>>, lo: nat, hi: nat, key: Bytes)
    requires lo <= hi <= |run|
    ensures var e := Since(prefix, rows, run, lo, hi, key);
            At(After(prefix, rows, run, hi).rows, key)
            == if e.Some? then e.value else At(After(prefix, rows, run, lo).rows, key)
    decreases hi
  {
    hide Next, Enabled, RowEffect;
    if lo < hi {
      RowHistory(prefix, rows, run, lo, hi - 1, key);
      var s, a := After(prefix, rows, run, hi - 1), run[hi - 1];
      if Enabled(s, a) {
        RowEffectIs(s, a, key);
      }
    }
  }

  /** Fetched values are only added, and never change but for being filled. */
  ghost predicate Extends<V>(later: seq<Fetched<V>>, earlier: seq<Fetched<V>>) {
    |earlier| <= |later|
    && forall i :: 0 <= i < |earlier| ==> later[i].key == earlier[i].key && later[i].value == earlier[i].value
  }

  lemma StepFetched<V>(s: State<V>, a: Action<V>)
    requires Enabled(s, a)
    ensures var f := Next(s, a).fetched;
            && Extends(f, s.fetched)
            && (|f| > |s.fetched| ==>
                  && a.Fetch? && |f| == |s.fetched| + 1 && a.key in s.rows
                  && f[|s.fetched|] == Fetched(a.key, s.rows[a.key], false))
  {
    hide Apply, ApplyOp;
  }

  /** The step at which the `i`-th value was fetched. */
  ghost function FetchStep<V>(prefix: Bytes, rows: Rows<V>, run: seq<Action<V>>, n: nat, i: nat): (m: nat)
    requires n <= |run| && i < |After(prefix, rows, run, n).fetched|
    ensures m < n
  {
    if i < |After(prefix, rows, run, n - 1).fetched| then FetchStep(prefix, rows, run, n - 1, i)
    else n - 1
  }

  /** A fetched value was the committed one when it was fetched. */
  lemma {:induction false} FetchStepIs<V>(prefix: Bytes, rows: Rows<V>, run: seq<Action<V>>, n: nat, i: nat)
    requires n <= |run| && i < |After(prefix, rows, run, n).fetched|
    ensures var f, m := After(prefix, rows, run, n).fetched[i], FetchStep(prefix, rows, run, n, i);
            run[m] == Fetch(f.key) && At(After(prefix, rows, run, m).rows, f.key) == Some(f.value)
  {
    hide Next, Enabled;
    var s, a := After(prefix, rows, run, n - 1), run[n - 1];
    if Enabled(s, a) {
      StepFetched(s, a);
    }
    if i < |s.fetched| {
      FetchStepIs(prefix, rows, run, n - 1, i);
    }
  }

  // ---- Which runs keep the cache coherent, exactly ----

  /**
   * What a caller has to see to at step `m`, in terms of the calls made. A cached write agrees with what every other open
   * batch that stages the key will leave. When a reader caches what it fetched, every open batch that stages the key
   * leaves that value, and if there is none, the last change of the row since the fetch, if any, left it there.
   */
  ghost predicate Sound<V>(prefix: Bytes, rows: Rows<V>, run: seq<Action<V>>, m: nat)
    requires m < |run|
  {
    var s, a := After(prefix, rows, run, m), run[m];
    Enabled(s, a) ==>
      match a
      case Write(t, key, v) => OthersLeave(s, t, key, Some(v))
      case Fill(i) =>
        var f, e := s.fetched[i], Since(prefix, rows, run, FetchStep(prefix, rows, run, m, i), m, s.fetched[i].key);
        OthersLeave(s, Direct, f.key, Some(f.value)) && (Unstaged(s, f.key) && e.Some? ==> e.value == Some(f.value))
      case _ => true
  }

  ghost predicate SoundRun<V>(prefix: Bytes, rows: Rows<V>, run: seq<Action<V>>, n: nat)
    requires n <= |run|
  {
    forall m :: 0 <= m < n ==> Sound(prefix, rows, run, m)
  }

  lemma SoundIsKeeps<V>(prefix: Bytes, rows: Rows<V>, run: seq<Action<V>>, m: nat)
    requires m < |run| && Enabled(After(prefix, rows, run, m), run[m])
    ensures Sound(prefix, rows, run, m) <==> Keeps(After(prefix, rows, run, m), run[m])
  {
    hide After, Since, FetchStep, OthersLeave, Unstaged;
    var s, a := After(prefix, rows, run, m), run[m];
    if a.Fill? {
      FetchStepIs(prefix, rows, run, m, a.index);
      RowHistory(prefix, rows, run, FetchStep(prefix, rows, run, m, a.index), m, s.fetched[a.index].key);
    }
  }

  lemma {:induction false} AlwaysOwnKeys<V>(prefix: Bytes, rows: Rows<V>, run: seq<Action<V>>, n: nat)
    requires n <= |run|
    ensures OwnKeys(After(prefix, rows, run, n)) && After(prefix, rows, run, n).prefix == prefix
  {
    if n > 0 {
      AlwaysOwnKeys(prefix, rows, run, n - 1);
      var s, a := After(prefix, rows, run, n - 1), run[n - 1];
      if Enabled(s, a) {
        StepOwnKeys(s, a);
        SamePrefix(s, a);
      }
      hide Next, Enabled, OwnKeys;
    }
  }

  lemma SamePrefix<V>(s: State<V>, a: Action<V>)
    requires Enabled(s, a)
    ensures Next(s, a).prefix == s.prefix
  {
    hide Apply, ApplyOp;
  }

  ghost predicate CoherentThroughout<V>(prefix: Bytes, rows: Rows<V>, run: seq<Action<V>>, n: nat)
    requires n <= |run|
  {
    forall m :: 0 <= m <= n ==> Coherent(After(prefix, rows, run, m))
  }

  /** Over whole runs of reads, writes, deletes, range deletes, commits and evictions, by any number of callers: the
      cache is coherent all the way if and only if every step was sound. */
  lemma {:induction false} RunExactly<V>(prefix: Bytes, rows: Rows<V>, run: seq<Action<V>>, n: nat)
    requires n <= |run|
    ensures CoherentThroughout(prefix, rows, run, n) <==> SoundRun(prefix, rows, run, n)
  {
    hide Next, Enabled, Coherent, Sound, OwnKeys, Keeps;
    if n == 0 {
      assert Coherent(After(prefix, rows, run, 0)) by { ColdIsCoherent(prefix, rows); }
    } else {
      RunExactly(prefix, rows, run, n - 1);
      assert SoundRun(prefix, rows, run, n) <==> SoundRun(prefix, rows, run, n - 1) && Sound(prefix, rows, run, n - 1);
      assert CoherentThroughout(prefix, rows, run, n) <==>
             CoherentThroughout(prefix, rows, run, n - 1) && Coherent(After(prefix, rows, run, n));
      var s, a := After(prefix, rows, run, n - 1), run[n - 1];
      if CoherentThroughout(prefix, rows, run, n - 1) {
        assert Coherent(s);
        StepInRun(prefix, rows, run, n - 1);
      }
    }
  }

  lemma ColdIsCoherent<V>(prefix: Bytes, rows: Rows<V>)
    ensures Coherent(Start(prefix, rows))
  {
  }

  lemma StepInRun<V>(prefix: Bytes, rows: Rows<V>, run: seq<Action<V>>, m: nat)
    requires m < |run| && Coherent(After(prefix, rows, run, m))
    ensures Coherent(After(prefix, rows, run, m + 1)) <==> Sound(prefix, rows, run, m)
  {
    hide Next, Coherent, OwnKeys, Keeps;
    var s, a := After(prefix, rows, run, m), run[m];
    AlwaysOwnKeys(prefix, rows, run, m);
    if Enabled(s, a) {
      StepExact(s, a);
      SoundIsKeeps(prefix, rows, run, m);
    }
  }

  /** What `read` answers, and what `has` answers. */
  function Read<V>(s: State<V>, key: Bytes): Option<V> {
    if key in s.cache then Some(s.cache[key]) else At(s.rows, key)
  }

  predicate Has<V>(s: State<V>, key: Bytes) {
    key in s.cache || key in s.rows
  }

  /**
   * The cache agrees with the plain map it speeds up. After every sound run, and whatever was
   * evicted, a read of a key that no open batch stages gives the committed value, `has` says whether
   * there is one, and a cached value of a staged key is the one every batch that stages it will leave.
   */
  lemma CacheIsTransparent<V>(prefix: Bytes, rows: Rows<V>, run: seq<Action<V>>, n: nat, key: Bytes)
    requires n <= |run|
    ensures var s := After(prefix, rows, run, n);
            SoundRun(prefix, rows, run, n) ==>
              && (Unstaged(s, key) ==> Read(s, key) == At(s.rows, key) && (Has(s, key) <==> key in s.rows))
              && (key in s.cache ==> OthersLeave(s, Direct, key, Some(s.cache[key])))
  {
    hide After, SoundRun, OthersLeave, Unstaged;
    RunExactly(prefix, rows, run, n);
    assert CoherentThroughout(prefix, rows, run, n) ==> Coherent(After(prefix, rows, run, n));
  }

  /** In particular, once every batch is committed the whole cache is a part of the DB. */
  lemma QuiescentCacheIsSubmap<V>(prefix: Bytes, rows: Rows<V>, run: seq<Action<V>>, n: nat)
    requires n <= |run|
    ensures var s := After(prefix, rows, run, n);
            SoundRun(prefix, rows, run, n) && (forall b :: 0 <= b < |s.pending| ==> s.pending[b] == []) ==>
              forall key :: key in s.cache ==> At(s.rows, key) == Some(s.cache[key])
  {
    hide After, SoundRun;
    RunExactly(prefix, rows, run, n);
    assert CoherentThroughout(prefix, rows, run, n) ==> Coherent(After(prefix, rows, run, n));
  }

  // ---- A simple discipline that suffices ----

  /** No reader still holds a fetched value for a key the operation touches. */
  ghost predicate Unfetched<V>(s: State<V>, op: Op<V>) {
    forall i :: 0 <= i < |s.fetched| && !s.fetched[i].filled ==> !Touches(op, s.fetched[i].key)
  }

  /** A read reaches the DB only for an unstaged key; a key is not written between the two halves of such a read; and a
      key staged in one batch is not put by a cached write to another place before the commit. */
  ghost predicate Disciplined<V>(s: State<V>, a: Action<V>)
    requires Enabled(s, a)
  {
    match a
    case Fetch(key) => Unstaged(s, key)
    case Write(t, key, v) =>
      Unfetched(s, Put(key, v)) && forall b :: 0 <= b < |s.pending| && t != Batch(b) ==> !Staged(s.pending[b], key)
    case Overwrite(t, key, v) => Unfetched(s, Put(key, v))
    case Remove(t, key) => Unfetched(s, Delete(key))
    case Clear(t) => Unfetched(s, ClearOp(s.prefix))
    case _ => true
  }

  ghost predicate DisciplinedRun<V>(prefix: Bytes, rows: Rows<V>, run: seq<Action<V>>, n: nat)
    requires n <= |run|
  {
    forall m :: 0 <= m < n ==>
      var s := After(prefix, rows, run, m);
      Enabled(s, run[m]) ==> Disciplined(s, run[m])
  }

  /** A value some reader still holds is the committed one, and its key is not staged. */
  ghost predicate FetchedFresh<V>(s: State<V>) {
    forall i :: 0 <= i < |s.fetched| && !s.fetched[i].filled ==>
      Unstaged(s, s.fetched[i].key) && At(s.rows, s.fetched[i].key) == Some(s.fetched[i].value)
  }

  lemma PerformFetched<V>(s: State<V>, cache: map<Bytes, V>, t: Target, op: Op<V>)
    requires FetchedFresh(s) && Exists(s, t) && Unfetched(s, op)
    ensures FetchedFresh(Perform(s.(cache := cache), t, op))
  {
    hide Unstaged, Touches, ApplyOp, Shows;
    var s0 := s.(cache := cache);
    var s' := Perform(s0, t, op);
    forall i | 0 <= i < |s'.fetched| && !s'.fetched[i].filled
      ensures Unstaged(s', s'.fetched[i].key) && At(s'.rows, s'.fetched[i].key) == Some(s'.fetched[i].value)
    {
      ShowsIgnores(s, s0, s.fetched[i].key, None);
      PerformShows(s0, t, op, s.fetched[i].key, None);
      ApplyOpAt(s.rows, op, s.fetched[i].key);
    }
  }

  lemma CommitFetched<V>(s: State<V>, i: nat)
    requires FetchedFresh(s) && i < |s.pending|
    ensures FetchedFresh(Next(s, Commit(i)))
  {
    hide Staged, Apply;
    var s' := Next(s, Commit(i));
    forall j | 0 <= j < |s'.fetched| && !s'.fetched[j].filled
      ensures Unstaged(s', s'.fetched[j].key) && At(s'.rows, s'.fetched[j].key) == Some(s'.fetched[j].value)
    {
      NothingStaged<V>(s.fetched[j].key);
      ApplyAt(s.rows, s.pending[i], s.fetched[j].key);
    }
  }

  lemma OpenFetched<V>(s: State<V>)
    requires FetchedFresh(s)
    ensures FetchedFresh(Next(s, Open))
  {
    hide Staged;
    forall key ensures !Staged<V>([], key) { NothingStaged<V>(key); }
  }

  lemma DisciplinedFetched<V>(s: State<V>, a: Action<V>)
    requires FetchedFresh(s) && OwnKeys(s) && Enabled(s, a) && Disciplined(s, a)
    ensures FetchedFresh(Next(s, a))
  {
    hide Staged, Apply, ApplyOp, Touches, Unstaged;
    match a
    case Write(t, key, v) => PerformFetched(s, s.cache[key := v], t, Put(key, v));
    case Overwrite(t, key, v) => PerformFetched(s, Without(s.cache, key), t, Put(key, v));
    case Remove(t, key) => PerformFetched(s, Without(s.cache, key), t, Delete(key));
    case Clear(t) => PerformFetched(s, map[], t, ClearOp(s.prefix));
    case Foreign(t, op) =>
      PerformFetched(s, s.cache, t, op);
      assert s.(cache := s.cache) == s;
    case Commit(i) => CommitFetched(s, i);
    case Open => OpenFetched(s);
    case _ => forall key ensures Unstaged(Next(s, a), key) <==> Unstaged(s, key) { ShowsIgnores(s, Next(s, a), key, None); }
  }

  lemma {:induction false} DisciplinedIsFresh<V>(prefix: Bytes, rows: Rows<V>, run: seq<Action<V>>, n: nat)
    requires n <= |run|
    ensures DisciplinedRun(prefix, rows, run, n) ==> FetchedFresh(After(prefix, rows, run, n))
  {
    if n == 0 {
      assert After(prefix, rows, run, 0).fetched == [];
    } else if DisciplinedRun(prefix, rows, run, n) {
      hide Next, Enabled, OwnKeys, FetchedFresh, Disciplined;
      DisciplinedIsFresh(prefix, rows, run, n - 1);
      AlwaysOwnKeys(prefix, rows, run, n - 1);
      var s, a := After(prefix, rows, run, n - 1), run[n - 1];
      assert DisciplinedRun(prefix, rows, run, n - 1);
      if Enabled(s, a) {
        assert Disciplined(s, a);
        DisciplinedFetched(s, a);
      }
    }
  }

  /** The discipline makes every step sound. */
  lemma DisciplinedIsSound<V>(prefix: Bytes, rows: Rows<V>, run: seq<Action<V>>, n: nat)
    requires n <= |run|
    ensures DisciplinedRun(prefix, rows, run, n) ==> SoundRun(prefix, rows, run, n)
  {
    hide After, Sound, Staged, Leaves;
    if DisciplinedRun(prefix, rows, run, n) {
      forall m | 0 <= m < n
        ensures Sound(prefix, rows, run, m)
      {
        var s, a := After(prefix, rows, run, m), run[m];
        assert DisciplinedRun(prefix, rows, run, m);
        DisciplinedIsFresh(prefix, rows, run, m);
        if Enabled(s, a) {
          assert Disciplined(s, a);
          SoundIsKeeps(prefix, rows, run, m);
        } else {
          DisabledIsSound(prefix, rows, run, m);
        }
      }
    }
  }

  lemma DisabledIsSound<V>(prefix: Bytes, rows: Rows<V>, run: seq<Action<V>>, m: nat)
    requires m < |run| && !Enabled(After(prefix, rows, run, m), run[m])
    ensures Sound(prefix, rows, run, m)
  {
  }

  // ---- Reads and writes that break the rules ----

  /** A whole missing read keeps the cache coherent exactly when every batch that stages the key leaves the committed value. */
  lemma ReadExact<V>(s: State<V>, key: Bytes)
    requires Coherent(s) && Own(s.prefix, key) && key !in s.cache && key in s.rows
    ensures var s1 := Next(s, Fetch(key));
            Coherent(Next(s1, Fill(|s.fetched|))) <==> OthersLeave(s, Direct, key, Some(s.rows[key]))
  {
    hide OthersLeave, Unstaged, Coherent;
    var s1 := Next(s, Fetch(key));
    QuietKeeps(s, s1);
    FillExact(s1, |s.fetched|);
    ShowsIgnores(s, s1, key, Some(s.rows[key]));
  }

  /**
   * A write of the key between the two halves of a missing read, exactly. The fill keeps the cache coherent if the other
   * batches leave the fetched value and so does the write; a direct write does not matter when a batch stages the key.
   */
  lemma WriteBetweenExact<V>(s: State<V>, t: Target, key: Bytes, w: V)
    requires Coherent(s) && Own(s.prefix, key) && key !in s.cache && key in s.rows && Exists(s, t)
    ensures var s1 := Next(s, Fetch(key));
            var s2 := Next(s1, Write(t, key, w));
            Coherent(Next(s2, Fill(|s.fetched|))) <==>
              && OthersLeave(s, t, key, Some(s.rows[key]))
              && (w == s.rows[key] || (t.Direct? && !Unstaged(s, key)))
  {
    hide Unstaged, Coherent, ApplyOp, Staged, Leaves;
    var v := s.rows[key];
    var s1 := Next(s, Fetch(key));
    var s2 := Next(s1, Write(t, key, w));
    QuietKeeps(s, s1);
    FillOver(s1, s2, t, Put(key, w), key, v, |s.fetched|);
    ShowsIgnores(s, s1, key, Some(v));
  }

  /** The same for a deletion. */
  lemma RemoveBetweenExact<V>(s: State<V>, t: Target, key: Bytes)
    requires Coherent(s) && Own(s.prefix, key) && key !in s.cache && key in s.rows && Exists(s, t)
    ensures var s1 := Next(s, Fetch(key));
            var s2 := Next(s1, Remove(t, key));
            Coherent(Next(s2, Fill(|s.fetched|))) <==>
              OthersLeave(s, t, key, Some(s.rows[key])) && t.Direct? && !Unstaged(s, key)
  {
    hide Unstaged, Coherent, ApplyOp, Staged, Leaves;
    var v := s.rows[key];
    var s1 := Next(s, Fetch(key));
    var s2 := Next(s1, Remove(t, key));
    QuietKeeps(s, s1);
    FillOver(s1, s2, t, Delete(key), key, v, |s.fetched|);
    ShowsIgnores(s, s1, key, Some(v));
  }

  /** Filling `key` with `v` after an operation on that key alone. */
  lemma FillOver<V>(s: State<V>, s2: State<V>, t: Target, op: Op<V>, key: Bytes, v: V, i: nat)
    requires i < |s2.fetched| && s2.fetched[i] == Fetched(key, v, false)
    requires Exists(s, t) && s2 == Perform(s.(cache := s2.cache), t, op)
    requires forall k :: Touches(op, k) <==> k == key
    requires forall k :: k in s2.cache && k != key ==> k in s.cache && s2.cache[k] == s.cache[k]
    requires Coherent(s)
    ensures Coherent(Next(s2, Fill(i))) <==>
              if t.Direct? && !Unstaged(s, key) then OthersLeave(s, t, key, Some(v))
              else OpValue(op) == Some(v) && OthersLeave(s, t, key, Some(v))
  {
    hide Touches, Unstaged, ApplyOp, Staged, Leaves;
    var s3 := Next(s2, Fill(i));
    assert key in s3.cache && s3.cache[key] == v;
    forall k | k in s3.cache
      ensures k != key ==> Shows(s3, k, Some(s3.cache[k]))
      ensures k == key ==> (Shows(s3, k, Some(v)) <==>
                              if t.Direct? && !Unstaged(s, key) then OthersLeave(s, t, key, Some(v))
                              else OpValue(op) == Some(v) && OthersLeave(s, t, key, Some(v)))
    {
      ShowsIgnores(s2, s3, k, Some(s3.cache[k]));
      ShowsIgnores(s, s.(cache := s2.cache), k, Some(s3.cache[k]));
      PerformShows(s.(cache := s2.cache), t, op, k, Some(s3.cache[k]));
    }
  }

  /** A miss on a key staged in batch `i` caches the old value, and the commit does not remove it: from
      then on a read gives the old value while the DB holds what the batch left. */
  lemma MissBeforeCommit<V>(s: State<V>, i: nat, key: Bytes)
    requires Own(s.prefix, key) && key !in s.cache && key in s.rows
    requires i < |s.pending| && Staged(s.pending[i], key)
    ensures var s1 := Next(s, Fetch(key));
            var s2 := Next(s1, Fill(|s.fetched|));
            var s3 := Next(s2, Commit(i));
            Read(s3, key) == At(s.rows, key) && At(s3.rows, key) == Leaves(s.pending[i], key)
  {
    hide Apply, Staged, Leaves;
    ApplyAt(s.rows, s.pending[i], key);
  }

  /** A write between the fetch and the fill of one read is lost from the cache in the same way. */
  lemma WriteDuringRead<V>(s: State<V>, key: Bytes, w: V)
    requires Own(s.prefix, key) && key !in s.cache && key in s.rows
    ensures var s1 := Next(s, Fetch(key));
            var s2 := Next(s1, Write(Direct, key, w));
            var s3 := Next(s2, Fill(|s.fetched|));
            Read(s3, key) == At(s.rows, key) && At(s3.rows, key) == Some(w)
  {
  }

  /** A direct write of a key staged in batch `i` is cached, and overwritten in the DB by the commit. */
  lemma DirectWriteOverStaged<V>(s: State<V>, i: nat, key: Bytes, v: V)
    requires Own(s.prefix, key) && i < |s.pending| && Staged(s.pending[i], key)
    ensures var s1 := Next(s, Write(Direct, key, v));
            var s2 := Next(s1, Commit(i));
            Read(s2, key) == Some(v) && At(s2.rows, key) == Leaves(s.pending[i], key)
  {
    hide Apply, Staged, Leaves;
    ApplyAt(s.rows[key := v], s.pending[i], key);
  }

  // ---- Range deletion and neighbouring stores ----

  /** `delete_all` removes precisely the rows of its own store. */
  lemma ClearEmptiesOwnStore<V>(rows: Rows<V>, prefix: Bytes, key: Bytes)
    requires Successor(prefix).Some?
    ensures At(ApplyOp(rows, ClearOp(prefix)), key) == if prefix <= key then None else At(rows, key)
  {
    RangeIsPrefix(prefix, key);
  }

  /** Operations of a store with a prefix that is apart from this one are foreign to it. */
  lemma NeighbourIsForeign<V>(prefix: Bytes, other: Bytes, op: Op<V>, key: Bytes)
    requires Apart(prefix, other) && prefix <= key
    requires if op.DeleteRange? then Successor(other).Some? && op == ClearOp(other) else other <= op.key
    ensures !Touches(op, key)
  {
    RangeIsPrefix(other, key);
    if other <= key {
      CommonKeyNests(prefix, other, key);
    }
  }

  /** The bound that `delete_all` unwraps exists for every prefix that starts with a registry byte other
      than the separator. */
  lemma RegistryPrefixHasBound(prefix: Bytes)
    ensures prefix != [] && prefix[0] != 255 ==> Successor(prefix).Some?
  {
    SuccessorExists(prefix);
  }
}
