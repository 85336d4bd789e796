/**
 * The expiring first-in first-out table behind both submit guards of the bridge.
 * `DuplicateSubmitGuard` (share_handler.rs) and `BlockSubmitGuard` (kaspaapi.rs) keep the same
 * pair, a hash map of time-stamped entries and a queue of keys, and prune it with the same two
 * loops. `order` may hold a key twice, or a key that is no longer in `entries`.
 */
module FifoGuard {
  import opened Util

  type Key = string

  datatype Entry<V> = Entry(ts: nat, value: V)

  datatype Table<V> = Table(entries: map<Key, Entry<V>>, order: seq<Key>)

  datatype Limits = Limits(ttl: nat, maxEntries: nat)

  /** The entry of `key` exists and has not outlived the TTL at `now`. */
  predicate Fresh<V>(t: Table<V>, key: Key, now: nat, ttl: nat) {
    key in t.entries && now - t.entries[key].ts <= ttl
  }

  /** The queue lists the stored keys exactly once each. */
  ghost predicate OneToOne<V>(t: Table<V>) {
    && Distinct(t.order)
    && (forall k | k in t.entries :: k in t.order)
    && (forall k | k in t.order :: k in t.entries)
  }

  /** One `pop_front` together with the removal of the popped key. */
  function Pop<V>(t: Table<V>): Table<V>
    requires t.order != []
  {
    Table(Without(t.entries, t.order[0]), t.order[1..])
  }

  /** The table after its `n` oldest queue slots have been popped. */
  function Popped<V>(t: Table<V>, n: nat): Table<V>
    requires n <= |t.order|
    decreases n
  {
    if n == 0 then t else Popped(Pop(t), n - 1)
  }

  lemma {:induction false} PoppedIs<V>(t: Table<V>, n: nat)
    requires n <= |t.order|
    ensures Popped(t, n).order == t.order[n..]
    ensures forall k :: k in Popped(t, n).entries <==> k in t.entries && k !in t.order[..n]
    ensures forall k :: k in Popped(t, n).entries ==> Popped(t, n).entries[k] == t.entries[k]
    decreases n
  {
    if n > 0 {
      PoppedIs(Pop(t), n - 1);
      assert t.order[..n] == [t.order[0]] + t.order[1..][..n - 1];
    }
  }

  lemma PoppedOneToOne<V>(t: Table<V>, n: nat)
    requires OneToOne(t) && n <= |t.order|
    ensures OneToOne(Popped(t, n))
  {
    PoppedIs(t, n);
    assert t.order == t.order[..n] + t.order[n..];
  }

  lemma {:induction false} PoppedMore<V>(t: Table<V>, m: nat, n: nat)
    requires m <= |t.order| && n <= |t.order| - m
    ensures Popped(t, m).order == t.order[m..]
    ensures Popped(Popped(t, m), n) == Popped(t, m + n)
    decreases m
  {
    if m > 0 {
      PoppedMore(Pop(t), m - 1, n);
      assert t.order[1..][m - 1..] == t.order[m..];
    }
  }

  /** How many queue slots the expiry loop pops. */
  function ExpiredSlots<V>(t: Table<V>, now: nat, ttl: nat): (n: nat)
    ensures n <= |t.order|
    decreases |t.order|
  {
    if t.order == [] || Fresh(t, t.order[0], now, ttl) then 0
    else 1 + ExpiredSlots(Pop(t), now, ttl)
  }

  /** How many queue slots the capacity loop pops. */
  function OverflowSlots<V>(t: Table<V>, max: nat): (n: nat)
    ensures n <= |t.order|
    decreases |t.order|
  {
    if |t.entries| <= max || t.order == [] then 0
    else 1 + OverflowSlots(Pop(t), max)
  }

  /** The expiry loop pops precisely the longest queue prefix without a fresh key. */
  lemma {:induction false} ExpiredSlotsExact<V>(t: Table<V>, now: nat, ttl: nat, n: nat)
    requires n <= |t.order|
    ensures n <= ExpiredSlots(t, now, ttl)
       <==> forall i :: 0 <= i < n ==> !Fresh(t, t.order[i], now, ttl)
    decreases n
  {
    if n > 0 && !Fresh(t, t.order[0], now, ttl) {
      var t1 := Pop(t);
      ExpiredSlotsExact(t1, now, ttl, n - 1);
      forall k ensures Fresh(t1, k, now, ttl) == Fresh(t, k, now, ttl) {}
      assert forall i :: 0 < i < n ==> t.order[i] == t1.order[i - 1];
      assert forall i :: 0 <= i < n - 1 ==> t1.order[i] == t.order[i + 1];
    }
  }

  /** The capacity loop stops as soon as at most `max` entries are left, or the queue is empty. */
  lemma {:induction false} OverflowSlotsExact<V>(t: Table<V>, max: nat)
    ensures var n := OverflowSlots(t, max);
            && (n == |t.order| || |Popped(t, n).entries| <= max)
            && (n > 0 ==> |Popped(t, n - 1).entries| > max)
    decreases |t.order|
  {
    if |t.entries| > max && t.order != [] {
      OverflowSlotsExact(Pop(t), max);
    }
  }

  /** The table left by a call of `prune` at `now`. */
  function Pruned<V>(t: Table<V>, now: nat, limits: Limits): Table<V> {
    var live := Popped(t, ExpiredSlots(t, now, limits.ttl));
    Popped(live, OverflowSlots(live, limits.maxEntries))
  }

  /** The first pruning loop: pop while the front key is missing or expired. */
  method DropExpired<V>(t: Table<V>, now: nat, ttl: nat) returns (r: Table<V>)
    ensures r == Popped(t, ExpiredSlots(t, now, ttl))
  {
    r := t;
    while r.order != [] && !(r.order[0] in r.entries && now - r.entries[r.order[0]].ts <= ttl)
      invariant Popped(t, ExpiredSlots(t, now, ttl)) == Popped(r, ExpiredSlots(r, now, ttl))
      decreases |r.order|
    {
      r := Table(Without(r.entries, r.order[0]), r.order[1..]);
    }
  }

  /** The second pruning loop: pop while there are too many entries. */
  method DropOverflow<V>(t: Table<V>, max: nat) returns (r: Table<V>)
    ensures r == Popped(t, OverflowSlots(t, max))
  {
    r := t;
    while |r.entries| > max && r.order != []
      invariant Popped(t, OverflowSlots(t, max)) == Popped(r, OverflowSlots(r, max))
      decreases |r.order|
    {
      r := Table(Without(r.entries, r.order[0]), r.order[1..]);
    }
  }

  method Prune<V>(t: Table<V>, now: nat, limits: Limits) returns (r: Table<V>)
    ensures r == Pruned(t, now, limits)
  {
    r := DropExpired(t, now, limits.ttl);
    r := DropOverflow(r, limits.maxEntries);
  }

  /** Pruning pops some number of the oldest slots: at least the expired prefix, and no more than
      that unless too many entries remain. */
  lemma PrunedIsPopped<V>(t: Table<V>, now: nat, limits: Limits) returns (d: nat)
    ensures ExpiredSlots(t, now, limits.ttl) <= d <= |t.order|
    ensures Pruned(t, now, limits) == Popped(t, d)
    ensures |Popped(t, ExpiredSlots(t, now, limits.ttl)).entries| <= limits.maxEntries
        ==> d == ExpiredSlots(t, now, limits.ttl)
  {
    var n := ExpiredSlots(t, now, limits.ttl);
    PoppedIs(t, n);
    var m := OverflowSlots(Popped(t, n), limits.maxEntries);
    PoppedMore(t, n, m);
    d := n + m;
  }

  /** Pruning changes no surviving entry and keeps a one-to-one queue one-to-one. */
  lemma PrunedKeeps<V>(t: Table<V>, now: nat, limits: Limits)
    ensures forall k :: k in Pruned(t, now, limits).entries ==>
                          k in t.entries && Pruned(t, now, limits).entries[k] == t.entries[k]
    ensures OneToOne(t) ==> OneToOne(Pruned(t, now, limits))
  {
    var d := PrunedIsPopped(t, now, limits);
    PoppedIs(t, d);
    if OneToOne(t) { PoppedOneToOne(t, d); }
  }

  /** With the capacity loop idle, pruning removes expired entries only. */
  lemma PrunedKeepsFresh<V>(t: Table<V>, now: nat, limits: Limits, k: Key)
    requires |Popped(t, ExpiredSlots(t, now, limits.ttl)).entries| <= limits.maxEntries
    requires Fresh(t, k, now, limits.ttl)
    ensures k in Pruned(t, now, limits).entries
  {
    var d := PrunedIsPopped(t, now, limits);
    PoppedIs(t, d);
    ExpiredSlotsExact(t, now, limits.ttl, d);
  }

  lemma {:induction false} PoppedShrinks<V>(t: Table<V>, n: nat)
    requires n <= |t.order|
    ensures |Popped(t, n).entries| <= |t.entries|
    decreases n
  {
    if n > 0 {
      WithoutSize(t.entries, t.order[0]);
      PoppedShrinks(Pop(t), n - 1);
    }
  }

  /** The capacity loop pops a slot exactly when the entries left at that slot are too many. */
  lemma {:induction false} OverflowReaches<V>(t: Table<V>, max: nat, p: nat)
    requires p < |t.order|
    ensures p < OverflowSlots(t, max) <==> |Popped(t, p).entries| > max
    decreases p
  {
    if |t.entries| <= max {
      PoppedShrinks(t, p);
    } else if p > 0 {
      OverflowReaches(Pop(t), max, p - 1);
    }
  }

  /** Nothing fresh stands at or before slot `p`, or too many entries are left when it comes up. */
  ghost predicate Lost<V>(t: Table<V>, now: nat, limits: Limits, p: nat)
    requires p < |t.order|
  {
    || (forall q :: 0 <= q <= p ==> !Fresh(t, t.order[q], now, limits.ttl))
    || |Popped(t, p).entries| > limits.maxEntries
  }

  /** Exactly which queue slots a prune pops. */
  lemma PrunedSlots<V>(t: Table<V>, now: nat, limits: Limits) returns (d: nat)
    ensures d <= |t.order| && Pruned(t, now, limits) == Popped(t, d)
    ensures forall p :: 0 <= p < |t.order| ==> (p < d <==> Lost(t, now, limits, p))
  {
    var n := ExpiredSlots(t, now, limits.ttl);
    var live := Popped(t, n);
    PoppedMore(t, n, 0);
    var m := OverflowSlots(live, limits.maxEntries);
    d := n + m;
    PoppedMore(t, n, m);
    forall p | 0 <= p < |t.order|
      ensures p < d <==> Lost(t, now, limits, p)
    {
      ExpiredSlotsExact(t, now, limits.ttl, p + 1);
      if p >= n {
        PoppedMore(t, n, p - n);
        OverflowReaches(live, limits.maxEntries, p - n);
      }
    }
  }

  /**
   * Exactly which keys survive a prune, whatever the queue: those with an entry, none of whose slots is lost. A slot
   * is kept by a fresh key at or before it, as long as the entries left when it comes up fit the table.
   */
  lemma SurvivalExactly<V>(t: Table<V>, now: nat, limits: Limits, k: Key)
    ensures k in Pruned(t, now, limits).entries <==>
            k in t.entries && forall p :: 0 <= p < |t.order| && t.order[p] == k ==> !Lost(t, now, limits, p)
  {
    hide Pruned, Lost;
    var d := PrunedSlots(t, now, limits);
    PoppedIs(t, d);
    if k in t.order[..d] {
      var p :| 0 <= p < d && t.order[p] == k;
      assert Lost(t, now, limits, p);
    }
  }

  lemma LeftInQueue<V>(t: Table<V>, p: nat)
    requires OneToOne(t) && p <= |t.order|
    ensures |Popped(t, p).entries| == |t.order| - p
  {
    PoppedOneToOne(t, p);
    PoppedIs(t, p);
    DistinctSize(t.order[p..]);
    assert Popped(t, p).entries.Keys == Elements(t.order[p..]);
  }

  /** In a one-to-one table: the keys with a fresh entry at or before their place in the queue and fewer than
      `maxEntries` keys behind them. */
  lemma Survival<V>(t: Table<V>, now: nat, limits: Limits, p: nat)
    requires OneToOne(t) && p < |t.order|
    ensures t.order[p] in Pruned(t, now, limits).entries
      <==> && (exists q :: 0 <= q <= p && Fresh(t, t.order[q], now, limits.ttl))
           && |t.order| - 1 - p < limits.maxEntries
  {
    hide Pruned, Popped, Fresh;
    SurvivalExactly(t, now, limits, t.order[p]);
    LeftInQueue(t, p);
    assert t.order[p] in t.entries by { assert t.order[p] in t.order; }
    assert forall i :: 0 <= i < |t.order| && t.order[i] == t.order[p] ==> i == p;
  }

  /** A surviving key keeps the same queue behind it. */
  lemma SurvivorKeepsTail<V>(t: Table<V>, now: nat, limits: Limits, p: nat) returns (p': nat)
    requires OneToOne(t) && p < |t.order| && t.order[p] in Pruned(t, now, limits).entries
    ensures p' < |Pruned(t, now, limits).order| && Pruned(t, now, limits).order[p'] == t.order[p]
    ensures |Pruned(t, now, limits).order| - p' == |t.order| - p
  {
    var d := PrunedIsPopped(t, now, limits);
    PoppedIs(t, d);
    assert forall i :: 0 <= i < d ==> t.order[i] in t.order[..d];
    p' := p - d;
  }

  /** A prune with a fresh key at the front and room in the table removes nothing at all. */
  lemma FreshFrontShields<V>(t: Table<V>, now: nat, limits: Limits)
    requires t.order != [] && Fresh(t, t.order[0], now, limits.ttl) && |t.entries| <= limits.maxEntries
    ensures Pruned(t, now, limits) == t
  {
  }

  lemma EmptyPruned<V>(now: nat, limits: Limits)
    ensures Pruned(Table<V>.Table(map[], []), now, limits) == Table(map[], [])
  {
  }
}
