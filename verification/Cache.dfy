/**
 * The bounded cache of cache.rs. A counted cache holds at most `maxSize` items; a tracked cache bounds
 * the total size of its items but may pass the bound while it holds no more than `minItems`. Victims
 * are chosen at random, here by an arbitrary choice.
 */
module Cache {
  import opened Util

  datatype CachePolicy = Empty | Count(maxSize: nat) | Tracked(maxSize: nat, minItems: nat)

  /** The flattened policy that the operations consult. */
  datatype PolicyInner = PolicyInner(tracked: bool, maxSize: nat, minItems: nat)

  function Flatten(policy: CachePolicy): PolicyInner {
    match policy
    case Empty => PolicyInner(false, 0, 0)
    case Count(maxSize) => PolicyInner(false, maxSize, 0)
    case Tracked(maxSize, minItems) => PolicyInner(true, maxSize, minItems)
  }

  /** Every item held was held before with the same value. */
  ghost predicate PartOf<K, V>(after: map<K, V>, before: map<K, V>) {
    forall k | k in after :: k in before && after[k] == before[k]
  }

  ghost predicate Fits<K, V>(p: PolicyInner, m: map<K, V>, size: V -> nat) {
    if p.tracked then TotalSize(m, size) <= p.maxSize || |m| <= p.minItems
    else |m| <= p.maxSize
  }

  /** `after` is what a tracked cache may keep of `full`: nothing is evicted while `full` fits, and the
      last victim was evicted because the cache did not fit with it. */
  ghost predicate Trimmed<K, V>(p: PolicyInner, full: map<K, V>, after: map<K, V>, size: V -> nat) {
    && PartOf(after, full)
    && Fits(p, after, size)
    && (after == full
        || exists victim | victim in full :: victim !in after && !Fits(p, after[victim := full[victim]], size))
  }

  /** What an insertion leaves. A cache of size zero takes nothing; a tracked one may keep any part that the trimming
      allows; a counted one holds the new item, and a full one has lost one other slot to it. */
  ghost predicate Inserted<K, V>(p: PolicyInner, before: map<K, V>, key: K, data: V, after: map<K, V>, size: V -> nat) {
    if p.maxSize == 0 then after == before
    else if p.tracked then Trimmed(p, before[key := data], after, size)
    else
      && key in after && after[key] == data
      && if |before| == p.maxSize
         then exists victim | victim in before :: after == Without(before, victim)[key := data]
         else after == before[key := data]
  }

  /** The bound that a policy promises. */
  ghost predicate Within<K, V>(p: CachePolicy, m: map<K, V>, size: V -> nat) {
    match p
    case Empty => m == map[]
    case Count(maxSize) => |m| <= maxSize
    case Tracked(maxSize, minItems) => TotalSize(m, size) <= maxSize || |m| <= minItems
  }

  class Cache<K(==), V> {
    /** The policy the cache was made with. */
    ghost const given: CachePolicy
    const policy: PolicyInner
    const size: V -> nat
    var items: map<K, V>
    var trackedSize: nat

    ghost predicate Valid()
      reads this
    {
      && policy == Flatten(given)
      && trackedSize == (if policy.tracked then TotalSize(items, size) else 0)
      && Fits(policy, items, size)
      && (policy.maxSize == 0 ==> items == map[])
    }

    constructor (policy: CachePolicy, size: V -> nat)
      ensures Valid() && items == map[] && given == policy && this.size == size
    {
      this.policy, this.size, items, trackedSize := Flatten(policy), size, map[], 0;
      given := policy;
    }

    /** A valid cache is within the bound of the policy it was made with: nothing for an empty one, so many items for a
        counted one, and for a tracked one a total size that it passes only with few items. */
    lemma KeepsWithin()
      requires Valid()
      ensures Within(given, items, size)
    {
    }

    method TrackedEvict()
      requires policy == Flatten(given) && policy.tracked && trackedSize == TotalSize(items, size)
      modifies this
      ensures trackedSize == TotalSize(items, size)
      ensures Trimmed(policy, old(items), items, size)
    {
      ghost var full, victim := items, None;
      while trackedSize > policy.maxSize && |items| > policy.minItems
        invariant trackedSize == TotalSize(items, size)
        invariant PartOf(items, full)
        invariant if victim.None? then items == full
                  else && victim.value in full && victim.value !in items
                       && !Fits(policy, items[victim.value := full[victim.value]], size)
        decreases |items|
      {
        var k :| k in items;
        TotalSizeDrop(items, size, k);
        WithoutSize(items, k);
        victim := Some(k);
        assert Without(items, k)[k := full[k]] == items;
        trackedSize := trackedSize - size(items[k]);
        items := Without(items, k);
      }
    }

    /** Room for one more item in a counted cache: a full cache loses one arbitrary item first, even
        when the key to be inserted is already there. */
    method MakeRoom()
      requires Valid() && !policy.tracked && policy.maxSize > 0
      modifies this
      ensures Valid() && |items| < policy.maxSize
      ensures if old(|items|) == policy.maxSize
              then exists victim | victim in old(items) :: items == Without(old(items), victim)
              else items == old(items)
    {
      if |items| == policy.maxSize {
        assert items != map[];
        var k :| k in items;
        WithoutSize(items, k);
        items := Without(items, k);
      }
    }

    method InsertTracked(key: K, data: V)
      requires Valid() && policy.tracked && policy.maxSize > 0
      modifies this
      ensures Valid() && Trimmed(policy, old(items)[key := data], items, size)
    {
      TotalSizePut(items, size, key, data);
      trackedSize := trackedSize + size(data);
      if key in items {
        trackedSize := trackedSize - size(items[key]);
      }
      items := items[key := data];
      TrackedEvict();
    }

    method InsertCounted(key: K, data: V)
      requires Valid() && !policy.tracked && policy.maxSize > 0
      modifies this
      ensures Valid() && key in items && items[key] == data
      ensures if old(|items|) == policy.maxSize
              then exists victim | victim in old(items) :: items == Without(old(items), victim)[key := data]
              else items == old(items)[key := data]
    {
      MakeRoom();
      assert items[key := data].Keys == items.Keys + {key};
      items := items[key := data];
    }

    method Insert(key: K, data: V)
      requires Valid()
      modifies this
      ensures Valid()
      ensures PartOf(items, old(items)[key := data])
      ensures Inserted(policy, old(items), key, data, items, size) && Within(given, items, size)
    {
      hide TotalSize, Fits;
      KeepsWithin();
      if policy.maxSize == 0 {
        return;
      }
      if policy.tracked {
        InsertTracked(key, data);
      } else {
        InsertCounted(key, data);
      }
      KeepsWithin();
    }

    method InsertMany(entries: seq<(K, V)>)
      requires Valid()
      modifies this
      ensures Valid()
      ensures PartOf(items, PutAll(old(items), entries)) && Within(given, items, size)
      ensures entries != [] && !policy.tracked && policy.maxSize > 0 ==>
                var (key, data) := entries[|entries| - 1]; key in items && items[key] == data
    {
      KeepsWithin();
      for i := 0 to |entries|
        invariant Valid()
        invariant PartOf(items, PutAll(old(items), entries[..i])) && Within(given, items, size)
        invariant i > 0 && !policy.tracked && policy.maxSize > 0 ==>
                    var (key, data) := entries[i - 1]; key in items && items[key] == data
      {
        Insert(entries[i].0, entries[i].1);
        assert entries[..i + 1][..i] == entries[..i];
      }
      assert entries[..|entries|] == entries;
    }

    method UpdateIfEntryExists(key: K, op: V -> V)
      requires Valid()
      modifies this
      ensures Valid()
      ensures Within(given, items, size)
      ensures if key in old(items)
              then if policy.tracked then Trimmed(policy, old(items)[key := op(old(items)[key])], items, size)
                   else items == old(items)[key := op(old(items)[key])]
              else items == old(items)
    {
      KeepsWithin();
      if policy.maxSize == 0 || key !in items {
        return;
      }
      var data := op(items[key]);
      if policy.tracked {
        TotalSizePut(items, size, key, data);
        TotalSizeDrop(items, size, key);
        trackedSize := trackedSize - size(items[key]);
        trackedSize := trackedSize + size(data);
        items := items[key := data];
        TrackedEvict();
      } else {
        assert items[key := data].Keys == items.Keys;
        items := items[key := data];
      }
      KeepsWithin();
    }

    method Remove(key: K) returns (r: Option<V>)
      requires Valid()
      modifies this
      ensures Valid() && items == Without(old(items), key)
      ensures r == if key in old(items) then Some(old(items)[key]) else None
    {
      if policy.maxSize == 0 || key !in items {
        assert Without(items, key) == items;
        return None;
      }
      r := Some(items[key]);
      WithoutSize(items, key);
      if policy.tracked {
        TotalSizeDrop(items, size, key);
        trackedSize := trackedSize - size(items[key]);
      }
      items := Without(items, key);
    }

    method RemoveAll()
      requires Valid()
      modifies this
      ensures Valid() && items == map[]
    {
      if policy.maxSize == 0 {
        return;
      }
      items := map[];
      if policy.tracked {
        trackedSize := 0;
      }
    }
  }
}
