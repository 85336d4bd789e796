/** Small shared vocabulary. */
module Util {

  datatype Option<+T> = None | Some(value: T)

  /** One past the largest unsigned 64-bit number. */
  const TWO_64: nat := 0x1_0000_0000_0000_0000

  /** The elements of a sequence as a set. */
  function Elements<T>(s: seq<T>): set<T> {
    set x | x in s
  }

  ghost predicate Distinct<T>(s: seq<T>) {
    forall i, j :: 0 <= i < j < |s| ==> s[i] != s[j]
  }

  lemma {:induction false} DistinctSize<T>(s: seq<T>)
    requires Distinct(s)
    ensures |Elements(s)| == |s|
  {
    if s != [] {
      var n := |s| - 1;
      DistinctSize(s[..n]);
      assert Elements(s) == Elements(s[..n]) + {s[n]};
      assert s[n] !in Elements(s[..n]);
    }
  }

  /** Removal of one key. */
  function Without<K(==), V>(m: map<K, V>, key: K): map<K, V> {
    map k | k in m && k != key :: m[k]
  }

  lemma WithoutSize<K, V>(m: map<K, V>, key: K)
    ensures |Without(m, key)| == if key in m then |m| - 1 else |m|
  {
    var r := Without(m, key);
    if key in m {
      assert m.Keys == r.Keys + {key};
    } else {
      assert r == m;
    }
  }

  ghost function Pick<K, V>(m: map<K, V>): (k: K)
    requires m != map[]
    ensures k in m
  {
    var k :| k in m;
    k
  }

  /** The sizes of the values of a map, added up. */
  ghost function TotalSize<K, V>(m: map<K, V>, size: V -> nat): nat
    decreases |m|
  {
    if m == map[] then 0
    else
      WithoutSize(m, Pick(m));
      size(m[Pick(m)]) + TotalSize(Without(m, Pick(m)), size)
  }

  lemma {:induction false} TotalSizeDrop<K, V>(m: map<K, V>, size: V -> nat, key: K)
    requires key in m
    ensures TotalSize(m, size) == size(m[key]) + TotalSize(Without(m, key), size)
    decreases |m|
  {
    var k := Pick(m);
    if k != key {
      WithoutSize(m, k);
      WithoutSize(m, key);
      TotalSizeDrop(Without(m, k), size, key);
      TotalSizeDrop(Without(m, key), size, k);
      assert Without(Without(m, k), key) == Without(Without(m, key), k);
    }
  }

  /** Adding or replacing a value changes the total by the sizes of the new and the old value. */
  lemma TotalSizePut<K, V>(m: map<K, V>, size: V -> nat, key: K, v: V)
    ensures TotalSize(m[key := v], size) + (if key in m then size(m[key]) else 0) == TotalSize(m, size) + size(v)
  {
    TotalSizeDrop(m[key := v], size, key);
    assert Without(m[key := v], key) == Without(m, key);
    if key in m {
      TotalSizeDrop(m, size, key);
    } else {
      assert Without(m, key) == m;
    }
  }

  /** Entries put in order, the last value of a key winning. */
  function PutAll<K(==), V>(m: map<K, V>, entries: seq<(K, V)>): map<K, V> {
    if entries == [] then m
    else PutAll(m, entries[..|entries| - 1])[entries[|entries| - 1].0 := entries[|entries| - 1].1]
  }

  function WithoutAll<K(==), V>(m: map<K, V>, keys: seq<K>): map<K, V> {
    if keys == [] then m else Without(WithoutAll(m, keys[..|keys| - 1]), keys[|keys| - 1])
  }

  lemma {:induction false} SubsetSize<T>(a: set<T>, b: set<T>)
    requires a <= b
    ensures |a| <= |b|
    decreases |a|
  {
    if a != {} {
      var x :| x in a;
      SubsetSize(a - {x}, b - {x});
    }
  }
}
