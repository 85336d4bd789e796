/** Iteration over a store (access.rs): `iterator`, and paging with `seek_iterator`. */
module Pages {
  import opened Util
  import opened Bytes
  import opened Store

  /** The rows of the DB in key order, as RocksDB keeps them. */
  ghost predicate Listing<V>(keys: seq<Bytes>, rows: Rows<V>) {
    Ascending(keys) && forall k :: k in keys <==> k in rows
  }

  ghost predicate Ascending(keys: seq<Bytes>) {
    forall i, j :: 0 <= i < j < |keys| ==> Less(keys[i], keys[j])
  }

  /** The keys that satisfy a test, in the same order. */
  function Select(keys: seq<Bytes>, test: Bytes -> bool): seq<Bytes> {
    if keys == [] then []
    else if test(keys[0]) then [keys[0]] + Select(keys[1..], test)
    else Select(keys[1..], test)
  }

  lemma {:induction false} SelectIs(keys: seq<Bytes>, test: Bytes -> bool)
    ensures forall k :: k in Select(keys, test) <==> k in keys && test(k)
    ensures Ascending(keys) ==> Ascending(Select(keys, test))
  {
    if keys != [] {
      SelectIs(keys[1..], test);
      assert keys == [keys[0]] + keys[1..];
      if Ascending(keys) {
        assert forall k :: k in keys[1..] ==> Less(keys[0], k);
      }
    }
  }

  lemma {:induction false} SelectTwice(keys: seq<Bytes>, p: Bytes -> bool, q: Bytes -> bool, both: Bytes -> bool)
    requires forall k :: both(k) <==> p(k) && q(k)
    ensures Select(Select(keys, p), q) == Select(keys, both)
  {
    if keys != [] {
      SelectTwice(keys[1..], p, q, both);
      if p(keys[0]) {
        var s := Select(keys, p);
        assert s[0] == keys[0] && s[1..] == Select(keys[1..], p);
      }
    }
  }

  /** On ascending keys, selecting from a member on gives the tail that starts with it. */
  lemma {:induction false} SelectTail(keys: seq<Bytes>, i: nat, test: Bytes -> bool)
    requires Ascending(keys) && i < |keys|
    requires forall k :: test(k) <==> AtMost(keys[i], k)
    ensures Select(keys, test) == keys[i..]
  {
    if i > 0 {
      LessIsTotal(keys[0], keys[i]);
      SelectTail(keys[1..], i - 1, test);
      assert keys[1..][i - 1..] == keys[i..];
    } else {
      SelectAll(keys, test);
    }
  }

  lemma {:induction false} SelectAll(keys: seq<Bytes>, test: Bytes -> bool)
    requires forall k :: k in keys ==> test(k)
    ensures Select(keys, test) == keys
  {
    if keys != [] {
      SelectAll(keys[1..], test);
    }
  }

  /** A raw iterator bounded to the range of `base` and positioned at `from`. */
  function Cursor(keys: seq<Bytes>, base: Bytes, from: Bytes): seq<Bytes> {
    Select(keys, k => InRange(k, base, Successor(base)) && AtMost(from, k))
  }

  /** The key handed to the caller: the full key without the store prefix. */
  function Stripped(key: Bytes, prefix: Bytes): Bytes
    requires prefix <= key
  {
    key[|prefix|..]
  }

  /** At most `limit` keys from position `n` on. */
  function Window(all: seq<Bytes>, n: nat, limit: nat): seq<Bytes>
    requires n <= |all|
  {
    if limit < |all| - n then all[n..n + limit] else all[n..]
  }

  lemma CursorInRange(keys: seq<Bytes>, base: Bytes, from: Bytes, k: Bytes)
    ensures k in Cursor(keys, base, from) <==> k in keys && base <= k && AtMost(from, k)
  {
    SelectIs(keys, k => InRange(k, base, Successor(base)) && AtMost(from, k));
    RangeIsPrefix(base, k);
  }

  function IteratorKeys(keys: seq<Bytes>, prefix: Bytes): seq<Bytes> {
    Cursor(keys, prefix, prefix)
  }

  /** The keys `seek_iterator` visits. `bucket` extends the prefix, `seekFrom` is relative to the prefix
      without the bucket. */
  function SeekKeys(keys: seq<Bytes>, prefix: Bytes, bucket: Bytes, seekFrom: Option<Bytes>, limit: nat, skipFirst: bool): seq<Bytes> {
    var base := prefix + bucket;
    var all := Cursor(keys, base, if seekFrom.Some? then prefix + seekFrom.value else base);
    var rest := if skipFirst && all != [] then all[1..] else all;
    if limit < |rest| then rest[..limit] else rest
  }

  /** `iterator` lists the store: stripped keys in ascending order, each row of the store exactly once. */
  lemma IteratorListsStore<V>(keys: seq<Bytes>, rows: Rows<V>, prefix: Bytes, k: Bytes)
    requires Listing(keys, rows)
    ensures var visited := IteratorKeys(keys, prefix);
            && Ascending(visited) && Distinct(visited)
            && (prefix + k in visited <==> prefix + k in rows)
            && (forall x :: x in visited ==> x in rows && prefix <= x && prefix + Stripped(x, prefix) == x)
  {
    var visited := IteratorKeys(keys, prefix);
    SelectIs(keys, k => InRange(k, prefix, Successor(prefix)) && AtMost(prefix, k));
    forall x ensures x in visited <==> x in keys && prefix <= x {
      CursorInRange(keys, prefix, prefix, x);
      RangeIsPrefix(prefix, x);
    }
    AscendingDistinct(visited);
  }

  lemma AscendingDistinct(keys: seq<Bytes>)
    requires Ascending(keys)
    ensures Distinct(keys)
  {
    forall i, j | 0 <= i < j < |keys| ensures keys[i] != keys[j] {
      LessIsTotal(keys[i], keys[j]);
    }
  }

  /** What `seek_iterator` visits, for any bucket: of the rows of the bucket from the sought key on, in key order, all but
      the first one when it is to be skipped, and at most `limit`. */
  lemma SeekIs<V>(keys: seq<Bytes>, rows: Rows<V>, prefix: Bytes, bucket: Bytes, seekFrom: Option<Bytes>, limit: nat,
                  skipFirst: bool) returns (all: seq<Bytes>)
    requires Listing(keys, rows)
    ensures Ascending(all)
    ensures forall k :: k in all <==>
              k in rows && prefix + bucket <= k && (seekFrom.Some? ==> AtMost(prefix + seekFrom.value, k))
    ensures SeekKeys(keys, prefix, bucket, seekFrom, limit, skipFirst)
         == Window(all, if skipFirst && all != [] then 1 else 0, limit)
  {
    var base := prefix + bucket;
    var from := if seekFrom.Some? then prefix + seekFrom.value else base;
    all := Cursor(keys, base, from);
    CursorAscends(keys, base, from);
    forall k
      ensures k in all <==> k in rows && base <= k && (seekFrom.Some? ==> AtMost(from, k))
    {
      CursorInRange(keys, base, from, k);
      RangeIsPrefix(base, k);
    }
  }

  /** A page of a bucket, sought from one of its keys and skipping that key, starts right behind it. The caller gets keys
      without the bucket and has to put it back in front to seek. */
  lemma PageFollows<V>(keys: seq<Bytes>, rows: Rows<V>, prefix: Bytes, bucket: Bytes, i: nat, limit: nat)
    requires Listing(keys, rows) && i < |IteratorKeys(keys, prefix + bucket)|
    ensures var base := prefix + bucket;
            var all := IteratorKeys(keys, base);
            base <= all[i]
            && SeekKeys(keys, prefix, bucket, Some(bucket + Stripped(all[i], base)), limit, true) == Window(all, i + 1, limit)
  {
    var base := prefix + bucket;
    var all := IteratorKeys(keys, base);
    IteratorListsStore(keys, rows, base, []);
    assert all[i] in all;
    assert prefix + (bucket + all[i][|base|..]) == all[i];
    var p := (k: Bytes) => InRange(k, base, Successor(base)) && AtMost(base, k);
    var q := (k: Bytes) => AtMost(all[i], k);
    var both := (k: Bytes) => InRange(k, base, Successor(base)) && AtMost(all[i], k);
    SelectTwice(keys, p, q, both);
    SelectTail(all, i, q);
    assert Cursor(keys, base, all[i]) == all[i..];
  }

  lemma FirstPage(keys: seq<Bytes>, prefix: Bytes, bucket: Bytes, limit: nat)
    ensures SeekKeys(keys, prefix, bucket, None, limit, false) == Window(IteratorKeys(keys, prefix + bucket), 0, limit)
  {
  }

  /**
   * Paging through an unchanging bucket, or the whole store when it is empty. The first page starts at the beginning,
   * every later one is sought from the last key returned and skips it; the pages together are what an iterator over
   * the bucket visits.
   */
  method CollectPages<V>(keys: seq<Bytes>, rows: Rows<V>, prefix: Bytes, bucket: Bytes, limit: nat) returns (visited: seq<Bytes>)
    requires Listing(keys, rows) && limit > 0
    ensures visited == IteratorKeys(keys, prefix + bucket)
  {
    hide SeekKeys, IteratorKeys, Listing;
    var base := prefix + bucket;
    ghost var all := IteratorKeys(keys, base);
    FirstPage(keys, prefix, bucket, limit);
    var page := SeekKeys(keys, prefix, bucket, None, limit, false);
    visited := [];
    while page != []
      invariant |visited| <= |all| && visited == all[..|visited|]
      invariant page == Window(all, |visited|, limit)
      decreases |all| - |visited|
    {
      visited := visited + page;
      PageFollows(keys, rows, prefix, bucket, |visited| - 1, limit);
      page := SeekKeys(keys, prefix, bucket, Some(bucket + Stripped(visited[|visited| - 1], base)), limit, true);
    }
  }

  /**
   * Skipping is blind: it drops the first row found, whatever its key. A page sought from `seek` therefore returns every
   * row of the bucket behind `seek` exactly when `seek` is still one of its rows, or when there is nothing behind it.
   */
  lemma SkipExact<V>(keys: seq<Bytes>, rows: Rows<V>, prefix: Bytes, bucket: Bytes, seek: Bytes)
    requires Listing(keys, rows)
    ensures var base, from := prefix + bucket, prefix + seek;
            && ((forall k :: k in rows && base <= k && Less(from, k) ==>
                   k in SeekKeys(keys, prefix, bucket, Some(seek), |keys|, true))
                <==> (from in rows && base <= from) || (forall k :: k in rows && base <= k ==> !Less(from, k)))
  {
    hide Cursor, Select;
    var base, from := prefix + bucket, prefix + seek;
    var all := Cursor(keys, base, from);
    assert SeekKeys(keys, prefix, bucket, Some(seek), |keys|, true) == if all == [] then [] else all[1..] by {
      CursorIsShort(keys, base, from);
    }
    CursorAscends(keys, base, from);
    forall k ensures k in all <==> k in rows && base <= k && AtMost(from, k) {
      CursorInRange(keys, base, from, k);
    }
    if all != [] {
      LessIsTotal(from, all[0]);
      assert all == [all[0]] + all[1..];
      assert all[0] in all;
      if from in rows && base <= from {
        assert from in all;
        FirstIsLeast(all, from);
        LessIsTotal(from, from);
      } else {
        assert Less(from, all[0]);
        AscendingDistinct(all);
        assert all[0] !in all[1..];
      }
    }
  }

  /** Seeking from a key that has gone: without skipping the row behind it is found, with skipping it is lost. */
  lemma SkipLosesRow(prefix: Bytes, seek: Bytes, key: Bytes)
    requires Less(seek, key)
    ensures SeekKeys([prefix + key], prefix, [], Some(seek), 1, false) == [prefix + key]
    ensures SeekKeys([prefix + key], prefix, [], Some(seek), 1, true) == []
  {
    var all := Cursor([prefix + key], prefix, prefix + seek);
    PrefixedLess(prefix, seek, key);
    CursorInRange([prefix + key], prefix, prefix + seek, prefix + key);
    CursorIsShort([prefix + key], prefix, prefix + seek);
    assert prefix + [] == prefix;
    assert prefix + key in all && |all| == 1;
    assert all == [prefix + key];
  }

  lemma {:induction false} PrefixedLess(prefix: Bytes, a: Bytes, b: Bytes)
    ensures Less(prefix + a, prefix + b) <==> Less(a, b)
  {
    if prefix == [] {
      assert prefix + a == a && prefix + b == b;
    } else {
      PrefixedLess(prefix[1..], a, b);
      assert (prefix + a)[1..] == prefix[1..] + a && (prefix + b)[1..] == prefix[1..] + b;
    }
  }

  lemma FirstIsLeast(keys: seq<Bytes>, k: Bytes)
    requires Ascending(keys) && k in keys
    ensures AtMost(keys[0], k)
  {
  }

  lemma CursorAscends(keys: seq<Bytes>, base: Bytes, from: Bytes)
    requires Ascending(keys)
    ensures Ascending(Cursor(keys, base, from))
  {
    SelectIs(keys, k => InRange(k, base, Successor(base)) && AtMost(from, k));
  }

  lemma {:induction false} SelectShorter(keys: seq<Bytes>, test: Bytes -> bool)
    ensures |Select(keys, test)| <= |keys|
  {
    if keys != [] {
      SelectShorter(keys[1..], test);
    }
  }

  lemma CursorIsShort(keys: seq<Bytes>, base: Bytes, from: Bytes)
    ensures |Cursor(keys, base, from)| <= |keys|
  {
    SelectShorter(keys, k => InRange(k, base, Successor(base)) && AtMost(from, k));
  }
}
