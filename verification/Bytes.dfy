/** Byte strings in RocksDB's order, prefix ranges, and the keys of key.rs. */
module Bytes {
  import opened Util

  type byte = b: int | 0 <= b < 256

  type Bytes = seq<byte>

  /** Strict lexicographic order on unsigned bytes. */
  predicate Less(a: Bytes, b: Bytes) {
    b != [] && (a == [] || a[0] < b[0] || (a[0] == b[0] && Less(a[1..], b[1..])))
  }

  predicate AtMost(a: Bytes, b: Bytes) {
    a == b || Less(a, b)
  }

  lemma {:induction false} LessIsTotal(a: Bytes, b: Bytes)
    ensures !Less(a, a)
    ensures !(Less(a, b) && Less(b, a))
    ensures Less(a, b) || a == b || Less(b, a)
  {
    if a != [] && b != [] {
      LessIsTotal(a[1..], b[1..]);
      assert a == [a[0]] + a[1..] && b == [b[0]] + b[1..];
    }
    if a != [] { LessIsTotal(a[1..], a[1..]); }
  }

  lemma {:induction false} LessIsTransitive(a: Bytes, b: Bytes, c: Bytes)
    requires Less(a, b) && Less(b, c)
    ensures Less(a, c)
  {
    if a != [] && a[0] == b[0] == c[0] {
      LessIsTransitive(a[1..], b[1..], c[1..]);
    }
  }

  /** The exclusive upper end of RocksDB's `PrefixRange`: the prefix with its trailing 0xff bytes cut
      off and the byte before them increased, if there is one. */
  function Successor(prefix: Bytes): Option<Bytes> {
    if prefix == [] then None
    else
      match Successor(prefix[1..])
      case Some(tail) => Some([prefix[0]] + tail)
      case None => if prefix[0] == 255 then None else Some([prefix[0] + 1])
  }

  predicate InRange(key: Bytes, from: Bytes, to: Option<Bytes>) {
    AtMost(from, key) && (to.Some? ==> Less(key, to.value))
  }

  /** A key lies in the range of a prefix exactly when it starts with the prefix. */
  lemma {:induction false} RangeIsPrefix(prefix: Bytes, key: Bytes)
    ensures InRange(key, prefix, Successor(prefix)) <==> prefix <= key
  {
    if prefix != [] && key != [] {
      RangeIsPrefix(prefix[1..], key[1..]);
      assert prefix == [prefix[0]] + prefix[1..] && key == [key[0]] + key[1..];
      assert prefix <= key <==> prefix[0] == key[0] && prefix[1..] <= key[1..];
      var rest := Successor(prefix[1..]);
      if rest.Some? {
        assert Successor(prefix).value[1..] == rest.value;
      } else if key[0] == prefix[0] {
        assert AtMost(prefix, key) <==> AtMost(prefix[1..], key[1..]);
      } else {
        var p0: byte, k0: byte := prefix[0], key[0];
        assert Less(prefix, key) <==> p0 < k0;
        assert p0 < 255 ==> Successor(prefix) == Some([p0 + 1]) && (Less(key, [p0 + 1]) ==> k0 < p0 + 1 || Less(key[1..], [p0 + 1][1..]));
      }
    }
  }

  /** The upper end is the least byte string above every extension of the prefix. */
  lemma SuccessorIsLeast(prefix: Bytes, bound: Bytes)
    requires Successor(prefix).Some?
    requires forall key: Bytes :: prefix <= key ==> Less(key, bound)
    ensures AtMost(Successor(prefix).value, bound)
  {
    var next := Successor(prefix).value;
    LessIsTotal(next, bound);
    LessIsTotal(prefix, bound);
    LessIsTotal(bound, bound);
    RangeIsPrefix(prefix, bound);
    assert Less(prefix, bound);
  }

  /** There is no upper end exactly for the prefixes made of 0xff bytes only. */
  lemma {:induction false} SuccessorExists(prefix: Bytes)
    ensures Successor(prefix).None? <==> forall i :: 0 <= i < |prefix| ==> prefix[i] == 255
  {
    if prefix != [] {
      SuccessorExists(prefix[1..]);
      assert forall i :: 0 < i < |prefix| ==> prefix[i] == prefix[1..][i - 1];
      assert forall i :: 0 <= i < |prefix| - 1 ==> prefix[1..][i] == prefix[i + 1];
    }
  }

  /** Neither byte string is a prefix of the other. */
  predicate Apart(p: Bytes, q: Bytes) {
    !(p <= q) && !(q <= p)
  }

  /** Two prefixes of one key are nested, so stores with prefixes that are apart share no key. */
  lemma CommonKeyNests(p: Bytes, q: Bytes, key: Bytes)
    requires p <= key && q <= key
    ensures !Apart(p, q)
  {
    if |p| <= |q| {
      assert p == q[..|p|];
    } else {
      assert q == p[..|q|];
    }
  }

  /** `DbKey`: a path and the length of its store prefix. */
  class DbKey {
    var path: Bytes
    var prefixLen: nat

    constructor (prefix: Bytes, key: Bytes)
      ensures path == prefix + key && prefixLen == |prefix|
    {
      path, prefixLen := prefix + key, |prefix|;
    }

    constructor PrefixOnly(prefix: Bytes)
      ensures path == prefix && prefixLen == |path|
    {
      path, prefixLen := prefix, |prefix|;
    }

    method AddBucket(bucket: Bytes)
      modifies this
      ensures path == old(path) + bucket && prefixLen == old(prefixLen) + |bucket|
    {
      path := path + bucket;
      prefixLen := prefixLen + |bucket|;
    }

    /** The source counts an added key into the prefix length as well. */
    method AddKey(key: Bytes)
      modifies this
      ensures path == old(path) + key && prefixLen == old(prefixLen) + |key|
    {
      path := path + key;
      prefixLen := prefixLen + |key|;
    }
  }
}
