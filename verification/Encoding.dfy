/** Job encodings sent to miners (hasher.rs): one 80-digit string in two dialects, and the legacy list of words. */
module Encoding {
  import opened Util
  import opened Bytes
  import opened Hex

  // ---- Byte orders ----

  function FromBE(b: Bytes): nat {
    if b == [] then 0 else 256 * FromBE(b[..|b| - 1]) + b[|b| - 1]
  }

  function FromLE(b: Bytes): nat {
    if b == [] then 0 else b[0] + 256 * FromLE(b[1..])
  }

  function ToBE(v: nat, n: nat): (b: Bytes)
    ensures |b| == n
  {
    if n == 0 then [] else ToBE(v / 256, n - 1) + [v % 256]
  }

  function ToLE(v: nat, n: nat): (b: Bytes)
    ensures |b| == n
  {
    if n == 0 then [] else [v % 256] + ToLE(v / 256, n - 1)
  }

  function Reverse(b: Bytes): (r: Bytes)
    ensures |r| == |b|
  {
    if b == [] then [] else Reverse(b[1..]) + [b[0]]
  }

  /** Lower-case hex of bytes, as a hash is displayed. */
  function HexEncode(b: Bytes): (s: string)
    ensures |s| == 2 * |b|
  {
    if b == [] then "" else HexEncode(b[..|b| - 1]) + Fixed(b[|b| - 1], 2)
  }

  lemma {:induction false} LERoundTrip(b: Bytes)
    ensures ToLE(FromLE(b), |b|) == b
  {
    if b != [] {
      LERoundTrip(b[1..]);
      var v, w := FromLE(b), FromLE(b[1..]);
      assert v % 256 == b[0] && v / 256 == w;
      assert b == [b[0]] + b[1..];
    }
  }

  lemma {:induction false} ToLERoundTrip(v: nat, n: nat)
    requires v < Pow16(2 * n)
    ensures FromLE(ToLE(v, n)) == v
  {
    if n > 0 {
      assert Pow16(2 * n) == 16 * (16 * Pow16(2 * (n - 1)));
      ToLERoundTrip(v / 256, n - 1);
      assert ToLE(v, n)[1..] == ToLE(v / 256, n - 1);
    }
  }

  lemma {:induction false} ReverseSnoc(b: Bytes, x: byte)
    ensures Reverse(b + [x]) == [x] + Reverse(b)
  {
    if b != [] {
      ReverseSnoc(b[1..], x);
      assert (b + [x])[1..] == b[1..] + [x];
    }
  }

  lemma {:induction false} ReverseToBE(v: nat, n: nat)
    ensures Reverse(ToBE(v, n)) == ToLE(v, n)
  {
    if n > 0 {
      ReverseToBE(v / 256, n - 1);
      ReverseSnoc(ToBE(v / 256, n - 1), v % 256);
    }
  }

  lemma {:induction false} FromReverse(b: Bytes)
    ensures FromBE(Reverse(b)) == FromLE(b)
  {
    if b != [] {
      FromReverse(b[1..]);
      assert Reverse(b)[..|b| - 1] == Reverse(b[1..]);
    }
  }

  /** Formatting a big-endian word is hex encoding of its bytes. */
  lemma {:induction false} FixedIsHex(b: Bytes)
    ensures Fixed(FromBE(b), 2 * |b|) == HexEncode(b)
  {
    if b != [] {
      var n := |b| - 1;
      FixedIsHex(b[..n]);
      FixedByte(FromBE(b[..n]), b[n], 2 * n);
    }
  }

  lemma FixedByte(v: nat, b: byte, width: nat)
    ensures Fixed(256 * v + b, width + 2) == Fixed(v, width) + Fixed(b, 2)
  {
    hide Digit;
    var x := 256 * v + b;
    assert x / 16 == 16 * v + b / 16 && x % 16 == b % 16;
    assert x / 16 / 16 == v && (x / 16) % 16 == b / 16;
    assert Fixed(b, 2) == Fixed(b / 16, 1) + [Digit(b % 16)] && Fixed(b / 16, 1) == Fixed(0, 0) + [Digit(b / 16)];
    assert Fixed(x, width + 2) == Fixed(v, width) + [Digit(b / 16)] + [Digit(b % 16)];
  }

  // ---- The encodings ----

  const WORD: nat := 8

  /** The IceRiver form: the hash as displayed, then the timestamp's little-endian bytes. */
  function IceRiverParams(hash: Bytes, timestamp: nat): string {
    HexEncode(hash) + HexEncode(ToLE(timestamp, WORD))
  }

  /** The words the encoders read: the first four whole words of the data. */
  function WordCount(data: Bytes): nat {
    if |data| >= 4 * WORD then 4 else |data| / WORD
  }

  /**
   * The BzMiner form. Fewer than four whole words make the formatting index out of range, which is None; otherwise
   * it is the IceRiver form of the first 32 bytes.
   */
  method LargeJobParams(data: Bytes, timestamp: nat) returns (r: Option<string>)
    requires timestamp < TWO_64
    ensures r == if |data| < 32 then None else Some(IceRiverParams(data[..32], timestamp))
  {
    var ids: seq<nat> := [];
    for i := 0 to 4
      invariant |ids| == if i <= WordCount(data) then i else WordCount(data)
      invariant forall k :: 0 <= k < |ids| ==> ids[k] == FromBE(data[k * WORD..(k + 1) * WORD])
    {
      var offset := i * WORD;
      if offset + WORD <= |data| {
        ids := ids + [FromBE(data[offset..offset + WORD])];
      }
    }
    var swapped := FromLE(ToBE(timestamp, WORD));
    ids := ids + [swapped];
    if |ids| < 5 {
      return None;
    }
    FormatsAsIceRiver(data, timestamp);
    r := Some(Fixed(ids[0], 16) + Fixed(ids[1], 16) + Fixed(ids[2], 16) + Fixed(ids[3], 16) + Fixed(ids[4], 16));
  }

  lemma {:induction false} HexEncodeConcat(a: Bytes, b: Bytes)
    ensures HexEncode(a + b) == HexEncode(a) + HexEncode(b)
  {
    if b == [] {
      assert a + b == a;
    } else {
      hide Fixed;
      var n, ab := |b| - 1, a + b;
      HexEncodeConcat(a, b[..n]);
      assert ab[..|ab| - 1] == a + b[..n] && ab[|ab| - 1] == b[n];
      assert HexEncode(ab) == HexEncode(a) + HexEncode(b[..n]) + Fixed(b[n], 2);
      assert HexEncode(b) == HexEncode(b[..n]) + Fixed(b[n], 2);
    }
  }

  lemma FormatsAsIceRiver(data: Bytes, timestamp: nat)
    requires |data| >= 32
    ensures Fixed(FromBE(data[0..8]), 16) + Fixed(FromBE(data[8..16]), 16) + Fixed(FromBE(data[16..24]), 16)
            + Fixed(FromBE(data[24..32]), 16) + Fixed(FromLE(ToBE(timestamp, WORD)), 16)
            == IceRiverParams(data[..32], timestamp)
  {
    hide Fixed, FromBE, FromLE, ToBE, ToLE, HexEncode;
    FixedIsHex(data[0..8]);
    FixedIsHex(data[8..16]);
    FixedIsHex(data[16..24]);
    FixedIsHex(data[24..32]);
    SwappedTimestamp(timestamp);
    assert data[..32] == data[0..8] + data[8..16] + data[16..24] + data[24..32];
    HexEncodeConcat(data[0..8], data[8..16]);
    HexEncodeConcat(data[0..8] + data[8..16], data[16..24]);
    HexEncodeConcat(data[0..8] + data[8..16] + data[16..24], data[24..32]);
  }

  /** Reading big-endian bytes in little-endian order and formatting the word prints the little-endian bytes. */
  lemma SwappedTimestamp(timestamp: nat)
    ensures Fixed(FromLE(ToBE(timestamp, WORD)), 16) == HexEncode(ToLE(timestamp, WORD))
  {
    hide Fixed, FromBE, FromLE, HexEncode;
    FromReverse(ToBE(timestamp, WORD));
    ReverseToBE(timestamp, WORD);
    FixedIsHex(ToLE(timestamp, WORD));
  }

  // ---- Decoding ----

  function HexDecode(s: string): Option<Bytes> {
    if s == "" then Some([])
    else if |s| == 1 then None
    else
      match (HexDecode(s[..|s| - 2]), Value(s[|s| - 2..]))
      case (Some(b), Some(v)) => if v < 256 then Some(b + [v]) else None
      case _ => None
  }

  /** What a miner makes of the 80 digits. */
  function DecodeJob(s: string): Option<(Bytes, nat)> {
    if |s| != 80 then None
    else
      match HexDecode(s)
      case Some(b) => if |b| == 40 then Some((b[..32], FromLE(b[32..]))) else None
      case None => None
  }

  lemma {:induction false} HexRoundTrip(b: Bytes)
    ensures HexDecode(HexEncode(b)) == Some(b)
  {
    hide Value, Fixed, Pow16;
    if b != [] {
      var n, s := |b| - 1, HexEncode(b);
      HexRoundTrip(b[..n]);
      assert s[..|s| - 2] == HexEncode(b[..n]) && s[|s| - 2..] == Fixed(b[n], 2);
      TwoDigits();
      FixedValue(b[n], 2);
      assert b == b[..n] + [b[n]];
    }
  }

  lemma TwoDigits()
    ensures Pow16(2) == 256
  {
    assert Pow16(2) == 16 * (16 * Pow16(0));
  }

  /** Either dialect decodes to the hash and the timestamp it was made from. */
  lemma JobRoundTrip(hash: Bytes, timestamp: nat)
    requires |hash| == 32 && timestamp < TWO_64
    ensures |IceRiverParams(hash, timestamp)| == 80
    ensures DecodeJob(IceRiverParams(hash, timestamp)) == Some((hash, timestamp))
  {
    hide HexEncode, HexDecode, ToLE, FromLE;
    var b := hash + ToLE(timestamp, WORD);
    HexEncodeConcat(hash, ToLE(timestamp, WORD));
    HexRoundTrip(b);
    Powers();
    ToLERoundTrip(timestamp, WORD);
    assert b[..32] == hash && b[32..] == ToLE(timestamp, WORD);
  }

  /** The bytes a list of little-endian words stands for. */
  function Unwords(words: seq<nat>): Bytes {
    if words == [] then [] else Unwords(words[..|words| - 1]) + ToLE(words[|words| - 1], WORD)
  }

  /** The legacy form: up to four little-endian words, which stand for the leading bytes of the data. */
  method JobHeader(data: Bytes) returns (ids: seq<nat>)
    ensures |ids| == WordCount(data) && forall k :: 0 <= k < |ids| ==> ids[k] < TWO_64
    ensures Unwords(ids) == data[..WORD * WordCount(data)]
  {
    ids := [];
    for i := 0 to 4
      invariant |ids| == if i <= WordCount(data) then i else WordCount(data)
      invariant forall k :: 0 <= k < |ids| ==> ids[k] < TWO_64
      invariant Unwords(ids) == data[..WORD * |ids|]
    {
      var offset := i * WORD;
      if offset + WORD <= |data| {
        var word := data[offset..offset + WORD];
        ids := ids + [FromLE(word)];
        LERoundTrip(word);
        WordBound(word);
        assert data[..WORD * (i + 1)] == data[..offset] + word;
        assert ids[..i] + [FromLE(word)] == ids;
      }
    }
  }

  lemma WordBound(word: Bytes)
    requires |word| == WORD
    ensures FromLE(word) < TWO_64
  {
    LEBound(word);
    Powers();
  }

  lemma {:induction false} LEBound(b: Bytes)
    ensures FromLE(b) < Pow16(2 * |b|)
  {
    if b != [] {
      LEBound(b[1..]);
      assert Pow16(2 * |b|) == 16 * (16 * Pow16(2 * |b[1..]|));
    }
  }
}
