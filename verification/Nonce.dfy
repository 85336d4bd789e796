/**
 * Nonces of submitted shares: the process-wide extranonce allocator (client_handler.rs) and the assembly of a
 * 64-bit nonce from a client's extranonce and the text it submits (share_handler.rs).
 */
module Nonce {
  import opened Util
  import opened Hex

  const MAX_EXTRANONCE: nat := 65535

  /** Value handed out by the `n`-th allocation since start-up, counting from zero. */
  function Allocation(n: nat): nat {
    n % (MAX_EXTRANONCE + 1)
  }

  class ExtranonceAllocator {
    var next: nat
    /** Allocations made so far. */
    ghost var made: nat

    ghost predicate Valid()
      reads this
    {
      next == Allocation(made)
    }

    constructor ()
      ensures Valid() && made == 0
    {
      next, made := 0, 0;
    }

    /** The extranonce text of a new client; a Bitmain client gets none. */
    method Assign(bitmain: bool) returns (extranonce: string)
      requires Valid()
      modifies this
      ensures Valid() && made == old(made) + (if bitmain then 0 else 1)
      ensures extranonce == if bitmain then "" else Fixed(old(made) % 65536, 4)
    {
      if bitmain {
        return "";
      }
      var value := next;
      next := if next < MAX_EXTRANONCE then next + 1 else 0;
      made := made + 1;
      extranonce := Fixed(value, 4);
    }
  }

  /** Two allocations give the same extranonce exactly when they are a multiple of 65,536 apart. */
  lemma AllocationsRepeat(i: nat, j: nat)
    ensures Allocation(i) == Allocation(j) <==> (i - j) % 65536 == 0
  {
  }

  /** Removal of every "0x", scanning left to right. */
  function Strip0x(s: string): string {
    if s == "" then ""
    else if |s| >= 2 && s[0] == '0' && s[1] == 'x' then Strip0x(s[2..])
    else [s[0]] + Strip0x(s[1..])
  }

  /** "0x" does not occur in the text. */
  ghost predicate Bare(s: string) {
    forall i :: 0 <= i && i + 1 < |s| && s[i] == '0' ==> s[i + 1] != 'x'
  }

  /** A text without "0x" is left as it is. */
  lemma {:induction false} StripBare(s: string)
    requires Bare(s)
    ensures Strip0x(s) == s
  {
    if s != "" {
      StripBare(s[1..]);
    }
  }

  /** Every "0x" goes, wherever it stands; with the above this says what any text is stripped to. */
  lemma {:induction false} StripAt(a: string, b: string)
    ensures Strip0x(a + "0x" + b) == Strip0x(a) + Strip0x(b)
    decreases |a|
  {
    hide Strip0x;
    var s := a + "0x" + b;
    if a == "" {
      assert s[2..] == b;
      StripStep(s);
      StripStep(a);
    } else if |a| >= 2 && a[0] == '0' && a[1] == 'x' {
      assert s[2..] == a[2..] + "0x" + b;
      StripStep(s);
      StripStep(a);
      StripAt(a[2..], b);
    } else {
      assert s[1..] == a[1..] + "0x" + b;
      StripStep(s);
      StripStep(a);
      StripAt(a[1..], b);
    }
  }

  lemma StripStep(s: string)
    ensures Strip0x(s) == if s == "" then "" else if |s| >= 2 && s[0] == '0' && s[1] == 'x' then Strip0x(s[2..])
                          else [s[0]] + Strip0x(s[1..])
  {
  }

  function Zeros(n: nat): (s: string)
    ensures |s| == n
  {
    if n == 0 then "" else Zeros(n - 1) + "0"
  }

  /** Prepends the extranonce when the stripped text leaves room for it. */
  function Assemble(extranonce: string, nonce: string): string {
    var room := if |extranonce| <= 16 then 16 - |extranonce| else 0;
    if extranonce != "" && |nonce| <= room then extranonce + (Zeros(room - |nonce|) + nonce) else nonce
  }

  /** The nonce a submission stands for; None when the text does not parse. */
  function NonceOf(extranonce: string, submitted: string): Option<nat> {
    ParseU64(Assemble(extranonce, Strip0x(submitted)))
  }

  lemma {:induction false} ZerosValue(n: nat)
    ensures Value(Zeros(n)) == Some(0)
  {
    if n > 0 {
      ZerosValue(n - 1);
      assert Zeros(n)[..n - 1] == Zeros(n - 1);
    }
  }

  lemma PaddedValue(n: nat, s: string)
    ensures Value(Zeros(n) + s) == Value(s)
  {
    hide Value;
    ZerosValue(n);
    ValueConcat(Zeros(n), s);
  }

  /**
   * A submission of at most twelve digits stands for extranonce * 2^48 + nonce, and is refused exactly when its text
   * is not hexadecimal.
   */
  lemma ShortNonce(e: nat, submitted: string)
    requires e <= MAX_EXTRANONCE && |Strip0x(submitted)| <= 12
    ensures var v := Value(Strip0x(submitted));
            NonceOf(Fixed(e, 4), submitted) == if v.Some? then Some(e * 0x1_0000_0000_0000 + v.value) else None
    ensures var v := Value(Strip0x(submitted)); v.Some? ==> v.value < 0x1_0000_0000_0000
  {
    hide Value, Fixed, Pow16, Strip0x;
    var n := Strip0x(submitted);
    var padded := Zeros(12 - |n|) + n;
    var text := Fixed(e, 4) + padded;
    assert Assemble(Fixed(e, 4), n) == text;
    Powers();
    FixedValue(e, 4);
    PaddedValue(12 - |n|, n);
    ValueConcat(Fixed(e, 4), padded);
    if Value(n).Some? {
      ValueBound(padded);
    }
    FirstDigit(Fixed(e, 4));
  }

  /** A longer submission is taken as it is, whoever sends it. */
  lemma LongNonce(e: nat, submitted: string)
    requires |Strip0x(submitted)| > 12
    ensures NonceOf(Fixed(e, 4), submitted) == NonceOf("", submitted) == ParseU64(Strip0x(submitted))
  {
  }

  /** What a submission is taken for without an extranonce: its hexadecimal value, after an optional plus sign, unless there
      is no digit or it needs more than 64 bits. */
  lemma PlainNonce(submitted: string)
    ensures var n := Strip0x(submitted);
            var digits := if n != "" && n[0] == '+' then n[1..] else n;
            NonceOf("", submitted) ==
            if digits != "" && Value(digits).Some? && Value(digits).value < 0x1_0000_0000_0000_0000 then Value(digits) else None
  {
  }

  /** Exactly when the extranonce has no say in what a submission stands for: when the text is longer than twelve digits
      or not hexadecimal. */
  lemma ExtranonceIgnored(submitted: string)
    ensures (forall e: nat, f: nat :: e <= MAX_EXTRANONCE && f <= MAX_EXTRANONCE ==>
               NonceOf(Fixed(e, 4), submitted) == NonceOf(Fixed(f, 4), submitted))
            <==> |Strip0x(submitted)| > 12 || Value(Strip0x(submitted)).None?
  {
    hide Value, Fixed, Strip0x, NonceOf;
    if |Strip0x(submitted)| > 12 {
      forall e: nat ensures NonceOf(Fixed(e, 4), submitted) == NonceOf("", submitted) { LongNonce(e, submitted); }
    } else {
      forall e: nat | e <= MAX_EXTRANONCE
        ensures var v := Value(Strip0x(submitted));
                NonceOf(Fixed(e, 4), submitted) == if v.Some? then Some(e * 0x1_0000_0000_0000 + v.value) else None
      {
        ShortNonce(e, submitted);
      }
      assert Value(Strip0x(submitted)).Some? ==> NonceOf(Fixed(0, 4), submitted) != NonceOf(Fixed(1, 4), submitted);
    }
  }

  /**
   * Two clients served fewer than 65,536 allocations apart never stand for the same nonce with short submissions;
   * those served a multiple of 65,536 apart do whenever they submit the same digits.
   */
  lemma ClientsApart(i: nat, j: nat, a: string, b: string)
    requires |Strip0x(a)| <= 12 && |Strip0x(b)| <= 12
    requires Value(Strip0x(a)).Some? && Value(Strip0x(b)).Some?
    ensures NonceOf(Fixed(Allocation(i), 4), a) == NonceOf(Fixed(Allocation(j), 4), b) <==>
            (i - j) % 65536 == 0 && Value(Strip0x(a)) == Value(Strip0x(b))
  {
    hide Value, Fixed, Strip0x, NonceOf;
    ShortNonce(Allocation(i), a);
    ShortNonce(Allocation(j), b);
    AllocationsRepeat(i, j);
  }
}
