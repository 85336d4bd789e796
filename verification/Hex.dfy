/** Lower-case hexadecimal text, and the unsigned 64-bit parser of the standard library. */
module Hex {
  import opened Util

  const DIGITS: string := "0123456789abcdef"

  function Digit(d: nat): char
    requires d < 16
  {
    DIGITS[d]
  }

  /** Value of a digit, of either case. */
  function DigitValue(c: char): Option<nat> {
    if '0' <= c <= '9' then Some(c as nat - '0' as nat)
    else if 'a' <= c <= 'f' then Some(c as nat - 'a' as nat + 10)
    else if 'A' <= c <= 'F' then Some(c as nat - 'A' as nat + 10)
    else None
  }

  function Pow16(n: nat): (p: nat)
    ensures p >= 1
  {
    if n == 0 then 1 else 16 * Pow16(n - 1)
  }

  /** Zero-padded to `width` digits, which is how a number that fits is formatted. */
  function Fixed(v: nat, width: nat): (s: string)
    ensures |s| == width
  {
    if width == 0 then "" else Fixed(v / 16, width - 1) + [Digit(v % 16)]
  }

  /** Value of a string of digits, the empty one included. */
  function Value(s: string): Option<nat> {
    if s == "" then Some(0)
    else
      match (Value(s[..|s| - 1]), DigitValue(s[|s| - 1]))
      case (Some(v), Some(d)) => Some(16 * v + d)
      case _ => None
  }

  /** `u64::from_str_radix(s, 16)`: an optional plus sign, at least one digit, no overflow. */
  function ParseU64(s: string): Option<nat> {
    var digits := if s != "" && s[0] == '+' then s[1..] else s;
    if digits == "" then None
    else
      match Value(digits)
      case Some(v) => if v < TWO_64 then Some(v) else None
      case None => None
  }

  lemma DigitRoundTrip(d: nat)
    requires d < 16
    ensures DigitValue(Digit(d)) == Some(d)
  {
  }

  /** The digits, of either case, and what they are worth. */
  lemma DigitIs(c: char, d: nat)
    ensures DigitValue(c) == Some(d) <==> d < 16 && (c == "0123456789abcdef"[d] || c == "0123456789ABCDEF"[d])
    ensures d < 16 ==> Digit(d) == "0123456789abcdef"[d]
  {
  }

  lemma {:induction false} FixedValue(v: nat, width: nat)
    requires v < Pow16(width)
    ensures Value(Fixed(v, width)) == Some(v)
  {
    hide Digit, DigitValue;
    if width > 0 {
      FixedValue(v / 16, width - 1);
      DigitRoundTrip(v % 16);
      assert Fixed(v, width)[..width - 1] == Fixed(v / 16, width - 1);
    }
  }

  lemma {:induction false} ValueConcat(a: string, b: string)
    ensures Value(a + b).Some? <==> Value(a).Some? && Value(b).Some?
    ensures Value(a + b).Some? ==> Value(a + b).value == Value(a).value * Pow16(|b|) + Value(b).value
  {
    hide DigitValue;
    if b == "" {
      assert a + b == a;
    } else {
      var n := |b| - 1;
      ValueConcat(a, b[..n]);
      assert (a + b)[..|a| + n] == a + b[..n];
      if Value(a + b).Some? {
        Shift(Value(a).value, Pow16(n), Value(b[..n]).value, DigitValue(b[n]).value);
      }
    }
  }

  lemma Shift(x: nat, p: nat, y: nat, d: nat)
    ensures 16 * (x * p + y) + d == x * (16 * p) + (16 * y + d)
  {
  }

  lemma {:induction false} ValueBound(s: string)
    requires Value(s).Some?
    ensures Value(s).value < Pow16(|s|)
  {
    if s != "" {
      ValueBound(s[..|s| - 1]);
    }
  }

  lemma {:induction false} FirstDigit(s: string)
    requires s != "" && Value(s).Some?
    ensures DigitValue(s[0]).Some?
  {
    if |s| > 1 {
      FirstDigit(s[..|s| - 1]);
    }
  }

  lemma Powers()
    ensures Pow16(4) == 0x1_0000 && Pow16(12) == 0x1_0000_0000_0000 && Pow16(16) == TWO_64
  {
    assert Pow16(4) == 16 * (16 * (16 * 16));
    assert Pow16(6) == 16 * (16 * Pow16(4));
    assert Pow16(8) == 16 * (16 * Pow16(6));
    assert Pow16(10) == 16 * (16 * Pow16(8));
    assert Pow16(12) == 16 * (16 * Pow16(10));
    assert Pow16(14) == 16 * (16 * Pow16(12));
    assert Pow16(16) == 16 * (16 * Pow16(14));
  }
}
