/**
 * Rust's 64-bit signed integer text forms: `i64::from_str_radix` (and
 * `str::parse::<i64>`, which is the radix-10 case) and `Display` for `i64`.
 */
module Numbers {
  import opened Wrappers

  const I64Min: int := -0x8000_0000_0000_0000
  const I64Max: int := 0x7FFF_FFFF_FFFF_FFFF

  predicate InI64(n: int) {
    I64Min <= n <= I64Max
  }

  /** Rust's `char::to_digit(radix)`: digits, then letters of either case from 10 on. */
  function DigitValue(c: char, radix: nat): (r: Option<nat>)
    ensures r.Some? ==> r.value < radix
  {
    var d: int :=
      if '0' <= c <= '9' then c as int - '0' as int
      else if 'a' <= c <= 'z' then c as int - 'a' as int + 10
      else if 'A' <= c <= 'Z' then c as int - 'A' as int + 10
      else 36;
    if d < radix then Some(d as nat) else None
  }

  /** The value of a run of digits, most significant first; `None` if one is not a digit. */
  function DigitsValue(s: string, radix: nat): Option<nat>
  {
    if s == [] then Some(0)
    else match (DigitsValue(s[..|s| - 1], radix), DigitValue(s[|s| - 1], radix))
      case (Some(v), Some(d)) => Some(v * radix + d)
      case _ => None
  }

  /**
   * `i64::from_str_radix(s, radix)`, with the error collapsed to `None`:
   * one optional `+` or `-`, then at least one digit, and the value must fit
   * in an `i64`.
   */
  function ParseInt(s: string, radix: nat): (r: Option<int>)
    requires 2 <= radix <= 36
    ensures r.Some? ==> InI64(r.value)
  {
    var signed := |s| > 0 && (s[0] == '+' || s[0] == '-');
    var negative := signed && s[0] == '-';
    var digits := if signed then s[1..] else s;
    if digits == [] then None
    else match DigitsValue(digits, radix)
      case None => None
      case Some(v) =>
        var w: int := v;
        var n := if negative then -w else w;
        if InI64(n) then Some(n) else None
  }

  /** The lower-case digit character for `d`. */
  function DigitChar(d: nat): (c: char)
    requires d < 16
  {
    if d < 10 then ('0' as int + d) as char else ('a' as int + d - 10) as char
  }

  /** The digits of `n` in `radix`, most significant first, lower-case, without leading zeros. */
  function NatToDigits(n: nat, radix: nat): (r: string)
    requires 2 <= radix <= 16
    ensures |r| >= 1
    ensures forall i :: 0 <= i < |r| ==> DigitValue(r[i], radix).Some?
  {
    if n < radix then
      DigitRoundTrip(n, radix);
      [DigitChar(n)]
    else
      var q, d := n / radix, n % radix;
      DivSmaller(n, radix);
      DigitRoundTrip(d, radix);
      var pre := NatToDigits(q, radix);
      var r := pre + [DigitChar(d)];
      assert forall i :: 0 <= i < |r| ==> r[i] == if i < |pre| then pre[i] else DigitChar(d);
      r
  }

  /** `Display` for `i64`: a minus sign for negative values, then the decimal digits. */
  function DecimalString(n: int): (r: string)
    ensures forall i :: 0 <= i < |r| ==> r[i] == '-' || '0' <= r[i] <= '9'
  {
    if n < 0 then "-" + NatToDigits(-n, 10) else NatToDigits(n, 10)
  }

  lemma DigitRoundTrip(d: nat, radix: nat)
    requires 2 <= radix <= 16 && d < radix
    ensures DigitValue(DigitChar(d), radix) == Some(d)
  {
  }

  lemma DivMod(n: nat, radix: nat)
    requires radix > 0
    ensures (n / radix) * radix + n % radix == n
  {
  }

  lemma DivSmaller(n: nat, radix: nat)
    requires 2 <= radix <= n
    ensures n / radix < n && n % radix < radix
  {
  }

  lemma DigitsValueStep(s: string, radix: nat, v: nat, d: nat)
    requires s != []
    requires DigitsValue(s[..|s| - 1], radix) == Some(v)
    requires DigitValue(s[|s| - 1], radix) == Some(d)
    ensures DigitsValue(s, radix) == Some(v * radix + d)
  {
  }

  /** One character that is not a digit spoils the whole run. */
  lemma {:induction false} DigitsValueInvalid(s: string, radix: nat, i: nat)
    requires i < |s| && DigitValue(s[i], radix).None?
    ensures DigitsValue(s, radix).None?
  {
    if i < |s| - 1 {
      DigitsValueInvalid(s[..|s| - 1], radix, i);
    }
  }

  /** Printed digits read back as the number printed. */
  lemma {:induction false} DigitsRoundTrip(n: nat, radix: nat)
    requires 2 <= radix <= 16
    ensures DigitsValue(NatToDigits(n, radix), radix) == Some(n)
  {
    var s := NatToDigits(n, radix);
    if n < radix {
      DigitRoundTrip(n, radix);
      assert s[..0] == [];
    } else {
      var q, d := n / radix, n % radix;
      DivSmaller(n, radix);
      var pre := NatToDigits(q, radix);
      assert s == pre + [DigitChar(d)];
      DigitsRoundTrip(q, radix);
      DigitRoundTrip(d, radix);
      assert s[..|s| - 1] == pre;
      DigitsValueStep(s, radix, q, d);
      assert q * radix + d == n by {
        DivMod(n, radix);
      }
    }
  }

  /** `s.parse::<i64>()` reads back every printed `i64`. */
  lemma ParseDecimalString(n: int)
    requires InI64(n)
    ensures ParseInt(DecimalString(n), 10) == Some(n)
  {
    if n < 0 {
      DigitsRoundTrip(-n, 10);
      ParseNegative(NatToDigits(-n, 10), 10, -n);
    } else {
      DigitsRoundTrip(n, 10);
      ParseUnsigned(NatToDigits(n, 10), 10, n);
    }
  }

  /** A run of digits without a sign reads as its value. */
  lemma ParseUnsigned(s: string, radix: nat, v: nat)
    requires 2 <= radix <= 36 && s != [] && InI64(v)
    requires DigitValue(s[0], radix).Some? && DigitsValue(s, radix) == Some(v)
    ensures ParseInt(s, radix) == Some(v)
  {
    assert s[0] != '+' && s[0] != '-';
  }

  /** A minus sign before a run of digits negates its value. */
  lemma ParseNegative(s: string, radix: nat, v: nat)
    requires 2 <= radix <= 36 && s != [] && InI64(-(v as int))
    requires DigitsValue(s, radix) == Some(v)
    ensures ParseInt("-" + s, radix) == Some(-(v as int))
  {
    var signed := "-" + s;
    assert signed[0] == '-' && signed[1..] == s;
  }

  /** `i64::from_str_radix(_, 16)` reads back the lower-case hex digits of every non-negative `i64`. */
  lemma ParseHexDigits(n: nat)
    requires n <= I64Max
    ensures ParseInt(NatToDigits(n, 16), 16) == Some(n)
  {
    DigitsRoundTrip(n, 16);
    ParseUnsigned(NatToDigits(n, 16), 16, n);
  }
}
