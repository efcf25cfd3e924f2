/** Behaviour of the Rust core library that the three programs lean on:
    unsigned `from_str_radix` (which `str::parse` uses for unsigned types),
    the decimal `to_string` of an unsigned value, ASCII character classes,
    and the White_Space set that `str::trim` removes. */
module RustCore {

  datatype Option<+T> = None | Some(value: T)

  /** An unsigned 8-bit value, as `u8`. */
  type byte = b: int | 0 <= b < 256

  const U8_MAX: nat := 0xFF
  const U16_MAX: nat := 0xFFFF
  const U32_MAX: nat := 0xFFFF_FFFF
  const U64_MAX: nat := 0xFFFF_FFFF_FFFF_FFFF

  predicate IsAsciiDigit(c: char) { '0' <= c <= '9' }

  predicate IsAsciiAlphabetic(c: char) { 'a' <= c <= 'z' || 'A' <= c <= 'Z' }

  predicate IsAsciiAlphanumeric(c: char) { IsAsciiAlphabetic(c) || IsAsciiDigit(c) }

  /** The characters with the Unicode White_Space property, which `str::trim` strips. */
  predicate IsWhiteSpace(c: char) {
    ('\U{9}' <= c <= '\U{D}') || c == ' ' || c == '\U{85}' || c == '\U{A0}' || c == '\U{1680}'
    || ('\U{2000}' <= c <= '\U{200A}') || c == '\U{2028}' || c == '\U{2029}' || c == '\U{202F}'
    || c == '\U{205F}' || c == '\U{3000}'
  }

  /** `s.trim().is_empty()` */
  predicate IsBlank(s: string) {
    forall k :: 0 <= k < |s| ==> IsWhiteSpace(s[k])
  }

  /** `char::to_digit(radix)`: digits, then letters of either case as 10 and up. */
  function DigitValue(c: char, radix: nat): (r: Option<nat>)
    requires 2 <= radix <= 36
    ensures r.Some? ==> r.value < radix
    ensures IsAsciiDigit(c) && (c as int) - ('0' as int) < radix ==> r == Some((c as int) - ('0' as int))
    ensures !IsAsciiAlphanumeric(c) ==> r.None?
  {
    var d :=
      if IsAsciiDigit(c) then (c as int) - ('0' as int)
      else if 'a' <= c <= 'z' then (c as int) - ('a' as int) + 10
      else if 'A' <= c <= 'Z' then (c as int) - ('A' as int) + 10
      else 36;
    if d < radix then Some(d) else None
  }

  /** The value of a run of digits read most significant first; None as soon as
      one character is not a digit of the radix. */
  function DigitsValue(s: string, radix: nat): (r: Option<nat>)
    requires 2 <= radix <= 36
    decreases |s|
  {
    if |s| == 0 then Some(0)
    else
      var v, d := DigitsValue(s[..|s| - 1], radix), DigitValue(s[|s| - 1], radix);
      if v.Some? && d.Some? then
        var shifted: nat := v.value * radix;
        Some(shifted + d.value)
      else None
  }

  /** `uN::from_str_radix(s, radix)` for an unsigned type whose largest value is `max`:
      an optional leading `+`, then one or more digits of the radix, with a value that fits. */
  function FromStrRadix(s: string, radix: nat, max: nat): (r: Option<nat>)
    requires 2 <= radix <= 36
    ensures r.Some? ==> r.value <= max
    ensures |s| == 0 || s == "+" ==> r.None?
  {
    if |s| == 0 then None
    else
      var digits := if s[0] == '+' then s[1..] else s;
      if |digits| == 0 then None
      else
        match DigitsValue(digits, radix)
        case Some(v) => if v <= max then Some(v) else None
        case None => None
  }

  /** The digit character of value d, lowercase for letters. */
  function DigitChar(d: nat): (c: char)
    requires d < 36
    ensures IsAsciiAlphanumeric(c)
  {
    if d < 10 then ('0' as int + d) as char else ('a' as int + d - 10) as char
  }

  /** The numeral of n in the given radix: no sign, no leading zero ("0" for zero). */
  function Numeral(n: nat, radix: nat): (s: string)
    requires 2 <= radix <= 36
    ensures |s| >= 1
    ensures forall k :: 0 <= k < |s| ==> IsAsciiAlphanumeric(s[k])
    decreases n
  {
    if n < radix then [DigitChar(n)]
    else
      DivLess(n, radix);
      var d := n % radix;
      assert d < radix;
      Numeral(n / radix, radix) + [DigitChar(d)]
  }

  /** `n.to_string()` for an unsigned integer. */
  function Decimal(n: nat): (s: string)
    ensures |s| >= 1
  {
    Numeral(n, 10)
  }

  lemma DigitCharValue(d: nat, radix: nat)
    requires 2 <= radix <= 36 && d < radix
    ensures DigitValue(DigitChar(d), radix) == Some(d)
  {
  }

  /** Reading a numeral back gives the number it was written from. */
  lemma {:induction false} NumeralValue(n: nat, radix: nat)
    requires 2 <= radix <= 36
    ensures DigitsValue(Numeral(n, radix), radix) == Some(n)
    decreases n
  {
    if n < radix {
      NumeralValueDigit(n, radix);
    } else {
      DivLess(n, radix);
      NumeralValue(n / radix, radix);
      NumeralValueStep(n, radix);
    }
  }

  lemma NumeralValueDigit(n: nat, radix: nat)
    requires 2 <= radix <= 36 && n < radix
    ensures DigitsValue(Numeral(n, radix), radix) == Some(n)
  {
    DigitCharValue(n, radix);
    DigitsValueSnoc([], DigitChar(n), radix, 0, n);
    assert [] + [DigitChar(n)] == Numeral(n, radix);
  }

  lemma NumeralValueStep(n: nat, radix: nat)
    requires 2 <= radix <= 36 && n >= radix
    requires DigitsValue(Numeral(n / radix, radix), radix) == Some(n / radix)
    ensures DigitsValue(Numeral(n, radix), radix) == Some(n)
  {
    var q, d := n / radix, n % radix;
    DigitCharValue(d, radix);
    DigitsValueSnoc(Numeral(q, radix), DigitChar(d), radix, q, d);
    DivMod(n, radix);
  }

  lemma DivLess(n: nat, radix: nat)
    requires 2 <= radix && 1 <= n
    ensures n / radix < n
  {
  }

  lemma DigitsValueSnoc(t: string, c: char, radix: nat, v: nat, d: nat)
    requires 2 <= radix <= 36
    requires DigitsValue(t, radix) == Some(v) && DigitValue(c, radix) == Some(d)
    ensures DigitsValue(t + [c], radix) == Some(v * radix + d)
  {
    assert (t + [c])[..|t|] == t;
  }

  lemma DivMod(n: nat, radix: nat)
    requires 2 <= radix
    ensures (n / radix) * radix + n % radix == n
  {
  }

  /** Every value that fits is accepted in its own numeral: the parse inverts `Numeral`. */
  lemma FromStrRadixNumeral(n: nat, radix: nat, max: nat)
    requires 2 <= radix <= 36 && n <= max
    ensures FromStrRadix(Numeral(n, radix), radix, max) == Some(n)
  {
    NumeralValue(n, radix);
    assert Numeral(n, radix)[0] != '+' by {
      assert IsAsciiAlphanumeric(Numeral(n, radix)[0]);
    }
  }

  /** A numeral whose value does not fit the type is rejected, in any radix: the
      parse never saturates or wraps. */
  lemma FromStrRadixTooLarge(n: nat, radix: nat, max: nat)
    requires 2 <= radix <= 36 && max < n
    ensures FromStrRadix(Numeral(n, radix), radix, max).None?
  {
    NumeralValue(n, radix);
    assert Numeral(n, radix)[0] != '+' by {
      assert IsAsciiAlphanumeric(Numeral(n, radix)[0]);
    }
  }

  /** `to_string` and `parse` are inverse on the values of the type. */
  lemma DecimalRoundTrip(n: nat, max: nat)
    requires n <= max
    ensures FromStrRadix(Decimal(n), 10, max) == Some(n)
  {
    FromStrRadixNumeral(n, 10, max);
  }

  /** One character that is not a digit of the radix spoils the whole run. */
  lemma {:induction false} DigitsValueRejects(s: string, radix: nat, k: nat)
    requires 2 <= radix <= 36
    requires k < |s| && DigitValue(s[k], radix).None?
    ensures DigitsValue(s, radix).None?
    decreases |s|
  {
    if k < |s| - 1 {
      DigitsValueRejects(s[..|s| - 1], radix, k);
    }
  }

  /** A string with a character outside the digits of the radix (after the optional
      leading `+`) is rejected. */
  lemma FromStrRadixRejects(s: string, radix: nat, max: nat, k: nat)
    requires 2 <= radix <= 36
    requires 0 < k < |s| || (k == 0 < |s| && s[0] != '+')
    requires DigitValue(s[k], radix).None?
    ensures FromStrRadix(s, radix, max).None?
  {
    if s[0] == '+' {
      DigitsValueRejects(s[1..], radix, k - 1);
    } else {
      DigitsValueRejects(s, radix, k);
    }
  }
}
