/** Decimal text of unsigned integers: Rust's `Display` for `u16`/`u32`
    (`format!("{}", n)`) and its `FromStr` (`"…".parse::<u32>()`). */
module Numerals {
  import opened Outcomes

  const U16_MAX: nat := 0xFFFF
  const U32_MAX: nat := 0xFFFF_FFFF
  const U64_MAX: nat := 0xFFFF_FFFF_FFFF_FFFF

  type u16 = x: int | 0 <= x <= U16_MAX
  type u32 = x: int | 0 <= x <= U32_MAX
  type u64 = x: int | 0 <= x <= U64_MAX

  predicate IsDigit(c: char) { '0' <= c <= '9' }

  predicate AllDigits(s: string) {
    forall i :: 0 <= i < |s| ==> IsDigit(s[i])
  }

  function DigitChar(d: nat): (c: char)
    requires d < 10
    ensures IsDigit(c)
  {
    ('0' as int + d) as char
  }

  /** The number a string of decimal digits denotes (most significant first). */
  function DigitsValue(s: string): nat
    requires AllDigits(s)
  {
    if s == [] then 0
    else DigitsValue(s[..|s| - 1]) * 10 + (s[|s| - 1] as int - '0' as int)
  }

  /** `format!("{}", n)`: the shortest decimal text of `n`, without sign. */
  function Decimal(n: nat): (s: string)
    ensures |s| >= 1 && AllDigits(s)
    ensures |s| > 1 ==> s[0] != '0'
    decreases n
  {
    if n < 10 then [DigitChar(n)]
    else Decimal(n / 10) + [DigitChar(n % 10)]
  }

  /** The decimal text of `n` denotes `n`. */
  lemma {:induction false} DecimalValue(n: nat)
    ensures DigitsValue(Decimal(n)) == n
    decreases n
  {
    if n >= 10 {
      DecimalValue(n / 10);
      var s := Decimal(n);
      assert s[..|s| - 1] == Decimal(n / 10);
    }
  }

  /** Appending a digit to a positive number appends its character. */
  lemma DecimalAppend(n: nat, d: nat)
    requires 1 <= n && d < 10
    ensures Decimal(n * 10 + d) == Decimal(n) + [DigitChar(d)]
  {
    assert (n * 10 + d) / 10 == n && (n * 10 + d) % 10 == d;
  }

  /** Rust's `from_str` for an unsigned integer type whose largest value is
      `max`: an optional single leading `+`, then at least one ASCII digit
      and nothing else; leading zeros are allowed; a value above `max` is an
      overflow error. A `-` sign is an invalid digit for unsigned types. */
  function ParseUnsigned(s: string, max: nat): (r: Option<nat>)
    ensures r.Some? ==> r.value <= max
  {
    var digits := if |s| > 0 && s[0] == '+' then s[1..] else s;
    if digits == [] || !AllDigits(digits) then None
    else if DigitsValue(digits) <= max then Some(DigitsValue(digits))
    else None
  }

  /** Parsing the decimal text of a representable number gives it back. */
  lemma ParseDecimal(n: nat, max: nat)
    requires n <= max
    ensures ParseUnsigned(Decimal(n), max) == Some(n)
  {
    DecimalValue(n);
  }

  /** A leading zero does not change the value of a digit string. */
  lemma {:induction false} DigitsValueLeadingZero(s: string)
    requires AllDigits(s)
    ensures AllDigits("0" + s) && DigitsValue("0" + s) == DigitsValue(s)
  {
    if s != [] {
      var z := "0" + s;
      assert z[..|z| - 1] == "0" + s[..|s| - 1];
      DigitsValueLeadingZero(s[..|s| - 1]);
    }
  }

  /** Leading zeros and a `+` sign are accepted. */
  lemma ParseLeadingZero(n: nat, max: nat)
    requires n <= max
    ensures ParseUnsigned("0" + Decimal(n), max) == Some(n)
    ensures ParseUnsigned("+" + Decimal(n), max) == Some(n)
  {
    DecimalValue(n);
    DigitsValueLeadingZero(Decimal(n));
    assert ("+" + Decimal(n))[1..] == Decimal(n);
  }

  /** Parsing succeeds only on digits (after an optional `+`): one character
      that is neither a digit nor a leading `+` makes it fail. */
  lemma ParseRejectsNonDigit(s: string, max: nat, i: nat)
    requires i < |s| && !IsDigit(s[i]) && !(i == 0 && s[i] == '+')
    ensures ParseUnsigned(s, max) == None
  {
    if |s| > 0 && s[0] == '+' {
      assert s[1..][i - 1] == s[i];
    }
  }

  /** Conversely, an accepted text is digits after an optional `+`. */
  lemma ParseAcceptsOnlyDigits(s: string, max: nat)
    requires ParseUnsigned(s, max).Some?
    ensures forall i :: 0 <= i < |s| ==> IsDigit(s[i]) || (i == 0 && s[i] == '+')
  {
    forall i | 0 <= i < |s| && !(i == 0 && s[i] == '+') ensures IsDigit(s[i]) {
      if s[0] == '+' {
        assert s[i] == s[1..][i - 1];
      }
    }
  }

  /** The empty text is not a number. */
  lemma ParseRejectsEmpty(max: nat)
    ensures ParseUnsigned("", max) == None
  {
  }

  /** A value that does not fit the type is an error, not a truncation. */
  lemma ParseRejectsOverflow(n: nat, max: nat)
    requires n > max
    ensures ParseUnsigned(Decimal(n), max) == None
  {
    DecimalValue(n);
  }
}
