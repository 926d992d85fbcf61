/**
 * `parseExpiry` of the auth service (auth-service/src/auth/auth.service.ts):
 * a duration written as an integer with an optional `d`, `h` or `m` suffix
 * (anything else means seconds), turned into milliseconds. `parseInt` is
 * modelled for strings without leading white space, with its `0x` prefix;
 * `None` stands for NaN.
 */
module Expiry {
  import opened Wrappers

  predicate IsDigit(c: char)
  {
    '0' <= c <= '9'
  }

  /** `s.endsWith(c)` for a one-character argument. */
  predicate EndsWith(s: string, c: char)
  {
    |s| > 0 && s[|s| - 1] == c
  }

  /** A digit of base 16: a decimal digit or a letter `a`-`f` in either case. */
  predicate IsHexDigit(c: char)
  {
    IsDigit(c) || 'a' <= c <= 'f' || 'A' <= c <= 'F'
  }

  /** A digit of the given base; `parseInt` without a radix reads base 10 or, after `0x`, base 16. */
  predicate IsDigitOf(c: char, radix: nat)
  {
    if radix == 16 then IsHexDigit(c) else IsDigit(c)
  }

  predicate AllDigitsOf(s: string, radix: nat)
  {
    forall i :: 0 <= i < |s| ==> IsDigitOf(s[i], radix)
  }

  /** The value of one digit: `0`-`9`, then `a`/`A` as 10 up to `f`/`F` as 15. */
  function DigitValue(c: char): (v: nat)
    requires IsHexDigit(c)
    ensures v < 16 && (IsDigit(c) <==> v < 10)
  {
    if IsDigit(c) then c as int - '0' as int
    else if 'a' <= c <= 'f' then c as int - 'a' as int + 10
    else c as int - 'A' as int + 10
  }

  /** The longest prefix of `s` made of digits of `radix`. */
  function DigitRun(s: string, radix: nat): (r: string)
    ensures r <= s && AllDigitsOf(r, radix)
    ensures |r| == |s| || !IsDigitOf(s[|r|], radix)
  {
    if s == [] || !IsDigitOf(s[0], radix) then [] else [s[0]] + DigitRun(s[1..], radix)
  }

  /** Value of a numeral in `radix`, read left to right as `parseInt` does. */
  function DigitsValue(ds: string, radix: nat): nat
    requires AllDigitsOf(ds, radix)
  {
    if ds == [] then 0
    else
      assert IsDigitOf(ds[|ds| - 1], radix);
      DigitsValue(ds[..|ds| - 1], radix) * radix + DigitValue(ds[|ds| - 1])
  }

  /** `s` opens with the prefix `0x` or `0X` that switches `parseInt` to base 16. */
  predicate HexPrefixed(s: string)
  {
    |s| >= 2 && s[0] == '0' && (s[1] == 'x' || s[1] == 'X')
  }

  /**
   * `parseInt(s)` with no radix: an optional sign, then `0x` or `0X` for base
   * 16 or else base 10, then the longest run of digits of that base; no digit
   * there is NaN.
   */
  function ParseInt(s: string): (r: Option<int>)
    ensures r.Some? ==> |s| > 0 && var k := if s[0] == '-' || s[0] == '+' then 1 else 0; k < |s| && IsDigit(s[k])
    ensures r.Some? && r.value < 0 ==> s[0] == '-'
    ensures |s| > 0 && IsDigit(s[0]) && !HexPrefixed(s) ==> r.Some? && r.value >= 0
  {
    var signed := |s| > 0 && (s[0] == '-' || s[0] == '+');
    var body := if signed then s[1..] else s;
    var radix := if HexPrefixed(body) then 16 else 10;
    var ds := DigitRun(if radix == 16 then body[2..] else body, radix);
    var magnitude: int := if ds == [] then 0 else DigitsValue(ds, radix);
    if ds == [] then None
    else if signed && s[0] == '-' then Some(-magnitude)
    else Some(magnitude)
  }

  /** `parseExpiry(expiry)`: the leading integer scaled by the unit named by the last character. */
  function ParseExpiry(expiry: string): (r: Option<int>)
    ensures r.Some? <==> ParseInt(expiry).Some?
    ensures r.Some? ==> r.value == ParseInt(expiry).value * UnitMs(expiry[|expiry| - 1])
  {
    match ParseInt(expiry)
    case None => None
    case Some(value) =>
      if EndsWith(expiry, 'd') then Some(value * 24 * 60 * 60 * 1000)
      else if EndsWith(expiry, 'h') then Some(value * 60 * 60 * 1000)
      else if EndsWith(expiry, 'm') then Some(value * 60 * 1000)
      else Some(value * 1000)
  }

  /** Milliseconds per unit, written out: a day, an hour, a minute, and a second for anything else. */
  function UnitMs(unit: char): nat
  {
    match unit
    case 'd' => 86_400_000
    case 'h' => 3_600_000
    case 'm' => 60_000
    case _ => 1_000
  }

  /** The decimal numeral of `n`, as a configuration value would spell it. */
  function Decimal(n: nat): (r: string)
    ensures |r| > 0 && AllDigitsOf(r, 10)
  {
    if n < 10 then ['0' + n as char] else Decimal(n / 10) + ['0' + (n % 10) as char]
  }

  lemma {:induction false} DecimalValue(n: nat)
    ensures DigitsValue(Decimal(n), 10) == n
  {
    if n >= 10 {
      var ds := Decimal(n);
      DecimalValue(n / 10);
      assert ds[..|ds| - 1] == Decimal(n / 10);
    }
  }

  /** In either base, the digit run ends at the first character that is not a digit of that base. */
  lemma {:induction false} DigitRunStops(ds: string, rest: string, radix: nat)
    requires AllDigitsOf(ds, radix)
    requires rest == [] || !IsDigitOf(rest[0], radix)
    ensures DigitRun(ds + rest, radix) == ds
  {
    if ds != [] {
      DigitRunStops(ds[1..], rest, radix);
      assert (ds + rest)[1..] == ds[1..] + rest;
    }
  }

  /**
   * `parseInt` reads back the numeral of `n` in front of any non-digit text,
   * except that `0` followed by `x` or `X` is the hexadecimal prefix.
   */
  lemma ParseIntDecimal(n: nat, rest: string)
    requires rest == [] || !IsDigit(rest[0])
    requires n > 0 || rest == [] || (rest[0] != 'x' && rest[0] != 'X')
    ensures ParseInt(Decimal(n) + rest) == Some(n)
  {
    var s := Decimal(n) + rest;
    if n >= 10 {
      assert IsDigit(s[1]);
    } else if n > 0 {
      assert s[0] == Decimal(n)[0] != '0';
    }
    assert !HexPrefixed(s);
    DigitRunStops(Decimal(n), rest, 10);
    DecimalValue(n);
  }

  /** A numeral followed by a one-character unit means that many units, in milliseconds. */
  lemma ParseExpiryWithUnit(n: nat, unit: char)
    requires !IsDigit(unit)
    requires n > 0 || (unit != 'x' && unit != 'X')
    ensures ParseExpiry(Decimal(n) + [unit]) == Some(n * UnitMs(unit))
  {
    ParseIntDecimal(n, [unit]);
  }

  /** A bare numeral means seconds. */
  lemma ParseExpiryBare(n: nat)
    ensures ParseExpiry(Decimal(n)) == Some(n * 1000)
  {
    ParseIntDecimal(n, []);
    assert Decimal(n) + [] == Decimal(n);
  }

  /** The refresh lifetime used in the service's configuration: seven days. */
  lemma SevenDays()
    ensures ParseExpiry("7d") == Some(604_800_000)
  {
    assert "7d" == Decimal(7) + ['d'];
    ParseExpiryWithUnit(7, 'd');
  }

  /**
   * A leading `0x` makes the rest hexadecimal, where `d` is a digit: `"0x1d"`
   * is 29 days. `0x` followed by no hexadecimal digit is NaN.
   */
  lemma HexPrefix()
    ensures ParseInt("0x") == None
    ensures ParseExpiry("0xm") == None
    ensures ParseExpiry("0x1d") == Some(29 * 86_400_000)
    ensures ParseExpiry("-0X1h") == Some(-3_600_000)
  {
    assert DigitRun("1d", 16) == "1d";
    assert DigitsValue("1", 16) == 1;
    assert DigitRun("1h", 16) == "1";
  }

  /** Only digits before a unit count: text that does not start with one is NaN. */
  lemma NoLeadingInteger(s: string)
    requires s == [] || (!IsDigit(s[0]) && s[0] != '-' && s[0] != '+')
    ensures ParseExpiry(s) == None
  {
  }
}
