/**
 Decimal numerals, as Rust's `to_string` writes them and `str::parse` reads
 them back: slot numbers in Redis members and capacities in AWS replies.
 */
module Decimals {
  import opened Options

  const I64_MIN := -0x8000_0000_0000_0000
  const I64_MAX := 0x7fff_ffff_ffff_ffff

  predicate IsDigit(c: char) { '0' <= c <= '9' }

  function Digit(d: nat): (c: char)
    requires d < 10
    ensures IsDigit(c)
  {
    '0' + d as char
  }

  /** The digits of `n` without leading zeros. */
  function Decimal(n: nat): (s: string)
    ensures s != ""
  {
    if n < 10 then [Digit(n)] else Decimal(n / 10) + [Digit(n % 10)]
  }

  /** `i64::to_string`. */
  function ShowInt(n: int): (s: string)
    ensures s != ""
  {
    if n < 0 then "-" + Decimal(-n) else Decimal(n)
  }

  /** The value of a run of digits. */
  function ParseNat(s: string): Option<nat>
  {
    if s == "" then Some(0)
    else if !IsDigit(s[|s| - 1]) then None
    else
      match ParseNat(s[..|s| - 1])
      case None => None
      case Some(v) => Some(10 * v + (s[|s| - 1] as int - '0' as int))
  }

  /** `str::parse::<i64>`: optional sign, at least one digit, no overflow. */
  function ParseI64(s: string): Option<int>
  {
    var negative := s != "" && s[0] == '-';
    var digits := if s != "" && (s[0] == '-' || s[0] == '+') then s[1..] else s;
    if digits == "" then None
    else
      match ParseNat(digits)
      case None => None
      case Some(v) =>
        var magnitude: int := v;
        var n := if negative then -magnitude else magnitude;
        if I64_MIN <= n <= I64_MAX then Some(n) else None
  }

  lemma {:induction false} DecimalIsDigits(n: nat)
    ensures forall i :: 0 <= i < |Decimal(n)| ==> IsDigit(Decimal(n)[i])
  {
    if n >= 10 {
      DecimalIsDigits(n / 10);
    }
  }

  lemma {:induction false} ParseNatRoundTrip(n: nat)
    ensures ParseNat(Decimal(n)) == Some(n)
  {
    var s := Decimal(n);
    if n >= 10 {
      ParseNatRoundTrip(n / 10);
      assert s[..|s| - 1] == Decimal(n / 10);
    } else {
      assert s[..|s| - 1] == "";
    }
  }

  /** Every `i64` survives being printed and parsed. */
  lemma ParseI64RoundTrip(n: int)
    requires I64_MIN <= n <= I64_MAX
    ensures ParseI64(ShowInt(n)) == Some(n)
  {
    ParseNatRoundTrip(if n < 0 then -n else n);
    if n < 0 {
      assert ShowInt(n)[1..] == Decimal(-n);
    } else {
      DecimalIsDigits(n);
      assert IsDigit(ShowInt(n)[0]);
    }
  }

  lemma DecimalInjective(a: nat, b: nat)
    requires Decimal(a) == Decimal(b)
    ensures a == b
  {
    ParseNatRoundTrip(a);
    ParseNatRoundTrip(b);
  }

  // -- what is accepted ------------------------------------------------------------------

  function Zeros(k: nat): string
  {
    if k == 0 then "" else Zeros(k - 1) + "0"
  }

  lemma OneDigit(c: char)
    requires IsDigit(c)
    ensures Decimal(c as int - '0' as int) == [c]
  {
  }

  /** A run of digits has a value exactly when it is the value's numeral behind any number of zeros. */
  lemma {:induction false} ParseNatExactly(s: string, v: nat)
    ensures s != "" ==> (ParseNat(s) == Some(v) <==> exists k: nat :: s == Zeros(k) + Decimal(v))
  {
    if s != "" && ParseNat(s) == Some(v) {
      var k := ParsedIsNumeral(s);
    }
    forall k: nat | s == Zeros(k) + Decimal(v) ensures ParseNat(s) == Some(v) {
      NumeralParses(k, v);
    }
  }

  lemma {:induction false} ParsedIsNumeral(s: string) returns (k: nat)
    requires s != "" && ParseNat(s).Some?
    ensures s == Zeros(k) + Decimal(ParseNat(s).value)
  {
    var init, c := s[..|s| - 1], s[|s| - 1];
    var d := c as int - '0' as int;
    OneDigit(c);
    assert s == init + [c];
    if init == "" {
      k := 0;
      assert s == Zeros(0) + [c];
    } else {
      k := ParsedIsNumeral(init);
      if ParseNat(init).value == 0 {
        k := k + 1;
        assert s == Zeros(k) + [c];
      } else {
        assert Decimal(10 * ParseNat(init).value + d) == Decimal(ParseNat(init).value) + [c];
      }
    }
  }

  lemma {:induction false} NumeralParses(k: nat, v: nat)
    ensures ParseNat(Zeros(k) + Decimal(v)) == Some(v)
    decreases v
  {
    var s := Zeros(k) + Decimal(v);
    if v < 10 {
      assert s[..|s| - 1] == Zeros(k);
      ZerosParse(k);
    } else {
      assert s[..|s| - 1] == Zeros(k) + Decimal(v / 10);
      NumeralParses(k, v / 10);
    }
  }

  lemma {:induction false} ZerosParse(k: nat)
    ensures ParseNat(Zeros(k)) == Some(0)
  {
    if k > 0 {
      var z := Zeros(k);
      assert z[..|z| - 1] == Zeros(k - 1) && z[|z| - 1] == '0';
      ZerosParse(k - 1);
    }
  }

  /** `s` spells `n`: an optional sign, any number of zeros and the numeral. */
  ghost predicate Spells(s: string, n: int)
  {
    || (n >= 0 && exists k: nat :: s == Zeros(k) + Decimal(n) || s == "+" + (Zeros(k) + Decimal(n)))
    || (n <= 0 && exists k: nat :: s == "-" + (Zeros(k) + Decimal(-n)))
  }

  lemma {:induction false} StartsWithDigit(k: nat, v: nat)
    ensures IsDigit((Zeros(k) + Decimal(v))[0])
  {
    DecimalIsDigits(v);
    if k > 0 {
      ZeroFirst(k);
    }
  }

  lemma {:induction false} ZeroFirst(k: nat)
    requires k > 0
    ensures Zeros(k) != "" && Zeros(k)[0] == '0'
  {
    if k > 1 {
      ZeroFirst(k - 1);
    }
  }

  /** `str::parse::<i64>` accepts exactly the spellings of the numbers in range, and nothing else. */
  lemma {:induction false} ParseI64Exactly(s: string, n: int)
    ensures ParseI64(s) == Some(n) <==> I64_MIN <= n <= I64_MAX && Spells(s, n)
  {
    if ParseI64(s) == Some(n) {
      var digits := if s[0] == '-' || s[0] == '+' then s[1..] else s;
      var k := ParsedIsNumeral(digits);
      assert s == (if s[0] == '-' then "-" else if s[0] == '+' then "+" else "") + digits;
    }
    if I64_MIN <= n <= I64_MAX && Spells(s, n) {
      SpelledParses(s, n);
    }
  }

  lemma {:induction false} SpelledParses(s: string, n: int)
    requires I64_MIN <= n <= I64_MAX && Spells(s, n)
    ensures ParseI64(s) == Some(n)
  {
    hide ParseNat, Zeros, Decimal, ParseI64;
    var v: nat := if n < 0 then -n else n;
    if k: nat :| s == Zeros(k) + Decimal(v) && n >= 0 {
      SignParses("", k, v);
      assert "" + (Zeros(k) + Decimal(v)) == s;
    } else if k: nat :| s == "+" + (Zeros(k) + Decimal(v)) && n >= 0 {
      SignParses("+", k, v);
    } else {
      var k: nat :| s == "-" + (Zeros(k) + Decimal(v)) && n <= 0;
      SignParses("-", k, v);
    }
  }

  lemma SignParses(sign: string, k: nat, v: nat)
    requires sign == "" || sign == "+" || sign == "-"
    ensures var n := if sign == "-" then 0 - v else v;
            ParseI64(sign + (Zeros(k) + Decimal(v))) == if I64_MIN <= n <= I64_MAX then Some(n) else None
  {
    hide ParseNat, Zeros, Decimal;
    var digits := Zeros(k) + Decimal(v);
    var s := sign + digits;
    NumeralParses(k, v);
    StartsWithDigit(k, v);
    if sign == "" {
      assert s == digits;
    } else {
      assert s[0] == sign[0] && s[1..] == digits;
    }
  }

  /** The digits, and their order. */
  lemma NumeralsAre()
    ensures Decimal(0) == "0" && Decimal(1) == "1" && Decimal(2) == "2" && Decimal(3) == "3" && Decimal(4) == "4"
    ensures Decimal(5) == "5" && Decimal(6) == "6" && Decimal(7) == "7" && Decimal(8) == "8" && Decimal(9) == "9"
    ensures forall n: nat :: n >= 10 ==> Decimal(n) == Decimal(n / 10) + Decimal(n % 10)
    ensures forall n: int :: n > 0 ==> ShowInt(n) == Decimal(n) && ShowInt(-n) == "-" + Decimal(n)
  {
    assert Digit(0) == '0' && Digit(1) == '1' && Digit(2) == '2' && Digit(3) == '3' && Digit(4) == '4';
    assert Digit(5) == '5' && Digit(6) == '6' && Digit(7) == '7' && Digit(8) == '8' && Digit(9) == '9';
  }
}
