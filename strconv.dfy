/**
  * Go's `strconv.Atoi` and `strconv.Itoa` (and the `%d` verb, which prints the same
  * decimal form) for the 64-bit `int` of the platforms the server is built for.
  */
module Strconv {
  import opened Common

  const MinInt64: int := -0x8000_0000_0000_0000
  const MaxInt64: int := 0x7fff_ffff_ffff_ffff

  predicate IsDigit(c: char) {
    '0' <= c <= '9'
  }

  predicate AllDigits(s: string) {
    forall i | 0 <= i < |s| :: IsDigit(s[i])
  }

  function DigitValue(c: char): (d: int)
    requires IsDigit(c)
    ensures 0 <= d < 10
  {
    c as int - '0' as int
  }

  function DigitChar(d: int): (c: char)
    requires 0 <= d < 10
    ensures IsDigit(c) && DigitValue(c) == d
  {
    ('0' as int + d) as char
  }

  /** The number a run of decimal digits spells, most significant first. */
  function DigitsValue(s: string): nat
    requires AllDigits(s)
  {
    if s == [] then 0 else DigitsValue(s[..|s| - 1]) * 10 + DigitValue(s[|s| - 1])
  }

  /** The shortest decimal form of `n`, most significant digit first. */
  function Decimal(n: nat): string {
    if n < 10 then [DigitChar(n)] else Decimal(n / 10) + [DigitChar(n % 10)]
  }

  /** The decimal form spells `n` and has no leading zero. */
  lemma {:induction false} DecimalSpells(n: nat)
    ensures var s := Decimal(n);
      |s| >= 1 && AllDigits(s) && DigitsValue(s) == n && (s[0] == '0' ==> n == 0)
  {
    if n >= 10 {
      DecimalSpells(n / 10);
      var s := Decimal(n);
      assert s[..|s| - 1] == Decimal(n / 10);
    }
  }

  /** `strconv.Itoa`: a minus sign before the digits of a negative number. */
  function Itoa(n: int): (s: string)
    ensures |s| >= 1
    ensures n < 0 <==> s[0] == '-'
    ensures n >= 0 ==> AllDigits(s) && DigitsValue(s) == n
    ensures n < 0 ==> AllDigits(s[1..]) && DigitsValue(s[1..]) == -n
  {
    DecimalSpells(if n < 0 then -n else n);
    if n < 0 then
      var s := "-" + Decimal(-n);
      assert s[1..] == Decimal(-n);
      s
    else Decimal(n)
  }

  /**
    * `strconv.Atoi`: an optional `+` or `-`, then one or more decimal digits, with the
    * value inside the 64-bit range; `None` for Go's syntax and range errors.
    */
  function Atoi(s: string): (r: Option<int>)
    ensures r.Some? ==> MinInt64 <= r.value <= MaxInt64
    ensures r.Some? ==> s != ""
  {
    var signed := |s| > 0 && (s[0] == '-' || s[0] == '+');
    var digits := if signed then s[1..] else s;
    if |digits| == 0 || !AllDigits(digits) then None
    else
      var v: int := if signed && s[0] == '-' then -(DigitsValue(digits) as int) else DigitsValue(digits);
      if MinInt64 <= v <= MaxInt64 then Some(v) else None
  }

  /** Every 64-bit integer survives `Itoa` followed by `Atoi`. */
  lemma AtoiItoa(n: int)
    requires MinInt64 <= n <= MaxInt64
    ensures Atoi(Itoa(n)) == Some(n)
  {
    var s := Itoa(n);
    if n >= 0 {
      assert !(s[0] == '-' || s[0] == '+') by {
        assert IsDigit(s[0]);
      }
    }
  }

  /** The decimal form determines the number. */
  lemma DecimalInjective(a: nat, b: nat)
    requires Decimal(a) == Decimal(b)
    ensures a == b
  {
    DecimalSpells(a);
    DecimalSpells(b);
  }

  /** A string holding a character that is neither a digit nor a leading sign is refused. */
  lemma AtoiRejectsNonDigit(s: string, i: int)
    requires 0 <= i < |s| && !IsDigit(s[i])
    requires i > 0 || (s[0] != '-' && s[0] != '+')
    ensures Atoi(s) == None
  {
    var signed := |s| > 0 && (s[0] == '-' || s[0] == '+');
    var digits := if signed then s[1..] else s;
    if signed {
      assert digits[i - 1] == s[i];
    } else {
      assert digits[i] == s[i];
    }
  }

  /** `n` zero digits. */
  function Zeros(n: nat): string {
    seq(n, _ => '0')
  }

  /** A sign `strconv.Atoi` accepts before the digits of `v`: none or `+` when `v >= 0`, `-` when `v <= 0`. */
  predicate SignFor(sign: string, v: int) {
    ((sign == "" || sign == "+") && v >= 0) || (sign == "-" && v <= 0)
  }

  /** `sign`, then `z` zeros, then the decimal digits of `|v|`. */
  function Written(sign: string, z: nat, v: int): string {
    sign + Zeros(z) + Decimal(if v < 0 then -v else v)
  }

  /** `s` writes `v` the way `strconv.Atoi` reads it: a sign, any number of zeros, the digits. */
  ghost predicate Spells(s: string, v: int) {
    exists sign: string, z: nat | SignFor(sign, v) && z <= |s| :: s == Written(sign, z, v)
  }

  lemma {:induction false} ZerosValueZero(z: nat)
    ensures AllDigits(Zeros(z)) && DigitsValue(Zeros(z)) == 0
  {
    if z > 0 {
      ZerosValueZero(z - 1);
      assert Zeros(z)[..z - 1] == Zeros(z - 1);
    }
  }

  /** Leading zeros do not change the value of a run of digits. */
  lemma {:induction false} ZerosValue(z: nat, d: string)
    requires AllDigits(d)
    ensures AllDigits(Zeros(z) + d) && DigitsValue(Zeros(z) + d) == DigitsValue(d)
  {
    var p := Zeros(z) + d;
    if d == [] {
      ZerosValueZero(z);
      assert p == Zeros(z);
    } else {
      ZerosValue(z, d[..|d| - 1]);
      assert p[..|p| - 1] == Zeros(z) + d[..|d| - 1];
      assert p[|p| - 1] == d[|d| - 1];
    }
  }

  /** A run of digits that does not start with `0` spells a positive number. */
  lemma {:induction false} LeadingDigitPositive(d: string)
    requires AllDigits(d) && |d| >= 1 && d[0] != '0'
    ensures DigitsValue(d) >= 1
  {
    if |d| > 1 {
      var p := d[..|d| - 1];
      assert p[0] == d[0];
      LeadingDigitPositive(p);
    } else {
      assert d[..0] == [];
    }
  }

  /** A run of digits without a leading zero is the decimal form of its value. */
  lemma {:induction false} CanonicalDigits(d: string)
    requires AllDigits(d) && |d| >= 1 && (d[0] == '0' ==> |d| == 1)
    ensures Decimal(DigitsValue(d)) == d
  {
    if |d| == 1 {
      assert d[..0] == [];
      assert DigitChar(DigitValue(d[0])) == d[0];
    } else {
      var p := d[..|d| - 1];
      assert p[0] == d[0];
      LeadingDigitPositive(p);
      CanonicalDigits(p);
      var n := DigitsValue(d);
      assert n / 10 == DigitsValue(p) && n % 10 == DigitValue(d[|d| - 1]);
      assert DigitChar(DigitValue(d[|d| - 1])) == d[|d| - 1];
      assert d == p + [d[|d| - 1]];
    }
  }

  lemma ZerosCons(z: nat, t: string)
    ensures ['0'] + (Zeros(z) + t) == Zeros(z + 1) + t
  {
    assert ['0'] + Zeros(z) == Zeros(z + 1);
  }

  /** Every non-empty run of digits is some zeros followed by the decimal form of its value. */
  lemma {:induction false} StripZeros(d: string)
    requires AllDigits(d) && |d| >= 1
    ensures exists z: nat | z <= |d| :: d == Zeros(z) + Decimal(DigitsValue(d))
  {
    if d[0] == '0' && |d| > 1 {
      var rest := d[1..];
      StripZeros(rest);
      var dec := Decimal(DigitsValue(rest));
      var z: nat :| z <= |rest| && rest == Zeros(z) + dec;
      assert d == ['0'] + rest;
      assert Zeros(1) == ['0'];
      ZerosValue(1, rest);
      ZerosCons(z, dec);
      assert d == Zeros(z + 1) + Decimal(DigitsValue(d));
    } else {
      CanonicalDigits(d);
      assert d == Zeros(0) + Decimal(DigitsValue(d));
    }
  }

  /** A sign before a non-empty run of digits writes the value they spell. */
  lemma SignedDigitsSpell(s: string, sign: string, digits: string, v: int)
    requires AllDigits(digits) && |digits| >= 1 && DigitsValue(digits) == if v < 0 then -v else v
    requires s == sign + digits && SignFor(sign, v)
    ensures Spells(s, v)
  {
    StripZeros(digits);
    var dec := Decimal(DigitsValue(digits));
    var z: nat :| z <= |digits| && digits == Zeros(z) + dec;
    Regroup(sign, Zeros(z), dec);
    assert s == Written(sign, z, v);
  }

  /** The value `Atoi` returns is written by its input. */
  lemma AtoiSpellsValue(s: string)
    requires Atoi(s).Some?
    ensures Spells(s, Atoi(s).value)
  {
    var v := Atoi(s).value;
    var signed := |s| > 0 && (s[0] == '-' || s[0] == '+');
    var sign := if signed then s[..1] else "";
    var digits := if signed then s[1..] else s;
    assert s == sign + digits;
    SignedDigitsSpell(s, sign, digits, v);
  }

  /** `Atoi` reads a sign before a non-empty run of digits as the signed value they spell. */
  lemma AtoiSignedDigits(s: string, sign: string, digits: string, v: int)
    requires AllDigits(digits) && |digits| >= 1 && DigitsValue(digits) == if v < 0 then -v else v
    requires s == sign + digits && SignFor(sign, v) && MinInt64 <= v <= MaxInt64
    ensures Atoi(s) == Some(v)
  {
    if sign == "" {
      assert s == digits && IsDigit(s[0]);
    } else {
      assert s[1..] == digits;
    }
  }

  /** Every string writing a 64-bit value with a sign and leading zeros is read as that value. */
  lemma AtoiReadsSpelled(s: string, v: int)
    requires Spells(s, v) && MinInt64 <= v <= MaxInt64
    ensures Atoi(s) == Some(v)
  {
    var sign: string, z: nat :| SignFor(sign, v) && z <= |s| && s == Written(sign, z, v);
    var dec := Decimal(if v < 0 then -v else v);
    DecimalSpells(if v < 0 then -v else v);
    ZerosValue(z, dec);
    Regroup(sign, Zeros(z), dec);
    AtoiSignedDigits(s, sign, Zeros(z) + dec, v);
  }

  /**
    * `Atoi` accepts exactly the strings that write a 64-bit value with an optional sign
    * and leading zeros (`"+5"`, `"007"`, `"-0"`), and returns that value.
    */
  lemma AtoiSpells(s: string, v: int)
    ensures Atoi(s) == Some(v) <==> Spells(s, v) && MinInt64 <= v <= MaxInt64
  {
    if Atoi(s) == Some(v) {
      AtoiSpellsValue(s);
    }
    if Spells(s, v) && MinInt64 <= v <= MaxInt64 {
      AtoiReadsSpelled(s, v);
    }
  }
}
