/** Which texts are signed 64-bit integers, and which integer each of them is. */
module FilterNumbers {
  import opened Wrappers
  import opened FilterSyntax

  // ---- Positional value ----

  function Pow10(n: nat): nat { if n == 0 then 1 else 10 * Pow10(n - 1) }

  predicate AllDigits(s: string) { forall i :: 0 <= i < |s| ==> '0' <= s[i] <= '9' }

  // Each digit counts for the power of ten of its place.
  function Positional(s: string): nat
    requires AllDigits(s)
  {
    if s == [] then 0 else (s[0] as int - '0' as int) * Pow10(|s| - 1) + Positional(s[1..])
  }

  lemma {:induction false} PositionalLast(s: string)
    requires AllDigits(s) && s != []
    ensures var n := |s| - 1; Positional(s) == 10 * Positional(s[..n]) + (s[n] as int - '0' as int)
    decreases |s|
  {
    var n := |s| - 1;
    if n > 0 {
      PositionalLast(s[1..]);
      assert s[1..][..n - 1] == s[..n][1..] && s[1..][n - 1] == s[n] && s[..n][0] == s[0];
      var d := s[0] as int - '0' as int;
      assert d * Pow10(n) == 10 * (d * Pow10(n - 1)) by { Rearrange(d, Pow10(n - 1)); }
    } else {
      assert s[1..] == [] && s[..0] == [];
    }
  }

  lemma Rearrange(d: int, p: int)
    ensures d * (10 * p) == 10 * (d * p)
  {
  }

  lemma {:induction false} DigitsExact(s: string)
    ensures Digits(s).Some? <==> AllDigits(s)
    ensures AllDigits(s) ==> Digits(s) == Some(Positional(s))
    decreases |s|
  {
    if s != [] {
      var n := |s| - 1;
      DigitsExact(s[..n]);
      assert s == s[..n] + [s[n]];
      if AllDigits(s) { PositionalLast(s); }
    }
  }

  // ---- Accepted texts ----

  // An optional sign and at least one digit; the signed positional value is n.
  ghost predicate Denotes(s: string, n: int) {
    exists sign: string, digits: string :: Spells(s, sign, digits, n)
  }

  predicate Spells(s: string, sign: string, digits: string, n: int) {
    && s == sign + digits && sign in {"", "+", "-"} && digits != "" && AllDigits(digits)
    && n == if sign == "-" then -(Positional(digits) as int) else Positional(digits)
  }

  // The limits of a signed 64-bit number.
  predicate InI64(n: int) { -0x8000_0000_0000_0000 <= n <= 0x7FFF_FFFF_FFFF_FFFF }

  lemma UnsignedBody(digits: string)
    requires digits != "" && AllDigits(digits)
    ensures var n := Positional(digits); ParseI64(digits) == if InI64(n) then Some(n) else None
  {
    DigitsExact(digits);
    assert '0' <= digits[0] <= '9';
  }

  lemma SignedTail(c: char, digits: string)
    requires c in {'+', '-'} && digits != "" && AllDigits(digits)
    ensures var n: int := if c == '-' then -(Positional(digits) as int) else Positional(digits);
      ParseI64([c] + digits) == if InI64(n) then Some(n) else None
  {
    DigitsExact(digits);
    var s := [c] + digits;
    assert s[0] == c && s[1..] == digits;
  }

  lemma SignedBody(s: string, sign: string, digits: string, n: int)
    requires Spells(s, sign, digits, n)
    ensures ParseI64(s) == if InI64(n) then Some(n) else None
  {
    if sign == "" {
      assert s == digits;
      UnsignedBody(digits);
    } else {
      assert sign == [sign[0]] && sign[0] in {'+', '-'};
      SignedTail(sign[0], digits);
    }
  }

  // A text is read as n exactly when it is an optional sign and digits that denote n, within 64 bits.
  lemma ParseI64Exact(s: string, n: int)
    ensures ParseI64(s) == Some(n) <==> Denotes(s, n) && InI64(n)
  {
    if ParseI64(s) == Some(n) {
      var signed := s[0] == '-' || s[0] == '+';
      var sign, digits := if signed then [s[0]] else "", if signed then s[1..] else s;
      DigitsExact(digits);
      assert s == sign + digits;
      assert Spells(s, sign, digits, n);
    }
    if Denotes(s, n) {
      var sign: string, digits: string :| Spells(s, sign, digits, n);
      SignedBody(s, sign, digits, n);
    }
  }

  // ---- Writing numbers ----

  function DigitOf(d: nat): char
    requires d < 10
  {
    (d + '0' as int) as char
  }

  function Unsigned(n: nat): string { if n < 10 then [DigitOf(n)] else Unsigned(n / 10) + [DigitOf(n % 10)] }

  // The usual notation.
  function Decimal(n: int): string { if n < 0 then "-" + Unsigned(-n) else Unsigned(n) }

  lemma {:induction false} UnsignedValue(n: nat)
    ensures Unsigned(n) != "" && AllDigits(Unsigned(n)) && Positional(Unsigned(n)) == n
  {
    var s := Unsigned(n);
    if n < 10 {
      assert s[1..] == [];
      assert Pow10(0) == 1;
    } else {
      UnsignedValue(n / 10);
      assert s[..|s| - 1] == Unsigned(n / 10);
      PositionalLast(s);
    }
  }

  // Every 64-bit number, written in the usual notation, is read back.
  lemma DecimalReadBack(n: int)
    requires InI64(n)
    ensures ParseI64(Decimal(n)) == Some(n)
  {
    if n < 0 {
      UnsignedValue(-n);
      SignedBody(Decimal(n), "-", Unsigned(-n), n);
    } else {
      UnsignedValue(n);
      assert "" + Unsigned(n) == Unsigned(n);
      SignedBody(Decimal(n), "", Unsigned(n), n);
    }
  }
}
