/** Decimal numerals: Python's `str(n)`, Go's `strconv.Itoa`, TypeScript's `String(n)`. */
module Decimal {
  predicate IsDigit(c: char) {
    '0' <= c <= '9'
  }

  function Digit(d: nat): char
    requires d < 10
  {
    ('0' as int + d) as char
  }

  function DigitValue(c: char): (d: nat)
    requires IsDigit(c)
    ensures d < 10 && Digit(d) == c
  {
    c as int - '0' as int
  }

  function OfNat(n: nat): (r: string)
    ensures r != []
    ensures forall i | 0 <= i < |r| :: IsDigit(r[i])
  {
    if n < 10 then [Digit(n)] else OfNat(n / 10) + [Digit(n % 10)]
  }

  function OfInt(n: int): (r: string)
    ensures r != []
  {
    if n < 0 then "-" + OfNat(-n) else OfNat(n)
  }

  function Value(s: string): nat
    requires forall i | 0 <= i < |s| :: IsDigit(s[i])
  {
    if s == [] then 0 else Value(s[..|s| - 1]) * 10 + DigitValue(s[|s| - 1])
  }

  /** How many digits `t` starts with. */
  function DigitRun(t: string): (n: nat)
    ensures n <= |t|
    ensures forall i | 0 <= i < n :: IsDigit(t[i])
    ensures n < |t| ==> !IsDigit(t[n])
  {
    if t == [] || !IsDigit(t[0]) then 0 else 1 + DigitRun(t[1..])
  }

  /** A numeral as `OfNat` writes it: digits, no superfluous leading zero. */
  predicate IsNumeral(s: string) {
    && s != []
    && (forall i | 0 <= i < |s| :: IsDigit(s[i]))
    && (s[0] == '0' ==> |s| == 1)
  }

  lemma {:induction false} OfNatIsNumeral(n: nat)
    ensures IsNumeral(OfNat(n))
    ensures n > 0 ==> OfNat(n)[0] != '0'
  {
    if n >= 10 {
      OfNatIsNumeral(n / 10);
    }
  }

  lemma {:induction false} ValueOfNat(n: nat)
    ensures Value(OfNat(n)) == n
  {
    if n >= 10 {
      ValueOfNat(n / 10);
      assert OfNat(n)[..|OfNat(n)| - 1] == OfNat(n / 10);
    } else {
      assert OfNat(n)[..0] == [];
    }
  }

  lemma {:induction false} OfNatOfValue(s: string)
    requires IsNumeral(s)
    ensures OfNat(Value(s)) == s
  {
    var init, last := s[..|s| - 1], s[|s| - 1];
    assert s == init + [last];
    if |s| == 1 {
      assert Value(s) == DigitValue(last);
    } else {
      OfNatOfValue(init);
      assert OfNat(0) == "0";
      assert Value(init) > 0;
      assert Value(s) / 10 == Value(init) && Value(s) % 10 == DigitValue(last);
    }
  }

  lemma DigitRunOfNumeral(s: string, rest: string)
    requires forall i | 0 <= i < |s| :: IsDigit(s[i])
    requires rest == [] || !IsDigit(rest[0])
    ensures DigitRun(s + rest) == |s|
  {
    assert forall i | 0 <= i < |s| :: (s + rest)[i] == s[i];
    assert rest != [] ==> (s + rest)[|s|] == rest[0];
  }
}
