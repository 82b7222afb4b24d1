/** Decimal numerals, as printed for array indices and as read back from path tokens. */
module Numerals {

  predicate IsDigit(c: char) { '0' <= c <= '9' }

  function Digit(d: nat): char
    requires d < 10
  {
    '0' + d as char
  }

  function DigitValue(c: char): nat
    requires IsDigit(c)
  {
    c as int - '0' as int
  }

  /** The decimal numeral of `n`. */
  function Decimal(n: nat): string {
    if n < 10 then [Digit(n)] else Decimal(n / 10) + [Digit(n % 10)]
  }

  predicate AllDigits(s: string) { forall k :: 0 <= k < |s| ==> IsDigit(s[k]) }

  function Value(s: string): nat
    requires AllDigits(s)
  {
    if s == "" then 0 else 10 * Value(s[..|s| - 1]) + DigitValue(s[|s| - 1])
  }

  /** Digits without a leading zero. */
  predicate Canonical(s: string) {
    s != "" && AllDigits(s) && (|s| > 1 ==> s[0] != '0')
  }

  lemma {:induction false} DecimalIsCanonical(n: nat)
    ensures Canonical(Decimal(n)) && Value(Decimal(n)) == n
    ensures n > 0 ==> Decimal(n)[0] != '0'
  {
    if n >= 10 {
      DecimalIsCanonical(n / 10);
      var d := Decimal(n);
      assert d[..|d| - 1] == Decimal(n / 10);
    }
  }

  lemma {:induction false} CanonicalIsDecimal(s: string)
    requires Canonical(s)
    ensures Decimal(Value(s)) == s
    ensures |s| > 1 ==> Value(s) >= 10
  {
    var front, last := s[..|s| - 1], s[|s| - 1];
    if front == "" {
      assert s == [last];
      assert Value(front) == 0;
    } else {
      CanonicalIsDecimal(front);
      assert |front| == 1 ==> front == [front[0]] && Value(front[..0]) == 0 && Value(front) == DigitValue(front[0]) > 0;
      assert Value(s) / 10 == Value(front) && Value(s) % 10 == DigitValue(last);
      assert s == front + [last];
    }
  }

  /** Different numbers have different numerals. */
  lemma DecimalInjective(m: nat, n: nat)
    requires Decimal(m) == Decimal(n)
    ensures m == n
  {
    DecimalIsCanonical(m);
    DecimalIsCanonical(n);
  }

  lemma {:induction false} ValueGrows(s: string, t: string)
    requires AllDigits(s + t)
    ensures AllDigits(s) && Value(s) <= Value(s + t)
    decreases |t|
  {
    assert forall k :: 0 <= k < |s| ==> (s + t)[k] == s[k];
    if t == "" {
      assert s + t == s;
    } else {
      var whole := s + t;
      assert whole[..|whole| - 1] == s + t[..|t| - 1];
      ValueGrows(s, t[..|t| - 1]);
    }
  }

  /** Counts the digits of `n` without printing it. */
  method DecimalDigits(n: nat) returns (digits: nat)
    ensures digits == |Decimal(n)|
  {
    digits := 1;
    var rest := n;
    while rest >= 10
      invariant digits + |Decimal(rest)| == |Decimal(n)| + 1
    {
      rest := rest / 10;
      digits := digits + 1;
    }
  }
}
