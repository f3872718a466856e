/** 64-bit counters as the evidence files write them: decimal strings of one spelling only. */
module CanonicalDecimal {
  import opened Wrappers

  const U64_LIMIT := 0x1_0000_0000_0000_0000

  predicate IsDigit(c: char) {
    '0' <= c <= '9'
  }

  predicate AllDigits(s: string) {
    forall i | 0 <= i < |s| :: IsDigit(s[i])
  }

  /** No leading zero, at most twenty digits. */
  predicate Canonical(s: string) {
    s == "0" || (1 <= |s| <= 20 && AllDigits(s) && s[0] != '0')
  }

  function Value(s: string): nat
    requires AllDigits(s)
  {
    if s == "" then 0 else 10 * Value(s[..|s| - 1]) + (s[|s| - 1] - '0') as nat
  }

  function U64(s: string): Option<nat> {
    if Canonical(s) && Value(s) < U64_LIMIT then Some(Value(s)) else None
  }

  function Digit(n: nat): char
    requires n < 10
  {
    '0' + n as char
  }

  function Spelled(n: nat): (s: string)
    ensures s != "" && AllDigits(s)
  {
    if n < 10 then [Digit(n)] else Spelled(n / 10) + [Digit(n % 10)]
  }

  lemma {:induction false} SpelledValue(n: nat)
    ensures Value(Spelled(n)) == n && (Spelled(n)[0] == '0' ==> n == 0)
  {
    var s := Spelled(n);
    if n < 10 {
      assert s[..0] == "";
    } else {
      SpelledValue(n / 10);
      assert s[..|s| - 1] == Spelled(n / 10);
    }
  }

  function Pow10(n: nat): nat {
    if n == 0 then 1 else 10 * Pow10(n - 1)
  }

  lemma {:induction false} SpelledLength(n: nat, digits: nat)
    requires digits > 0 && n < Pow10(digits)
    ensures |Spelled(n)| <= digits
  {
    if n >= 10 {
      assert Pow10(digits) == 10 * Pow10(digits - 1);
      SpelledLength(n / 10, digits - 1);
    }
  }

  lemma TwentyDigitsSuffice()
    ensures U64_LIMIT <= Pow10(20)
  {
    assert Pow10(4) == 10_000;
    assert Pow10(8) == 100_000_000;
    assert Pow10(12) == 1_000_000_000_000;
    assert Pow10(16) == 10_000_000_000_000_000;
    assert Pow10(20) == 100_000_000_000_000_000_000;
  }

  /** Every 64-bit value is accepted in its usual spelling. */
  lemma SpelledIsAccepted(n: nat)
    requires n < U64_LIMIT
    ensures U64(Spelled(n)) == Some(n)
  {
    SpelledValue(n);
    TwentyDigitsSuffice();
    SpelledLength(n, 20);
    if n == 0 {
      assert Spelled(n) == "0";
    }
  }

  lemma {:induction false} CanonicalIsSpelled(s: string)
    requires s != "" && AllDigits(s) && (s[0] == '0' ==> |s| == 1)
    ensures Spelled(Value(s)) == s && (s[0] != '0' ==> Value(s) > 0)
  {
    var n := |s| - 1;
    if n == 0 {
      assert Value(s[..0]) == 0;
      assert s == [s[0]];
    } else {
      CanonicalIsSpelled(s[..n]);
      assert Value(s) / 10 == Value(s[..n]) && Value(s) % 10 == (s[n] - '0') as nat;
      assert s == s[..n] + [s[n]];
    }
  }

  /** An accepted string is the one spelling of its value: nothing is lost by keeping the number. */
  lemma AcceptedIsSpelled(s: string)
    requires U64(s).Some?
    ensures U64(s).value < U64_LIMIT && s == Spelled(U64(s).value)
  {
    CanonicalIsSpelled(s);
  }

  lemma SameValueSameString(a: string, b: string)
    requires U64(a).Some? && U64(a) == U64(b)
    ensures a == b
  {
    AcceptedIsSpelled(a);
    AcceptedIsSpelled(b);
  }
}
