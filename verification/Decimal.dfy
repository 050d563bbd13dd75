/** Decimal numbers as the Runner prints and parses them. */
module Decimal {
  import opened Text

  const U64 := 0x1_0000_0000_0000_0000
  const U32 := 0x1_0000_0000

  predicate IsDigit(c: char) {
    '0' <= c <= '9'
  }

  predicate AllDigits(s: string) {
    forall i | 0 <= i < |s| :: IsDigit(s[i])
  }

  function Digits(n: nat): (s: string)
    ensures s != "" && AllDigits(s)
    ensures n > 0 ==> s[0] != '0'
  {
    var last := ('0' as int + n % 10) as char;
    if n < 10 then [last] else Digits(n / 10) + [last]
  }

  function SignedDigits(n: int): (s: string)
    ensures s != "" && forall i | 0 <= i < |s| :: IsDigit(s[i]) || s[i] == '-'
  {
    if n < 0 then ['-'] + Digits(-n) else Digits(n)
  }

  /** What a string of digits denotes. */
  function Value(s: string): nat
    requires AllDigits(s)
  {
    if s == "" then 0 else 10 * Value(s[..|s| - 1]) + (s[|s| - 1] as int - '0' as int)
  }

  /** `str::parse` for an unsigned integer below `bound`: one optional plus sign,
      then at least one digit and nothing else. */
  function Parse(s: string, bound: nat): (n: Option<nat>)
    ensures n.Some? ==> n.value < bound
  {
    var digits := if |s| > 0 && s[0] == '+' then s[1..] else s;
    if digits == "" || !AllDigits(digits) || Value(digits) >= bound then None
    else Some(Value(digits))
  }

  lemma {:induction false} ValueOfDigits(n: nat)
    ensures Value(Digits(n)) == n
  {
    if n < 10 {
      assert Digits(n)[..0] == "";
    } else {
      ValueOfDigits(n / 10);
      assert Digits(n)[..|Digits(n)| - 1] == Digits(n / 10);
    }
  }

  /** **Decimal**: one digit denotes itself, and one more to the right ten times what stands
      before it and itself; a negative number has a minus before it. */
  lemma DecimalIs(s: string, c: char, n: nat)
    requires AllDigits(s) && '0' <= c <= '9'
    ensures Value("") == 0 && Value(s + [c]) == 10 * Value(s) + (c as int - 48)
    ensures n > 0 ==> SignedDigits(-(n as int)) == "-" + Digits(n)
    ensures SignedDigits(n) == Digits(n)
  {
    assert (s + [c])[..|s|] == s;
  }

  /** With no sign before them, digits parse to what they denote. */
  lemma ParseUnsigned(s: string, bound: nat)
    requires s != "" && AllDigits(s)
    ensures Parse(s, bound) == if Value(s) < bound then Some(Value(s)) else None
  {
    assert IsDigit(s[0]);
  }

  /** **What parses**: digits, with or without one plus before them, that denote a number
      below the bound; and nothing else. */
  lemma ParseIs(s: string, bound: nat)
    ensures Parse(s, bound).Some? <==>
              || (s != "" && AllDigits(s) && Value(s) < bound)
              || (|s| > 1 && s[0] == '+' && AllDigits(s[1..]) && Value(s[1..]) < bound)
    ensures s != "" && AllDigits(s) && Value(s) < bound ==> Parse(s, bound) == Some(Value(s))
    ensures |s| > 1 && s[0] == '+' && AllDigits(s[1..]) && Value(s[1..]) < bound ==>
              Parse(s, bound) == Some(Value(s[1..]))
    ensures AllDigits(s) <==> forall i | 0 <= i < |s| :: '0' <= s[i] <= '9'
  {
    assert s != "" && s[0] == '+' ==> !IsDigit(s[0]);
  }

  /** Printing and parsing are inverse on everything that fits. */
  lemma ParseDigits(n: nat, bound: nat)
    ensures Parse(Digits(n), bound) == if n < bound then Some(n) else None
  {
    ValueOfDigits(n);
    assert IsDigit(Digits(n)[0]);
  }

  lemma DigitsInjective(m: nat, n: nat)
    requires Digits(m) == Digits(n)
    ensures m == n
  {
    ValueOfDigits(m);
    ValueOfDigits(n);
  }

  /** Strings of digits that are as long and denote as much are the same. */
  lemma {:induction false} ValueInjective(s: string, t: string)
    requires AllDigits(s) && AllDigits(t) && |s| == |t| && Value(s) == Value(t)
    ensures s == t
  {
    if s != "" {
      var n := |s| - 1;
      ValueInjective(s[..n], t[..n]);
      assert s == s[..n] + [s[n]] && t == t[..n] + [t[n]];
    }
  }

  function Zeros(n: nat): (s: string)
    ensures |s| == n && AllDigits(s)
  {
    seq(n, _ => '0')
  }

  /** Leading zeros denote nothing. */
  lemma {:induction false} ValueOfZeros(n: nat, s: string)
    requires AllDigits(s)
    ensures Value(Zeros(n) + s) == Value(s)
  {
    var t := Zeros(n) + s;
    if s != "" {
      ValueOfZeros(n, s[..|s| - 1]);
      assert t[..|t| - 1] == Zeros(n) + s[..|s| - 1];
    } else if n > 0 {
      ValueOfZeros(n - 1, "");
      assert t[..n - 1] == Zeros(n - 1) + "" && t[n - 1] == '0';
    }
  }

  function Pow10(k: nat): nat {
    if k == 0 then 1 else 10 * Pow10(k - 1)
  }

  lemma {:induction false} DigitsLength(n: nat, k: nat)
    requires k > 0 && n < Pow10(k)
    ensures |Digits(n)| <= k
  {
    if n >= 10 {
      DigitsLength(n / 10, k - 1);
    }
  }

  /** Everything a 64-bit counter holds prints in at most twenty digits. */
  lemma TwentyDigits(n: nat)
    requires n < U64
    ensures |Digits(n)| <= 20
  {
    assert Pow10(3) == 1000;
    assert Pow10(6) == 1000 * Pow10(3);
    assert Pow10(9) == 1000 * Pow10(6);
    assert Pow10(12) == 1000 * Pow10(9);
    assert Pow10(15) == 1000 * Pow10(12);
    assert Pow10(18) == 1000 * Pow10(15);
    assert Pow10(20) == 100 * Pow10(18);
    DigitsLength(n, 20);
  }

  lemma DigitsAreNotSpace(s: string)
    requires forall i | 0 <= i < |s| :: IsDigit(s[i]) || s[i] == '-'
    ensures forall i | 0 <= i < |s| :: !IsWhitespace(s[i])
  {}
}
