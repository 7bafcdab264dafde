/** Decimal text of integers: fmt's "%d" (used for the page numbers put in
    button data) and strconv.Atoi (used to read them back). */
module Decimal {
  import opened Tables

  predicate IsDigit(c: char) {
    '0' <= c <= '9'
  }

  predicate AllDigits(s: string) {
    forall k :: 0 <= k < |s| ==> IsDigit(s[k])
  }

  function DigitChar(d: nat): (c: char)
    requires d < 10
    ensures IsDigit(c)
  {
    (48 + d) as char
  }

  function DigitValue(c: char): (d: nat)
    requires IsDigit(c)
    ensures d < 10 && DigitChar(d) == c
  {
    c as int - 48
  }

  /** "%d" of a non-negative number: no sign, no leading zero. */
  function ShowNat(n: nat): (s: string)
    ensures |s| >= 1 && AllDigits(s)
    ensures |s| > 1 ==> s[0] != '0'
  {
    if n < 10 then [DigitChar(n)] else ShowNat(n / 10) + [DigitChar(n % 10)]
  }

  /** "%d": a '-' in front of the digits of a negative number. */
  function ShowInt(n: int): string {
    if n < 0 then "-" + ShowNat(-n) else ShowNat(n)
  }

  /** The number a digit string denotes. */
  function ValueOf(s: string): nat
    requires AllDigits(s)
  {
    if s == [] then 0 else ValueOf(s[..|s| - 1]) * 10 + DigitValue(s[|s| - 1])
  }

  /** strconv.Atoi: an optional sign and one or more decimal digits; every
      other text is a syntax error (None). The int64 range is not modelled. */
  function Atoi(s: string): (r: Option<int>)
    ensures r.Some? ==> |s| > 0
    ensures r.Some? && s[0] != '-' ==> r.value >= 0
  {
    if |s| > 0 && (s[0] == '+' || s[0] == '-') then
      if |s| > 1 && AllDigits(s[1..]) then
        var v: int := ValueOf(s[1..]);
        Some(if s[0] == '-' then -v else v)
      else None
    else if |s| > 0 && AllDigits(s) then Some(ValueOf(s))
    else None
  }

  /** Reading the digits of n gives n back. */
  lemma {:induction false} ShowNatValue(n: nat)
    ensures ValueOf(ShowNat(n)) == n
  {
    if n >= 10 {
      ShowNatValue(n / 10);
      var s := ShowNat(n);
      assert s[..|s| - 1] == ShowNat(n / 10);
    }
  }

  /** Atoi inverts "%d" on every integer. */
  lemma AtoiShowInt(n: int)
    ensures Atoi(ShowInt(n)) == Some(n)
  {
    if n < 0 {
      ShowNatValue(-n);
      assert ShowInt(n)[1..] == ShowNat(-n);
    } else {
      ShowNatValue(n);
    }
  }

  /** A digit string that does not start with '0' denotes a positive number. */
  lemma {:induction false} LeadingDigitPositive(s: string)
    requires AllDigits(s) && s != [] && s[0] != '0'
    ensures ValueOf(s) >= 1
  {
    if |s| > 1 {
      LeadingDigitPositive(s[..|s| - 1]);
    }
  }

  /** A digit string without a superfluous leading zero is exactly "%d" of its value. */
  lemma {:induction false} ShowNatOfValue(s: string)
    requires AllDigits(s) && s != []
    requires |s| > 1 ==> s[0] != '0'
    ensures ShowNat(ValueOf(s)) == s
  {
    if |s| > 1 {
      var init := s[..|s| - 1];
      LeadingDigitPositive(init);
      ShowNatOfValue(init);
      assert s == init + [s[|s| - 1]];
    }
  }
}
