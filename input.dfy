/** The text inputs the bot validates (internal/interface/telegram/hanlders.go):
    the weight and reps patterns, written here both as the grammar the regular
    expressions denote and as hand-written left-to-right recognisers, and the
    comma-to-period normalisation applied to weights. Go's `\d` is ASCII and
    its `$` (without the m flag) matches only at the end of the text. */
module Input {
  import opened Tables
  import opened Decimal

  // ---------------------------------------------------------------------------
  // The grammar of the two patterns

  /** ([1-9]\d*|0) */
  predicate Unsigned(s: string) {
    s == "0" || (|s| >= 1 && '1' <= s[0] <= '9' && AllDigits(s))
  }

  /** (\.\d+)? */
  predicate Fraction(s: string) {
    s == "" || (|s| >= 2 && s[0] == '.' && AllDigits(s[1..]))
  }

  /** ([eE][+-]?\d+)? */
  predicate Exponent(s: string) {
    || s == ""
    || (&& |s| >= 2 && (s[0] == 'e' || s[0] == 'E')
        && (AllDigits(s[1..]) || (|s| >= 3 && (s[1] == '+' || s[1] == '-') && AllDigits(s[2..]))))
  }

  /** The language of weightRegex, ^([1-9]\d*|0)(\.\d+)?([eE][+-]?\d+)?$ */
  ghost predicate WeightSyntax(s: string) {
    exists i, j :: 0 <= i <= j <= |s| && Unsigned(s[..i]) && Fraction(s[i..j]) && Exponent(s[j..])
  }

  /** The language of repsRegex, ^(0|[1-9]\d*)$ */
  ghost predicate RepsSyntax(s: string) {
    Unsigned(s)
  }

  // ---------------------------------------------------------------------------
  // Recognisers

  /** The end of the run of digits that starts at i. */
  function DigitRun(s: string, i: nat): (j: nat)
    requires i <= |s|
    ensures i <= j <= |s|
    ensures AllDigits(s[i..j])
    ensures j < |s| ==> !IsDigit(s[j])
    decreases |s| - i
  {
    if i < |s| && IsDigit(s[i]) then
      var j := DigitRun(s, i + 1);
      assert s[i..j] == [s[i]] + s[i + 1..j];
      j
    else i
  }

  /** The end of the integer part at the front of s; 0 when there is none. */
  function IntEnd(s: string): (i: nat)
    ensures i <= |s|
  {
    if s == [] then 0
    else if s[0] == '0' then 1
    else if '1' <= s[0] <= '9' then DigitRun(s, 1)
    else 0
  }

  /** The end of an optional fraction that starts at i. */
  function FracEnd(s: string, i: nat): (j: nat)
    requires i <= |s|
    ensures i <= j <= |s|
  {
    if i < |s| && s[i] == '.' && DigitRun(s, i + 1) > i + 1 then DigitRun(s, i + 1) else i
  }

  /** The text from j on is empty or a complete exponent. */
  predicate ExponentFrom(s: string, j: nat)
    requires j <= |s|
  {
    || j == |s|
    || (&& (s[j] == 'e' || s[j] == 'E')
        && var k := if j + 1 < |s| && (s[j + 1] == '+' || s[j + 1] == '-') then j + 2 else j + 1;
           k < |s| && DigitRun(s, k) == |s|)
  }

  /** weightRegexp.MatchString */
  predicate MatchWeight(s: string) {
    var i := IntEnd(s);
    i > 0 && ExponentFrom(s, FracEnd(s, i))
  }

  /** repsRegexp.MatchString */
  predicate MatchReps(s: string) {
    s != [] && IntEnd(s) == |s|
  }

  // ---------------------------------------------------------------------------
  // The recognisers accept exactly the patterns' languages

  /** A digit run is maximal: it reaches past every all-digit stretch from i. */
  lemma {:induction false} DigitRunMaximal(s: string, i: nat, j: nat)
    requires i <= j <= |s| && AllDigits(s[i..j])
    ensures DigitRun(s, i) >= j
    decreases j - i
  {
    if i < j {
      assert IsDigit(s[i..j][0]);
      assert s[i + 1..j] == s[i..j][1..];
      DigitRunMaximal(s, i + 1, j);
    }
  }

  /** IntEnd finds the integer part whenever the text has one. */
  lemma IntEndUnique(s: string, i: nat)
    requires i <= |s| && Unsigned(s[..i])
    requires i < |s| ==> !IsDigit(s[i])
    ensures IntEnd(s) == i
  {
    assert s[..i][0] == s[0];
    if s[0] != '0' {
      assert s[1..i] == s[..i][1..];
      DigitRunMaximal(s, 1, i);
    }
  }

  lemma UnsignedFromIntEnd(s: string)
    requires IntEnd(s) > 0
    ensures Unsigned(s[..IntEnd(s)])
  {
    var i := IntEnd(s);
    if s[0] != '0' {
      assert s[..i] == [s[0]] + s[1..i];
    }
  }

  lemma MatchWeightSound(s: string)
    requires MatchWeight(s)
    ensures WeightSyntax(s)
  {
    var i := IntEnd(s);
    var j := FracEnd(s, i);
    UnsignedFromIntEnd(s);
    if j > i {
      assert s[i..j] == [s[i]] + s[i + 1..j];
    }
    assert Fraction(s[i..j]);
    if j < |s| {
      var e := s[j..];
      var k := if j + 1 < |s| && (s[j + 1] == '+' || s[j + 1] == '-') then j + 2 else j + 1;
      assert AllDigits(s[k..|s|]);
      assert e[k - j..] == s[k..|s|];
      assert e[0] == s[j];
      if k == j + 2 { assert e[1] == s[j + 1]; }
    }
  }

  /** A fraction followed by an exponent: FracEnd finds exactly that fraction. */
  lemma FracEndUnique(s: string, i: nat, j: nat)
    requires i <= j <= |s| && Fraction(s[i..j]) && Exponent(s[j..])
    ensures FracEnd(s, i) == j
  {
    if i < j {
      assert s[i] == s[i..j][0];
      assert s[i + 1..j] == s[i..j][1..];
      DigitRunMaximal(s, i + 1, j);
      // the exponent (or the end of the text) stops the digit run at j
      if j < |s| { assert s[j] == s[j..][0]; }
    } else if i < |s| {
      assert s[i] == s[j..][0];
    }
  }

  /** An exponent pattern at j is what ExponentFrom accepts. */
  lemma ExponentFromOf(s: string, j: nat)
    requires j <= |s| && Exponent(s[j..])
    ensures ExponentFrom(s, j)
  {
    if j < |s| {
      var e := s[j..];
      assert e[0] == s[j];
      if AllDigits(e[1..]) {
        assert s[j + 1..] == e[1..];
        assert IsDigit(s[j + 1]);
        DigitRunMaximal(s, j + 1, |s|);
      } else {
        assert s[j + 1] == e[1];
        assert s[j + 2..] == e[2..];
        DigitRunMaximal(s, j + 2, |s|);
      }
    }
  }

  lemma MatchWeightComplete(s: string)
    requires WeightSyntax(s)
    ensures MatchWeight(s)
  {
    var i, j :| 0 <= i <= j <= |s| && Unsigned(s[..i]) && Fraction(s[i..j]) && Exponent(s[j..]);
    // what follows the integer part starts with '.', 'e', 'E' or nothing
    if i < |s| {
      if i < j { assert s[i] == s[i..j][0]; } else { assert s[i] == s[j..][0]; }
    }
    IntEndUnique(s, i);
    FracEndUnique(s, i, j);
    ExponentFromOf(s, j);
  }

  /** The weight recogniser accepts exactly the weight pattern's language. */
  lemma MatchWeightCorrect(s: string)
    ensures MatchWeight(s) <==> WeightSyntax(s)
  {
    if MatchWeight(s) { MatchWeightSound(s); }
    if WeightSyntax(s) { MatchWeightComplete(s); }
  }

  /** The reps recogniser accepts exactly the reps pattern's language. */
  lemma MatchRepsCorrect(s: string)
    ensures MatchReps(s) <==> RepsSyntax(s)
  {
    if MatchReps(s) {
      UnsignedFromIntEnd(s);
      assert s[..|s|] == s;
    }
    if RepsSyntax(s) {
      assert s[..|s|] == s;
      IntEndUnique(s, |s|);
    }
  }

  /** Every valid reps text is also a valid weight. */
  lemma RepsAreWeights(s: string)
    requires RepsSyntax(s)
    ensures WeightSyntax(s)
  {
    assert s[..|s|] == s && s[|s|..|s|] == "" && s[|s|..] == "";
  }

  // ---------------------------------------------------------------------------
  // The weight handler's normalisation and decisions

  /** strings.ReplaceAll(text, ",", ".") */
  function ReplaceCommas(s: string): (r: string)
    ensures |r| == |s|
    ensures forall k :: 0 <= k < |s| ==> r[k] == (if s[k] == ',' then '.' else s[k])
  {
    if s == [] then []
    else ReplaceCommas(s[..|s| - 1]) + [if s[|s| - 1] == ',' then '.' else s[|s| - 1]]
  }

  /** WeightHandler accepts the text. */
  predicate AcceptsWeight(text: string) {
    MatchWeight(ReplaceCommas(text))
  }

  /** RepsHandler accepts the text (no normalisation). */
  predicate AcceptsReps(text: string) {
    MatchReps(text)
  }

  /** A comma and a period in the same place are treated identically. */
  lemma CommaIsPoint(s: string, t: string)
    requires |s| == |t|
    requires forall k :: 0 <= k < |s| ==> s[k] == t[k] || ((s[k] == ',' || s[k] == '.') && (t[k] == ',' || t[k] == '.'))
    ensures ReplaceCommas(s) == ReplaceCommas(t)
    ensures AcceptsWeight(s) <==> AcceptsWeight(t)
  {
  }

  /** The normalised text has no comma left, so normalising again changes nothing. */
  lemma ReplaceCommasIdempotent(s: string)
    ensures ',' !in ReplaceCommas(s)
    ensures ReplaceCommas(ReplaceCommas(s)) == ReplaceCommas(s)
  {
  }

  /** A weight or reps text with a leading sign, or an empty one, is rejected. */
  lemma SignedOrEmptyRejected(s: string)
    requires s == [] || s[0] == '-' || s[0] == '+'
    ensures !AcceptsWeight(s) && !AcceptsReps(s)
  {
  }

  /** A leading zero followed by more digits is rejected by both patterns. */
  lemma LeadingZeroRejected(s: string)
    requires |s| >= 2 && s[0] == '0' && IsDigit(s[1])
    ensures !AcceptsWeight(s) && !AcceptsReps(s)
  {
    var n := ReplaceCommas(s);
    assert n[1] == s[1];
  }

  /** The reps text of every count is accepted and read back as that count. */
  lemma RepsRoundTrip(n: nat)
    ensures AcceptsReps(ShowNat(n)) && Atoi(ShowNat(n)) == Some(n)
  {
    MatchRepsCorrect(ShowNat(n));
    AtoiShowInt(n);
  }

  /** An accepted reps text is read as a count, and is that count's only spelling. */
  lemma AcceptedRepsCanonical(s: string)
    requires AcceptsReps(s)
    ensures Atoi(s).Some? && Atoi(s).value >= 0 && ShowNat(Atoi(s).value) == s
  {
    MatchRepsCorrect(s);
    ShowNatOfValue(s);
  }

  lemma WeightExamples()
    ensures AcceptsWeight("12,5") && AcceptsWeight("12.5") && ReplaceCommas("12,5") == "12.5"
    ensures AcceptsWeight("0") && AcceptsWeight("2.5e3")
  {
  }

  lemma RejectedWeightExamples()
    ensures !AcceptsWeight("abc") && !AcceptsWeight("01") && !AcceptsWeight("1.")
  {
  }

  lemma RepsExamples()
    ensures AcceptsReps("0") && AcceptsReps("12")
    ensures !AcceptsReps("1.0") && !AcceptsReps("1,0") && !AcceptsReps("01")
  {
  }
}
