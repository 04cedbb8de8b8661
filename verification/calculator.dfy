/** `tools/calculator.py`: the quiz score tool, `correct - wrong` reported
    as "Punteggio finale: " followed by Python's `str()` of the score. */
module Calculator {
  import opened Values

  predicate IsDigit(c: char) {
    '0' <= c <= '9'
  }

  function DigitChar(d: nat): (c: char)
    requires d < 10
    ensures IsDigit(c) && c as int - '0' as int == d
  {
    ('0' as int + d) as char
  }

  /** Decimal digits of `n`, no leading zero. */
  function NatToString(n: nat): (s: string)
    ensures |s| > 0 && forall i :: 0 <= i < |s| ==> IsDigit(s[i])
    ensures |s| > 1 ==> s[0] != '0'
  {
    if n < 10 then [DigitChar(n)] else NatToString(n / 10) + [DigitChar(n % 10)]
  }

  /** `str(i)` for a Python int: a minus sign for negatives, then the digits. */
  function IntToString(i: int): string {
    if i < 0 then "-" + NatToString(-i) else NatToString(i)
  }

  /** Reading a non-empty run of decimal digits. */
  function ParseNat(s: string): Option<nat>
    decreases |s|
  {
    if |s| == 0 || !IsDigit(s[|s| - 1]) then None
    else
      var d := s[|s| - 1] as int - '0' as int;
      if |s| == 1 then Some(d)
      else
        match ParseNat(s[..|s| - 1])
        case None => None
        case Some(v) => Some(10 * v + d)
  }

  /** Reading an optionally signed decimal integer. */
  function ParseInt(s: string): Option<int> {
    if |s| > 0 && s[0] == '-' then
      match ParseNat(s[1..])
      case None => None
      case Some(v) => Some(0 - v as int)
    else
      match ParseNat(s)
      case None => None
      case Some(v) => Some(v as int)
  }

  lemma {:induction false} NatRoundTrip(n: nat)
    ensures ParseNat(NatToString(n)) == Some(n)
  {
    if n >= 10 {
      NatRoundTrip(n / 10);
      var s := NatToString(n);
      assert s[..|s| - 1] == NatToString(n / 10);
    }
  }

  /** The decimal text of a score reads back as that score. */
  lemma IntRoundTrip(i: int)
    ensures ParseInt(IntToString(i)) == Some(i)
  {
    if i < 0 {
      NatRoundTrip(-i);
      assert IntToString(i)[1..] == NatToString(-i);
    } else {
      NatRoundTrip(i);
    }
  }

  const Prefix: string := "Punteggio finale: "

  /** `QuizCalculator._run`: the score is not clamped at zero. */
  function Score(correct: int, wrong: int): (score: int)
    ensures score < 0 <==> wrong > correct
    ensures score + wrong == correct
  {
    correct - wrong
  }

  function Run(correct: int, wrong: int): (r: string)
    ensures |r| > |Prefix| && r[..|Prefix|] == Prefix
  {
    Prefix + IntToString(Score(correct, wrong))
  }

  /** The report names the score: reading the text after the prefix gives
      `correct - wrong` back, so equal reports mean equal scores. */
  lemma RunReportsScore(correct: int, wrong: int)
    ensures ParseInt(Run(correct, wrong)[|Prefix|..]) == Some(correct - wrong)
  {
    IntRoundTrip(correct - wrong);
    assert Run(correct, wrong)[|Prefix|..] == IntToString(correct - wrong);
  }

  lemma RunInjectiveOnScore(c1: int, w1: int, c2: int, w2: int)
    requires Run(c1, w1) == Run(c2, w2)
    ensures c1 - w1 == c2 - w2
  {
    RunReportsScore(c1, w1);
    RunReportsScore(c2, w2);
  }

  /** More right answers never lower the score; more wrong ones never raise it. */
  lemma ScoreMonotone(c: int, c': int, w: int, w': int)
    requires c <= c' && w <= w'
    ensures Score(c, w) <= Score(c', w)
    ensures Score(c, w') <= Score(c, w)
  {
  }

  /** Three right and five wrong report a negative score. */
  lemma NegativeScoreReported()
    ensures Run(3, 5) == "Punteggio finale: -2"
  {
  }
}
