/** How a forecast estimate becomes the commercial figure a buyer sees: haircut, minimum, and rounding
    down to significant figures or to a ladder of steps per decade. Amounts are exact: binary
    floating-point rounding of the haircut product and of ladder mantissas is not modelled. */
module Disclosure {
  import opened Wrappers

  /** A ladder replaces the significant figures. */
  datatype Policy = Policy(significantFigures: nat, ladder: Option<seq<real>>, haircut: real, minQuantity: nat)

  const DEFAULT_POLICY := Policy(2, None, 1.0, 0)

  predicate ValidLadder(ladder: seq<real>) {
    && |ladder| > 0 && ladder[0] == 1.0
    && (forall i :: 0 <= i < |ladder| ==> 1.0 <= ladder[i] < 10.0)
    && (forall i :: 0 < i < |ladder| ==> ladder[i - 1] < ladder[i])
  }

  /** What parsing a disclosure block accepts. */
  predicate ValidPolicy(p: Policy) {
    && 1 <= p.significantFigures <= 6
    && (p.ladder.Some? ==> ValidLadder(p.ladder.value))
    && 0.0 < p.haircut <= 1.0
  }

  function Pow10(e: nat): (r: nat)
    ensures r >= 1
  {
    if e == 0 then 1 else 10 * Pow10(e - 1)
  }

  /** Number of decimal digits: the length of the printed number. */
  function Digits(n: nat): (d: nat)
    ensures d >= 1
  {
    if n < 10 then 1 else 1 + Digits(n / 10)
  }

  /** Nearest integer, halves upwards. */
  function Round(x: real): int {
    (x + 0.5).Floor
  }

  function Decade(n: nat): nat {
    Pow10(Digits(n) - 1)
  }

  function Candidate(mantissa: real, decade: nat): int {
    Round(mantissa * decade as real)
  }

  /** The last of the first `k` ladder steps that does not exceed `offered`, or the decade itself. */
  function LadderStep(ladder: seq<real>, k: nat, offered: nat): int
    requires k <= |ladder|
  {
    if k == 0 then Decade(offered)
    else if Candidate(ladder[k - 1], Decade(offered)) <= offered then Candidate(ladder[k - 1], Decade(offered))
    else LadderStep(ladder, k - 1, offered)
  }

  function Unit(offered: nat, figures: nat): nat {
    Pow10(if Digits(offered) > figures then Digits(offered) - figures else 0)
  }

  function RoundDown(p: Policy, offered: nat): int {
    match p.ladder
    case Some(ladder) => LadderStep(ladder, |ladder|, offered)
    case None => var unit := Unit(offered, p.significantFigures); offered / unit * unit
  }

  function Offered(p: Policy, estimate: real): int {
    (estimate * p.haircut).Floor
  }

  function Quantized(p: Policy, estimate: real): int {
    if estimate <= 0.0 then 0
    else
      var offered := Offered(p, estimate);
      if offered < 1 || offered < p.minQuantity then 0 else RoundDown(p, offered)
  }

  method QuantizeAvailability(estimate: real, p: Policy) returns (figure: int)
    requires ValidPolicy(p)
    ensures figure == Quantized(p, estimate)
  {
    if estimate <= 0.0 {
      return 0;
    }
    var offered := Offered(p, estimate);
    if offered < 1 || offered < p.minQuantity {
      return 0;
    }
    if p.ladder.Some? {
      figure := LadderFigure(p.ladder.value, offered);
    } else {
      var unit := Unit(offered, p.significantFigures);
      figure := offered / unit * unit;
    }
  }

  method LadderFigure(ladder: seq<real>, offered: nat) returns (step: int)
    ensures step == LadderStep(ladder, |ladder|, offered)
  {
    var decade := Pow10(Digits(offered) - 1);
    step := decade;   // a ladder always contains 1
    for i := 0 to |ladder|
      invariant step == LadderStep(ladder, i, offered)
    {
      var candidate := Candidate(ladder[i], decade);
      if candidate <= offered {
        step := candidate;
      }
    }
  }

  // ---------------------------------------------------------------------------------------------
  // Powers and digits
  // ---------------------------------------------------------------------------------------------

  lemma {:induction false} PowSplits(a: nat, b: nat)
    ensures Pow10(a + b) == Pow10(a) * Pow10(b)
  {
    if a > 0 {
      PowSplits(a - 1, b);
      assert Pow10(a) * Pow10(b) == 10 * (Pow10(a - 1) * Pow10(b));
    }
  }

  lemma {:induction false} PowGrows(a: nat, b: nat)
    requires a <= b
    ensures Pow10(a) <= Pow10(b)
    decreases b
  {
    if a < b {
      PowGrows(a, b - 1);
    }
  }

  lemma PowReflects(a: nat, b: nat)
    requires Pow10(a) < Pow10(b)
    ensures a < b
  {
    if b <= a {
      PowGrows(b, a);
    }
  }

  /** The digit count fixes the decade: 10^(d-1) <= n < 10^d. */
  lemma {:induction false} DigitsBound(n: nat)
    requires n >= 1
    ensures Decade(n) <= n < Pow10(Digits(n))
  {
    if n >= 10 {
      DigitsBound(n / 10);
      assert Pow10(Digits(n)) == 10 * Pow10(Digits(n / 10));
      assert Decade(n) == 10 * Decade(n / 10);
    } else {
      assert Pow10(1) == 10 * Pow10(0);
    }
  }

  /** Numbers in one decade have one digit count. */
  lemma DigitsUnique(n: nat, d: nat)
    requires n >= 1 && d >= 1 && Pow10(d - 1) <= n < Pow10(d)
    ensures Digits(n) == d
  {
    DigitsBound(n);
    PowReflects(d - 1, Digits(n));
    PowReflects(Digits(n) - 1, d);
  }

  lemma DigitsMonotone(m: nat, n: nat)
    requires 1 <= m <= n
    ensures Digits(m) <= Digits(n)
  {
    DigitsBound(m);
    DigitsBound(n);
    PowReflects(Digits(m) - 1, Digits(n));
  }

  // ---------------------------------------------------------------------------------------------
  // Significant figures
  // ---------------------------------------------------------------------------------------------

  /** `k` followed by `e` zeros. */
  function Scaled(k: nat, e: nat): nat {
    k * Pow10(e)
  }

  /** The numbers with at most `figures` significant figures. */
  ghost predicate HasFigures(x: nat, figures: nat) {
    exists k: nat, e: nat :: k < Pow10(figures) && x == Scaled(k, e)
  }

  lemma MulMonotone(a: nat, b: nat, c: nat)
    requires a <= b
    ensures a * c <= b * c && c * a <= c * b
  {
  }

  /** The greatest multiple of `unit` not above `n`. */
  lemma FloorMultiple(n: nat, unit: nat)
    requires unit >= 1
    ensures n / unit * unit <= n < n / unit * unit + unit
  {
  }

  lemma LargestMultiple(n: nat, unit: nat, q: nat)
    requires unit >= 1 && q * unit <= n
    ensures q * unit <= n / unit * unit
  {
    FloorMultiple(n, unit);
    if q <= n / unit {
      MulMonotone(q, n / unit, unit);
    } else {
      MulMonotone(n / unit + 1, q, unit);
    }
  }

  /** Between `low` and `high` multiples of `unit`, flooring keeps the quotient between them and loses
      less than the `low`-th part. */
  lemma FloorBetween(n: nat, unit: nat, low: nat, high: nat)
    requires unit >= 1 && low >= 1 && low * unit <= n < high * unit
    ensures var r := n / unit * unit;
            low * unit <= r <= n && n / unit < high && (n - r) * low < n
  {
    var r := n / unit * unit;
    FloorMultiple(n, unit);
    LargestMultiple(n, unit, low);
    if n / unit >= high {
      MulMonotone(high, n / unit, unit);
    }
    MulMonotone(n - r, unit - 1, low);
    assert (unit - 1) * low < low * unit;
  }

  lemma FiguresRounding(n: nat, figures: nat)
    requires n >= 1 && figures >= 1
    ensures var r := n / Unit(n, figures) * Unit(n, figures);
            && Decade(n) <= r <= n
            && HasFigures(r, figures)
            && (n - r) * Pow10(figures - 1) < n
  {
    var d := Digits(n);
    DigitsBound(n);
    if d > figures {
      PowSplits(figures, d - figures);
      PowSplits(figures - 1, d - figures);
      FloorBetween(n, Pow10(d - figures), Pow10(figures - 1), Pow10(figures));
      assert HasFigures(Scaled(n / Pow10(d - figures), d - figures), figures);
    } else {
      PowGrows(d, figures);
      assert n / 1 * 1 == n;
      assert Scaled(n, 0) == n;
    }
  }

  lemma FiguresMaximal(n: nat, figures: nat, k: nat, e: nat)
    requires n >= 1 && figures >= 1
    requires k < Pow10(figures) && Scaled(k, e) <= n
    ensures Scaled(k, e) <= n / Unit(n, figures) * Unit(n, figures)
  {
    var part := if Digits(n) > figures then Digits(n) - figures else 0;
    if part <= e {
      ScaledFits(n, k, e, part);
    } else {
      ScaledBelow(k, e, figures, part - 1);
      DecadeFits(n, part);
    }
  }

  lemma DecadeFits(n: nat, part: nat)
    requires n >= 1 && part < Digits(n)
    ensures Decade(n) <= n / Pow10(part) * Pow10(part)
  {
    DigitsBound(n);
    PowSplits(Digits(n) - 1 - part, part);
    LargestMultiple(n, Pow10(part), Pow10(Digits(n) - 1 - part));
  }

  lemma ScaledFits(n: nat, k: nat, e: nat, part: nat)
    requires part <= e && Scaled(k, e) <= n
    ensures Scaled(k, e) <= n / Pow10(part) * Pow10(part)
  {
    ScaledIsMultiple(k, e, part);
    LargestMultiple(n, Pow10(part), k * Pow10(e - part));
  }

  lemma ScaledBelow(k: nat, e: nat, figures: nat, top: nat)
    requires k < Pow10(figures) && e <= top
    ensures Scaled(k, e) <= Pow10(figures + top)
  {
    PowGrows(e, top);
    PowSplits(figures, top);
    MulMonotone(k, Pow10(figures), Pow10(e));
    MulMonotone(Pow10(e), Pow10(top), Pow10(figures));
  }

  lemma ScaledIsMultiple(k: nat, e: nat, part: nat)
    requires part <= e
    ensures Scaled(k, e) == k * Pow10(e - part) * Pow10(part)
  {
    PowSplits(e - part, part);
    MulAssociative(k, Pow10(e - part), Pow10(part));
  }

  lemma MulAssociative(a: nat, b: nat, c: nat)
    ensures a * (b * c) == a * b * c
  {
  }

  /** Significant-figure rounding is optimal. Under a valid policy without ladder, for an estimate whose
      offer is at least 1 and the minimum: the figure has the policy's significant figures, is the
      greatest such number not above the offer, and is short of the offer by less than
      offer * 10^(1 - figures). */
  lemma SignificantFiguresAreOptimal(p: Policy, estimate: real)
    requires ValidPolicy(p) && p.ladder.None? && estimate > 0.0
    requires Offered(p, estimate) >= 1 && Offered(p, estimate) >= p.minQuantity
    ensures var offered := Offered(p, estimate);
            var figure := Quantized(p, estimate);
            && 0 < figure <= offered && figure as real <= estimate
            && HasFigures(figure, p.significantFigures)
            && (forall x: nat :: HasFigures(x, p.significantFigures) && x <= offered ==> x <= figure)
            && (offered - figure) * Pow10(p.significantFigures - 1) < offered
  {
    var offered := Offered(p, estimate);
    FiguresRounding(offered, p.significantFigures);
    forall x: nat | HasFigures(x, p.significantFigures) && x <= offered
      ensures x <= Quantized(p, estimate)
    {
      var k: nat, e: nat :| k < Pow10(p.significantFigures) && x == Scaled(k, e);
      FiguresMaximal(offered, p.significantFigures, k, e);
    }
    OfferBelowEstimate(p, estimate);
  }

  lemma OfferBelowEstimate(p: Policy, estimate: real)
    requires ValidPolicy(p) && estimate > 0.0
    ensures 0 <= Offered(p, estimate) && Offered(p, estimate) as real <= estimate
  {
    ShareOf(estimate, p.haircut);
  }

  lemma ShareOf(x: real, share: real)
    requires x > 0.0 && 0.0 < share <= 1.0
    ensures 0.0 < x * share <= x
  {
    assert x * (1.0 - share) >= 0.0;
  }

  // ---------------------------------------------------------------------------------------------
  // Ladder
  // ---------------------------------------------------------------------------------------------

  lemma CandidatesAscend(ladder: seq<real>, i: nat, j: nat, decade: nat)
    requires ValidLadder(ladder) && i <= j < |ladder|
    ensures Candidate(ladder[i], decade) <= Candidate(ladder[j], decade)
    ensures Candidate(ladder[i], decade) >= decade
    decreases j
  {
    if i < j {
      CandidatesAscend(ladder, i, j - 1, decade);
      assert ladder[j - 1] * decade as real <= ladder[j] * decade as real;
    } else {
      assert decade as real <= ladder[i] * decade as real;
    }
  }

  /** The ladder's figure is a step of the offer's decade, and the greatest one not above the offer. */
  lemma {:induction false} LadderStepIsGreatest(ladder: seq<real>, k: nat, offered: nat)
    requires ValidLadder(ladder) && 1 <= k <= |ladder| && offered >= 1
    ensures var step := LadderStep(ladder, k, offered);
            && Decade(offered) <= step <= offered
            && (exists i :: 0 <= i < k && step == Candidate(ladder[i], Decade(offered)))
            && (forall i :: 0 <= i < k && Candidate(ladder[i], Decade(offered)) <= offered ==>
                  Candidate(ladder[i], Decade(offered)) <= step)
  {
    var decade := Decade(offered);
    DigitsBound(offered);
    CandidatesAscend(ladder, k - 1, k - 1, decade);
    if Candidate(ladder[k - 1], decade) <= offered {
      forall i | 0 <= i < k
        ensures Candidate(ladder[i], decade) <= Candidate(ladder[k - 1], decade)
      {
        CandidatesAscend(ladder, i, k - 1, decade);
      }
    } else {
      assert k > 1 by {
        assert ladder[0] * decade as real == decade as real;
      }
      LadderStepIsGreatest(ladder, k - 1, offered);
    }
  }

  // ---------------------------------------------------------------------------------------------
  // Order
  // ---------------------------------------------------------------------------------------------

  lemma RoundDownBounds(p: Policy, n: nat)
    requires ValidPolicy(p) && n >= 1
    ensures Decade(n) <= RoundDown(p, n) <= n && Digits(RoundDown(p, n)) == Digits(n)
  {
    if p.ladder.Some? {
      LadderStepIsGreatest(p.ladder.value, |p.ladder.value|, n);
    } else {
      FiguresRounding(n, p.significantFigures);
    }
    DigitsBound(n);
    DigitsUnique(RoundDown(p, n), Digits(n));
  }

  lemma RoundDownMonotone(p: Policy, m: nat, n: nat)
    requires ValidPolicy(p) && 1 <= m <= n
    ensures RoundDown(p, m) <= RoundDown(p, n)
  {
    RoundDownBounds(p, m);
    RoundDownBounds(p, n);
    DigitsMonotone(m, n);
    if Digits(m) < Digits(n) {
      DigitsBound(m);
      PowGrows(Digits(m), Digits(n) - 1);
    } else if p.ladder.Some? {
      var ladder := p.ladder.value;
      LadderStepIsGreatest(ladder, |ladder|, m);
      LadderStepIsGreatest(ladder, |ladder|, n);
    } else {
      var unit := Unit(m, p.significantFigures);
      FloorMultiple(m, unit);
      LargestMultiple(n, unit, m / unit);
    }
  }

  lemma RoundDownIdempotent(p: Policy, n: nat)
    requires ValidPolicy(p) && n >= 1
    ensures RoundDown(p, n) >= 1 && RoundDown(p, RoundDown(p, n)) == RoundDown(p, n)
  {
    RoundDownBounds(p, n);
    var r := RoundDown(p, n);
    RoundDownBounds(p, r);
    if p.ladder.Some? {
      var ladder := p.ladder.value;
      LadderStepIsGreatest(ladder, |ladder|, n);
      LadderStepIsGreatest(ladder, |ladder|, r);
    } else {
      var unit := Unit(n, p.significantFigures);
      LargestMultiple(r, unit, n / unit);
      FloorMultiple(r, unit);
    }
  }

  lemma OfferedMonotone(p: Policy, x: real, y: real)
    requires ValidPolicy(p) && x <= y
    ensures Offered(p, x) <= Offered(p, y)
  {
    assert x * p.haircut <= y * p.haircut;
  }

  /** Rounding is order-safe under every valid policy, ladder or figures, across decades and around the
      minimum: a larger estimate never shows a smaller figure. */
  lemma QuantizedMonotone(p: Policy, x: real, y: real)
    requires ValidPolicy(p) && x <= y
    ensures 0 <= Quantized(p, x) <= Quantized(p, y)
  {
    if x > 0.0 {
      OfferedMonotone(p, x, y);
      if Offered(p, x) >= 1 && Offered(p, x) >= p.minQuantity {
        RoundDownMonotone(p, Offered(p, x), Offered(p, y));
        RoundDownBounds(p, Offered(p, x));
      } else if Offered(p, y) >= 1 {
        RoundDownBounds(p, Offered(p, y));
      }
    } else if y > 0.0 && Offered(p, y) >= 1 {
      RoundDownBounds(p, Offered(p, y));
    }
  }

  /** With no haircut and no minimum, disclosing a disclosed figure changes nothing. */
  lemma QuantizedIdempotent(p: Policy, x: real)
    requires ValidPolicy(p) && p.haircut == 1.0 && p.minQuantity == 0
    ensures Quantized(p, Quantized(p, x) as real) == Quantized(p, x)
  {
    if x > 0.0 && Offered(p, x) >= 1 {
      RoundDownIdempotent(p, Offered(p, x));
      var figure := Quantized(p, x);
      assert Offered(p, figure as real) == figure;
    }
  }

  /** The numbers that a policy can show: those with its significant figures, or the ladder steps of their
      decade. */
  ghost predicate IsFigure(p: Policy, m: nat) {
    match p.ladder
    case Some(ladder) => exists i :: 0 <= i < |ladder| && Candidate(ladder[i], Decade(m)) == m
    case None => HasFigures(m, p.significantFigures)
  }

  /** They are what rounding leaves alone. */
  lemma FiguresAreFixed(p: Policy, m: nat)
    requires ValidPolicy(p) && m >= 1
    ensures RoundDown(p, m) == m <==> IsFigure(p, m)
  {
    RoundDownBounds(p, m);
    if p.ladder.Some? {
      LadderStepIsGreatest(p.ladder.value, |p.ladder.value|, m);
    } else {
      FiguresRounding(m, p.significantFigures);
      if IsFigure(p, m) {
        var k: nat, e: nat :| k < Pow10(p.significantFigures) && m == Scaled(k, e);
        FiguresMaximal(m, p.significantFigures, k, e);
      }
    }
  }

  /** The minimum is tested on the offer before rounding, so a figure below it can be shown. Whether the
      node keeps "zero or at least the minimum" for every estimate is decided by the policy alone: it
      does exactly when the minimum is zero or is itself a figure of the policy. */
  lemma MinimumIsHonouredExactly(p: Policy)
    requires ValidPolicy(p)
    ensures (forall x: real :: Quantized(p, x) == 0 || Quantized(p, x) >= p.minQuantity)
            <==> p.minQuantity == 0 || IsFigure(p, p.minQuantity)
  {
    if p.minQuantity > 0 {
      FiguresAreFixed(p, p.minQuantity);
    }
    if p.minQuantity == 0 {
      forall x: real
        ensures Quantized(p, x) >= 0
      {
        QuantizedMonotone(p, x, x);
      }
    } else if RoundDown(p, p.minQuantity) == p.minQuantity {
      forall x: real
        ensures Quantized(p, x) == 0 || Quantized(p, x) >= p.minQuantity
      {
        FigureMinimumIsHonoured(p, x);
      }
    } else {
      var x := EstimateOffering(p, p.minQuantity);
      RoundDownBounds(p, p.minQuantity);
      assert Quantized(p, x) == RoundDown(p, p.minQuantity);
    }
  }

  lemma FigureMinimumIsHonoured(p: Policy, x: real)
    requires ValidPolicy(p) && p.minQuantity > 0 && RoundDown(p, p.minQuantity) == p.minQuantity
    ensures Quantized(p, x) == 0 || Quantized(p, x) >= p.minQuantity
  {
    if x > 0.0 && Offered(p, x) >= p.minQuantity {
      RoundDownMonotone(p, p.minQuantity, Offered(p, x));
    }
  }

  /** Some estimate leads to any given offer. */
  lemma EstimateOffering(p: Policy, offered: nat) returns (x: real)
    requires ValidPolicy(p) && offered >= 1
    ensures x > 0.0 && Offered(p, x) == offered
  {
    x := offered as real / p.haircut;
    assert x * p.haircut == offered as real;
  }

  /** For example, with the default two figures and a minimum of 1550 an estimate of 1599 is shown as
      1500. */
  lemma MinimumCounterexample()
    ensures var p := DEFAULT_POLICY.(minQuantity := 1550);
            ValidPolicy(p) && Quantized(p, 1599.0) == 1500
  {
    assert Digits(1599) == 1 + Digits(159) && Digits(159) == 1 + Digits(15) && Digits(15) == 1 + Digits(1);
    assert Pow10(2) == 10 * Pow10(1) && Pow10(1) == 10 * Pow10(0);
    var p := DEFAULT_POLICY.(minQuantity := 1550);
    assert Offered(p, 1599.0) == 1599;
    assert Unit(1599, 2) == 100;
  }
}
