/** The disclosed figure in the publisher's terms: estimate times haircut, and the greatest figure the policy
    can show that does not exceed it. */
module DisclosureLaws {
  import opened Wrappers
  import opened Disclosure

  predicate PowerOfTen(d: nat) {
    d == 1 || (d >= 10 && d % 10 == 0 && PowerOfTen(d / 10))
  }

  /** The first number with more than `figures` figures, for each number of figures a policy may name. */
  function FirstWithMore(figures: nat): nat {
    match figures
    case 0 => 1
    case 1 => 10
    case 2 => 100
    case 3 => 1_000
    case 4 => 10_000
    case 5 => 100_000
    case _ => 1_000_000
  }

  /** `x` is a whole number of at most `figures` figures followed by zeros. */
  ghost predicate KeepsFigures(x: nat, figures: nat) {
    exists d: nat :: PowerOfTen(d) && x % d == 0 && x / d < FirstWithMore(figures)
  }

  /** `d` is the power of ten that starts the decade of `amount`. */
  predicate StartsDecade(d: nat, amount: real) {
    PowerOfTen(d) && d as real <= amount < (10 * d) as real
  }

  /** `x` is the whole number nearest to `y`, the upper one of two. */
  predicate IsNearest(x: int, y: real) {
    x as real - 0.5 <= y < x as real + 0.5
  }

  /** `x` is a step of the ladder in the decade of `amount`. */
  ghost predicate IsStep(ladder: seq<real>, amount: real, x: int) {
    exists d: nat, i :: 0 <= i < |ladder| && StartsDecade(d, amount) && IsNearest(x, ladder[i] * d as real)
  }

  ghost predicate CanShow(p: Policy, amount: real, x: nat) {
    match p.ladder
    case Some(ladder) => IsStep(ladder, amount, x)
    case None => KeepsFigures(x, p.significantFigures)
  }

  /** The figure is zero if less than one, or less than the minimum, is left after the haircut; otherwise it is
      positive, not above what is left, and the greatest such number that the policy can show. */
  ghost predicate IsBest(p: Policy, amount: real, figure: int) {
    if amount < 1.0 || amount < p.minQuantity as real then figure == 0
    else
      && 1 <= figure && figure as real <= amount && CanShow(p, amount, figure)
      && forall x: nat :: x as real <= amount && CanShow(p, amount, x) ==> x <= figure
  }

  lemma {:induction false} PowIsPower(e: nat)
    ensures PowerOfTen(Pow10(e))
  {
    if e > 0 {
      PowIsPower(e - 1);
    }
  }

  lemma {:induction false} PowerIsPow(d: nat) returns (e: nat)
    requires PowerOfTen(d)
    ensures d == Pow10(e)
  {
    if d == 1 {
      e := 0;
    } else {
      e := PowerIsPow(d / 10);
      e := e + 1;
    }
  }

  lemma LimitIsPow(figures: nat)
    requires figures <= 6
    ensures FirstWithMore(figures) == Pow10(figures)
  {
    assert Pow10(1) == 10 && Pow10(2) == 10 * Pow10(1) && Pow10(3) == 10 * Pow10(2);
    assert Pow10(4) == 10 * Pow10(3) && Pow10(5) == 10 * Pow10(4) && Pow10(6) == 10 * Pow10(5);
  }

  lemma QuotientOfMultiple(k: nat, d: nat)
    requires d >= 1
    ensures k * d % d == 0 && k * d / d == k
  {
    var n := k * d;
    FloorMultiple(n, d);
    LargestMultiple(n, d, k);
    if n / d < k {
      MulMonotone(n / d + 1, k, d);
    }
  }

  lemma FiguresAgree(x: nat, figures: nat)
    requires figures <= 6
    ensures KeepsFigures(x, figures) <==> HasFigures(x, figures)
  {
    LimitIsPow(figures);
    if KeepsFigures(x, figures) {
      var d: nat :| PowerOfTen(d) && x % d == 0 && x / d < FirstWithMore(figures);
      var e := PowerIsPow(d);
      assert x == Scaled(x / d, e);
    }
    if HasFigures(x, figures) {
      var k: nat, e: nat :| k < Pow10(figures) && x == Scaled(k, e);
      PowIsPower(e);
      QuotientOfMultiple(k, Pow10(e));
    }
  }

  /** The printed length fixes the decade. */
  lemma DecadeAgrees(amount: real, d: nat)
    requires amount >= 1.0
    ensures StartsDecade(d, amount) <==> d == Decade(amount.Floor)
  {
    var n := amount.Floor;
    DigitsBound(n);
    PowIsPower(Digits(n) - 1);
    if StartsDecade(d, amount) {
      var e := PowerIsPow(d);
      DigitsUnique(n, e + 1);
    }
  }

  lemma NearestAgrees(x: int, y: real)
    ensures IsNearest(x, y) <==> x == Round(y)
  {
  }

  lemma StepsAreCandidates(ladder: seq<real>, amount: real, x: int) returns (i: nat)
    requires amount >= 1.0 && IsStep(ladder, amount, x)
    ensures i < |ladder| && x == Candidate(ladder[i], Decade(amount.Floor))
  {
    var d: nat, k :| 0 <= k < |ladder| && StartsDecade(d, amount) && IsNearest(x, ladder[k] * d as real);
    DecadeAgrees(amount, d);
    NearestAgrees(x, ladder[k] * d as real);
    i := k;
  }

  lemma CandidatesAreSteps(ladder: seq<real>, amount: real, i: nat)
    requires amount >= 1.0 && i < |ladder|
    ensures IsStep(ladder, amount, Candidate(ladder[i], Decade(amount.Floor)))
  {
    var d := Decade(amount.Floor);
    DecadeAgrees(amount, d);
    NearestAgrees(Candidate(ladder[i], d), ladder[i] * d as real);
  }

  lemma RoundDownIsBest(p: Policy, amount: real)
    requires ValidPolicy(p) && amount >= 1.0
    ensures var figure := RoundDown(p, amount.Floor);
            && 1 <= figure && figure as real <= amount && CanShow(p, amount, figure)
            && forall x: nat :: x as real <= amount && CanShow(p, amount, x) ==> x <= figure
  {
    var n := amount.Floor;
    var figure := RoundDown(p, n);
    RoundDownBounds(p, n);
    DigitsBound(n);
    if p.ladder.Some? {
      LadderIsBest(p.ladder.value, amount);
    } else {
      FiguresRounding(n, p.significantFigures);
      FiguresAgree(figure, p.significantFigures);
      forall x: nat | x as real <= amount && CanShow(p, amount, x)
        ensures x <= figure
      {
        FiguresAgree(x, p.significantFigures);
        var k: nat, e: nat :| k < Pow10(p.significantFigures) && x == Scaled(k, e);
        FiguresMaximal(n, p.significantFigures, k, e);
      }
    }
  }

  lemma LadderIsBest(ladder: seq<real>, amount: real)
    requires ValidLadder(ladder) && amount >= 1.0
    ensures var step := LadderStep(ladder, |ladder|, amount.Floor);
            && IsStep(ladder, amount, step)
            && forall x: nat :: x as real <= amount && IsStep(ladder, amount, x) ==> x <= step
  {
    var step := LadderStep(ladder, |ladder|, amount.Floor);
    LadderStepIsGreatest(ladder, |ladder|, amount.Floor);
    var i :| 0 <= i < |ladder| && step == Candidate(ladder[i], Decade(amount.Floor));
    CandidatesAreSteps(ladder, amount, i);
    forall x: nat | x as real <= amount && IsStep(ladder, amount, x)
      ensures x <= step
    {
      var k := StepsAreCandidates(ladder, amount, x);
    }
  }

  function Shown(p: Policy, amount: real): int {
    if amount < 1.0 || amount < p.minQuantity as real then 0 else RoundDown(p, amount.Floor)
  }

  function AfterHaircut(p: Policy, estimate: real): real {
    estimate * p.haircut
  }

  lemma QuantizedIsShown(p: Policy, estimate: real)
    requires 0.0 < p.haircut
    ensures Quantized(p, estimate) == Shown(p, AfterHaircut(p, estimate))
  {
    var amount := AfterHaircut(p, estimate);
    PositiveTogether(estimate, p.haircut);
    FloorBelow(amount, 1);
    FloorBelow(amount, p.minQuantity);
    assert Offered(p, estimate) == amount.Floor;
  }

  lemma FloorBelow(x: real, m: nat)
    ensures x.Floor < m <==> x < m as real
  {
  }

  lemma PositiveTogether(x: real, share: real)
    requires 0.0 < share
    ensures x <= 0.0 ==> x * share <= 0.0
  {
  }

  lemma ShownExactly(p: Policy, amount: real, figure: int)
    requires ValidPolicy(p)
    ensures Shown(p, amount) == figure <==> IsBest(p, amount, figure)
  {
    if amount >= 1.0 && amount >= p.minQuantity as real {
      RoundDownIsBest(p, amount);
    }
  }

  /** `figure` is the best one for what the haircut leaves of the estimate. */
  ghost predicate Discloses(p: Policy, estimate: real, figure: int) {
    IsBest(p, AfterHaircut(p, estimate), figure)
  }

  /** The disclosed figure is the best one, and there is only one: under every valid policy a number is what the
      code discloses for an estimate if and only if it is the best figure. */
  lemma DisclosedExactly(p: Policy, estimate: real, figure: int)
    requires ValidPolicy(p)
    ensures Quantized(p, estimate) == figure <==> Discloses(p, estimate, figure)
  {
    QuantizedIsShown(p, estimate);
    ShownExactly(p, AfterHaircut(p, estimate), figure);
  }
}
