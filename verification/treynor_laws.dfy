/** Laws of the Treynor calculator: the solved value is the unique completion
    of the supplied three, forgetting a slot and solving gives it back, and
    the per-branch round trips through `Treynor = (Return - RiskFree) / Beta`. */
module TreynorLaws {
  import opened Optional
  import opened Treynor

  /** The four slots, in the dictionary's key order. */
  datatype Slot = ReturnSlot | BetaSlot | RiskFreeSlot | TreynorSlot

  /** The arguments that supply every quantity of `q` except slot `s`. */
  function Forget(q: Quantities, s: Slot): (inp: Inputs)
    ensures ExactlyOneAbsent(inp)
    ensures Agrees(inp, q)
  {
    Inputs(
      if s == ReturnSlot then None else Some(q.ret),
      if s == BetaSlot then None else Some(q.beta),
      if s == RiskFreeSlot then None else Some(q.riskFree),
      if s == TreynorSlot then None else Some(q.treynor))
  }

  /** The Treynor relation in its quotient form, wherever beta is non-zero. */
  lemma ConsistentAsRatio(q: Quantities)
    requires q.beta != 0.0
    ensures Consistent(q) <==> q.treynor == (q.ret - q.riskFree) / q.beta
  {
  }

  /** With one slot missing and a non-zero divisor, the calculator returns
      `q` exactly when `q` keeps the supplied three and satisfies the Treynor
      relation: the solution exists and is unique. */
  lemma SolvedIffCompletion(inp: Inputs, q: Quantities)
    requires ExactlyOneAbsent(inp)
    requires !DivisorVanishes(inp)
    ensures Calculate(inp) == Solved(q) <==> Agrees(inp, q) && Consistent(q)
  {
  }

  /** Round trip: drop any slot of a consistent set of quantities and the
      calculator restores it, unless that slot's divisor is zero. */
  lemma ForgetThenSolve(q: Quantities, s: Slot)
    requires Consistent(q)
    requires s == TreynorSlot ==> q.beta != 0.0
    requires s == BetaSlot ==> q.treynor != 0.0
    ensures Calculate(Forget(q, s)) == Solved(q)
  {
  }

  /** All four supplied: the arguments come back as given, even when they
      break the Treynor relation; the ratio is not recomputed. */
  lemma AllPresentReturnedAsGiven(inp: Inputs)
    requires inp.AllPresent()
    ensures Calculate(inp)
            == Solved(Quantities(inp.ret.value, inp.beta.value, inp.riskFree.value, inp.treynor.value))
  {
  }

  /** Two or more missing arguments give the "at least three values" error,
      and nothing else produces an error string. */
  lemma TooFewIffTwoMissing(inp: Inputs)
    ensures Calculate(inp).Error? <==> inp.AbsentCount() > 1
    ensures Calculate(inp).Error? ==> Calculate(inp).text == TooFewValues
  {
  }

  /** The "Insufficient data" strings are never returned. */
  lemma InsufficientDataUnreachable(inp: Inputs)
    ensures Calculate(inp) != Error(NoDataForTreynor)
    ensures Calculate(inp) != Error(NoDataForReturn)
    ensures Calculate(inp) != Error(NoDataForBeta)
    ensures Calculate(inp) != Error(NoDataForRiskFree)
  {
  }

  /** Treynor ratio missing, beta non-zero: the returned ratio is
      `(Return - RiskFree) / Beta` of the returned quantities, and the other
      three are the arguments. */
  lemma SolveTreynor(ret: real, beta: real, rf: real)
    requires beta != 0.0
    ensures var r := Calculate(Inputs(Some(ret), Some(beta), Some(rf), None));
            && r.Solved?
            && r.q.ret == ret && r.q.beta == beta && r.q.riskFree == rf
            && r.q.treynor == (r.q.ret - r.q.riskFree) / r.q.beta
  {
  }

  /** Treynor ratio missing and beta zero: `ZeroDivisionError` is raised. */
  lemma ZeroBetaRaises(ret: real, rf: real)
    ensures Calculate(Inputs(Some(ret), Some(0.0), Some(rf), None)) == RaisesZeroDivision
  {
  }

  /** Return missing: the solved return reproduces the given Treynor ratio,
      provided beta is non-zero. */
  lemma RoundTripReturn(beta: real, rf: real, tr: real)
    requires beta != 0.0
    ensures var r := Calculate(Inputs(None, Some(beta), Some(rf), Some(tr)));
            && r.Solved?
            && r.q.beta == beta && r.q.riskFree == rf && r.q.treynor == tr
            && (r.q.ret - r.q.riskFree) / r.q.beta == tr
  {
  }

  /** Risk-free rate missing: the solved rate reproduces the given Treynor
      ratio, provided beta is non-zero. */
  lemma RoundTripRiskFree(ret: real, beta: real, tr: real)
    requires beta != 0.0
    ensures var r := Calculate(Inputs(Some(ret), Some(beta), None, Some(tr)));
            && r.Solved?
            && r.q.ret == ret && r.q.beta == beta && r.q.treynor == tr
            && (r.q.ret - r.q.riskFree) / r.q.beta == tr
  {
  }

  /** Beta missing: the solved beta reproduces the given Treynor ratio,
      provided the ratio is non-zero and return differs from the risk-free
      rate (otherwise the solved beta is zero). */
  lemma RoundTripBeta(ret: real, rf: real, tr: real)
    requires tr != 0.0
    requires ret != rf
    ensures var r := Calculate(Inputs(Some(ret), None, Some(rf), Some(tr)));
            && r.Solved?
            && r.q.ret == ret && r.q.riskFree == rf && r.q.treynor == tr
            && r.q.beta != 0.0
            && (r.q.ret - r.q.riskFree) / r.q.beta == tr
  {
  }

  /** Beta missing and a zero Treynor ratio: `ZeroDivisionError` is raised. */
  lemma ZeroTreynorRaises(ret: real, rf: real)
    ensures Calculate(Inputs(Some(ret), None, Some(rf), Some(0.0))) == RaisesZeroDivision
  {
  }
}
