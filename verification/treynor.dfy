/** The Treynor calculator: given any three of portfolio return, portfolio
    beta, risk-free rate and Treynor ratio, it solves
    `Treynor = (Return - RiskFree) / Beta` for the fourth. Python floats are
    modelled as exact reals. */
module Treynor {
  import opened Optional
  import Lists

  /** The four optional arguments, in the order `calculate_treynor_ratio`
      takes them. */
  datatype Inputs = Inputs(
    ret: Option<real>,
    beta: Option<real>,
    riskFree: Option<real>,
    treynor: Option<real>)
  {
    /** The list `[return_, beta, risk_free_rate, treynor_ratio]` the Python
        function builds before checking it. */
    function AsList(): seq<Option<real>> {
      [ret, beta, riskFree, treynor]
    }

    /** `inputs.count(None)`: how many arguments were left as `None`, found
        by scanning the argument list; it is the sum of the per-slot
        indicators. */
    function AbsentCount(): (n: nat)
      ensures n == Missing(ret) + Missing(beta) + Missing(riskFree) + Missing(treynor)
    {
      Lists.CountCons(ret, [beta, riskFree, treynor], None);
      Lists.CountCons(beta, [riskFree, treynor], None);
      Lists.CountCons(riskFree, [treynor], None);
      Lists.CountCons(treynor, [], None);
      assert AsList() == [ret] + [beta, riskFree, treynor];
      Lists.Count(AsList(), None)
    }

    predicate AllPresent() {
      ret.Some? && beta.Some? && riskFree.Some? && treynor.Some?
    }
  }

  /** A fully resolved set of the four quantities (the returned dictionary,
      keyed "Return", "Beta", "Risk-Free Rate" and "Treynor Ratio"). */
  datatype Quantities = Quantities(ret: real, beta: real, riskFree: real, treynor: real)

  /** What a call produces: the dictionary, one of the error strings the
      function returns, or a raised `ZeroDivisionError`. */
  datatype Answer = Solved(q: Quantities) | Error(text: string) | RaisesZeroDivision

  const TooFewValues: string := "Error: Provide at least three values to calculate the missing one."
  const NoDataForTreynor: string := "Error: Insufficient data to calculate Treynor Ratio."
  const NoDataForReturn: string := "Error: Insufficient data to calculate Return."
  const NoDataForBeta: string := "Error: Insufficient data to calculate Beta."
  const NoDataForRiskFree: string := "Error: Insufficient data to calculate Risk-Free Rate."

  /** No two arguments are both absent; stated pairwise, independently of
      the counting the calculator does. */
  predicate AtMostOneAbsent(inp: Inputs) {
    && !(inp.ret.None? && inp.beta.None?)
    && !(inp.ret.None? && inp.riskFree.None?)
    && !(inp.ret.None? && inp.treynor.None?)
    && !(inp.beta.None? && inp.riskFree.None?)
    && !(inp.beta.None? && inp.treynor.None?)
    && !(inp.riskFree.None? && inp.treynor.None?)
  }

  /** Exactly one argument is left for the calculator to solve. */
  predicate ExactlyOneAbsent(inp: Inputs) {
    AtMostOneAbsent(inp) && !inp.AllPresent()
  }

  /** The Treynor relation, in the multiplied-out form that stays meaningful
      when beta is zero: `Treynor * Beta == Return - RiskFree`. */
  predicate Consistent(q: Quantities) {
    q.treynor * q.beta == q.ret - q.riskFree
  }

  /** Every argument that was supplied reappears unchanged in `q`. */
  predicate Agrees(inp: Inputs, q: Quantities) {
    && Admits(inp.ret, q.ret)
    && Admits(inp.beta, q.beta)
    && Admits(inp.riskFree, q.riskFree)
    && Admits(inp.treynor, q.treynor)
  }

  /** The slot to be solved needs a division by a supplied zero: the Treynor
      ratio is missing and beta is zero, or beta is missing and the Treynor
      ratio is zero. */
  predicate DivisorVanishes(inp: Inputs) {
    || (inp.treynor.None? && inp.beta == Some(0.0))
    || (inp.beta.None? && inp.treynor == Some(0.0))
  }

  /** `calculate_treynor_ratio`: reject more than one missing argument, then
      solve the first missing slot in the order Treynor ratio, return, beta,
      risk-free rate, and return all four. */
  function Calculate(inp: Inputs): (r: Answer)
    // the count check is exactly "two or more arguments missing"
    ensures r == Error(TooFewValues) <==> !AtMostOneAbsent(inp)
    // the four "Insufficient data" returns are dead code
    ensures r.Error? ==> r.text == TooFewValues
    // a ZeroDivisionError escapes exactly when the solved slot's divisor is zero
    ensures r == RaisesZeroDivision <==> AtMostOneAbsent(inp) && DivisorVanishes(inp)
    // supplied values come back as given; with all four supplied nothing is recomputed
    ensures r.Solved? ==> Agrees(inp, r.q)
    // a solved slot satisfies the Treynor relation with the other three
    ensures r.Solved? && !inp.AllPresent() ==> Consistent(r.q)
  {
    AbsentCountBySlot(inp);
    if inp.AbsentCount() > 1 then
      Error(TooFewValues)
    else if inp.treynor.None? then
      if inp.ret.Some? && inp.beta.Some? && inp.riskFree.Some? then
        var (ret, beta, rf) := (inp.ret.value, inp.beta.value, inp.riskFree.value);
        if beta == 0.0 then RaisesZeroDivision
        else Solved(Quantities(ret, beta, rf, (ret - rf) / beta))
      else
        Error(NoDataForTreynor)
    else if inp.ret.None? then
      if inp.treynor.Some? && inp.beta.Some? && inp.riskFree.Some? then
        var (tr, beta, rf) := (inp.treynor.value, inp.beta.value, inp.riskFree.value);
        Solved(Quantities(tr * beta + rf, beta, rf, tr))
      else
        Error(NoDataForReturn)
    else if inp.beta.None? then
      if inp.treynor.Some? && inp.ret.Some? && inp.riskFree.Some? then
        var (tr, ret, rf) := (inp.treynor.value, inp.ret.value, inp.riskFree.value);
        if tr == 0.0 then RaisesZeroDivision
        else Solved(Quantities(ret, (ret - rf) / tr, rf, tr))
      else
        Error(NoDataForBeta)
    else if inp.riskFree.None? then
      if inp.treynor.Some? && inp.beta.Some? && inp.ret.Some? then
        var (tr, beta, ret) := (inp.treynor.value, inp.beta.value, inp.ret.value);
        Solved(Quantities(ret, beta, ret - tr * beta, tr))
      else
        Error(NoDataForRiskFree)
    else
      Solved(Quantities(inp.ret.value, inp.beta.value, inp.riskFree.value, inp.treynor.value))
  }

  /** 1 for a missing argument, 0 for a supplied one. */
  function Missing(o: Option<real>): nat {
    if o.None? then 1 else 0
  }

  /** The Python function's count of `None` arguments exceeds one exactly
      when two slots are both missing, and is zero exactly when all four are
      supplied. */
  lemma AbsentCountBySlot(inp: Inputs)
    ensures inp.AbsentCount() <= 1 <==> AtMostOneAbsent(inp)
    ensures inp.AbsentCount() == 0 <==> inp.AllPresent()
  {
  }
}
