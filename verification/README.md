# Treynor ratio calculator, verified model

This project models `calculate_treynor_ratio`, the whole computational core of
a small Python calculator for the Treynor relation

    Treynor Ratio = (Return - Risk-Free Rate) / Beta

The function takes four optional numbers: portfolio return, beta, risk-free
rate and Treynor ratio, any of which may be `None`. It first counts the
`None` arguments and returns an error string when more than one is missing.
It then solves the first missing slot, in the order Treynor ratio, Return,
Beta, Risk-Free Rate, and returns a dictionary of all four values.

Files:

- `optional.dfy`: module `Optional`, with `Option<T>` standing for a value or Python's `None`.
- `lists.dfy`: module `Lists`, modelling Python's `list.count` as a front-to-back scan, plus its link to multiset multiplicity.
- `treynor.dfy`: module `Treynor`, holding the data model and the function itself.
  - `Inputs` holds the four optional arguments. `Inputs.AsList` is the list `inputs` built at `treynor_calculator.py:15`, and `Inputs.AbsentCount` is `inputs.count(None)` at line 16.
  - `Quantities` is the returned dictionary.
  - `Answer` is what a call produces: the dictionary, an error string, or a raised `ZeroDivisionError`.
  - `Calculate` follows the source branch by branch, including the four inner "Insufficient data" returns.
- `treynor_laws.dfy`: module `TreynorLaws`, holding the uniqueness, round-trip and dead-code lemmas.

Python floats are modelled as exact `real` numbers. The function applies no
rounding, so every algebraic law below holds exactly in the model.

Independent reference definitions used in the contracts:

- `AtMostOneAbsent` states "no two arguments both missing" pairwise. It does not use counting.
- `Consistent(q)` is the Treynor relation multiplied out: `Treynor * Beta == Return - RiskFree`.
- `Agrees(inp, q)` holds when every supplied argument reappears unchanged in `q`.
- `DivisorVanishes(inp)` holds when the slot to be solved needs a division by a supplied zero.

## Behaviour worth noting

- **All four arguments supplied.** The `if`/`elif` chain at `treynor_calculator.py:20-45` starts with `treynor_ratio is None`, so when all four are supplied no branch fires. The four values come back unchanged and are never checked against the relation (`AllPresentReturnedAsGiven`).
- **Division by zero.** The divisions at lines 22 and 36 have no guard, so a zero beta (Treynor ratio missing) or a zero Treynor ratio (beta missing) makes Python raise `ZeroDivisionError`. The model gives this its own outcome, `RaisesZeroDivision`, not an error string.

## Model

| member | source | states |
|---|---|---|
| Lists.Count | treynor_calculator.py:16 | Python's generic `list.count` scan: the count is at most the list length, is zero exactly when the item is absent from the list, and equals the length exactly when every element is that item |
| Lists.CountIsMultiplicity | treynor_calculator.py:16 | the counting scan equals the multiplicity of the item in the list's multiset (proved by induction) |
| Treynor.Inputs.AbsentCount | treynor_calculator.py:15-16 | `inputs.count(None)` over the list of the four arguments equals the number of slots left as `None` (the sum of per-slot indicators) |
| Treynor.AbsentCountBySlot | treynor_calculator.py:15-17 | the count of `None` arguments is at most one exactly when no two slots are both missing, and zero exactly when all four are supplied |
| Treynor.Calculate | treynor_calculator.py:1-53 | (1) the "at least three values" error is returned exactly when two or more arguments are missing; (2) no other error string is ever returned; (3) `ZeroDivisionError` is raised exactly when at most one slot is missing and the solved slot's divisor is a supplied zero; (4) every supplied argument comes back unchanged; (5) when a slot was solved, the four results satisfy the Treynor relation |
| TreynorLaws.ConsistentAsRatio | treynor_calculator.py:22 | for non-zero beta, the multiplied-out relation is equivalent to the quotient form `Treynor = (Return - RiskFree) / Beta` |
| TreynorLaws.SolvedIffCompletion | treynor_calculator.py:19-45 | with exactly one slot missing and a non-zero divisor, the result is `q` if and only if `q` keeps the three supplied values and satisfies the Treynor relation, so the solution exists and is unique |
| TreynorLaws.ForgetThenSolve | treynor_calculator.py:19-53 | round trip: drop any one slot of a consistent quantity set and the calculator returns the original set, unless that slot's divisor is zero |
| TreynorLaws.AllPresentReturnedAsGiven | treynor_calculator.py:20-53 | with all four supplied, the dictionary holds exactly the four arguments; the Treynor ratio is not recomputed |
| TreynorLaws.TooFewIffTwoMissing | treynor_calculator.py:15-17 | the result is an error string if and only if more than one argument is `None`, and that string is always the "at least three values" message |
| TreynorLaws.InsufficientDataUnreachable | treynor_calculator.py:16-45 | none of the four "Insufficient data to calculate …" strings is ever returned |
| TreynorLaws.SolveTreynor | treynor_calculator.py:20-22 | Treynor ratio missing and beta non-zero: the result keeps return, beta and risk-free rate, and its ratio equals `(Return - RiskFree) / Beta` of those values |
| TreynorLaws.ZeroBetaRaises | treynor_calculator.py:20-22 | Treynor ratio missing and beta zero: `ZeroDivisionError` is raised |
| TreynorLaws.RoundTripReturn | treynor_calculator.py:27-29 | Return missing and beta non-zero: the other three are kept, and `(Return - RiskFree) / Beta` of the result reproduces the given ratio |
| TreynorLaws.RoundTripRiskFree | treynor_calculator.py:41-43 | Risk-free rate missing and beta non-zero: the other three are kept, and `(Return - RiskFree) / Beta` of the result reproduces the given ratio |
| TreynorLaws.RoundTripBeta | treynor_calculator.py:34-36 | Beta missing, ratio non-zero and return different from the risk-free rate: the other three are kept, the solved beta is non-zero, and `(Return - RiskFree) / Beta` reproduces the given ratio |
| TreynorLaws.ZeroTreynorRaises | treynor_calculator.py:34-36 | Beta missing and Treynor ratio zero: `ZeroDivisionError` is raised |

## Left out

- The console block (`treynor_calculator.py:56-74`) is interactive `input`/`print` I/O, and it relies on Python's `float()` string parsing. It is not modelled. Its only contribution to the core is that the text `none`, in any letter case, becomes `None`.
- The `ValueError` handler of the console block is not modelled, for the same reason.
- IEEE-754 behaviour is replaced by exact real arithmetic: rounding, infinities, NaN, and the sign of zero. A zero divisor in the model covers both `0.0` and `-0.0`.
- Python's exception machinery is reduced to the single outcome `RaisesZeroDivision`.
- Arguments of non-numeric types, which dynamic typing would allow, are not modelled. Every supplied argument is a real number.
