/** The one list operation the calculator relies on: Python's `list.count`. */
module Lists {

  /** `Count(xs, x)` is `xs.count(x)`: the number of positions of `xs` holding
      an element equal to `x`, found by a scan from the front. */
  function Count<T(==)>(xs: seq<T>, x: T): (n: nat)
    ensures n <= |xs|
    ensures n == 0 <==> x !in xs
    ensures n == |xs| <==> forall i :: 0 <= i < |xs| ==> xs[i] == x
  {
    if |xs| == 0 then
      0
    else
      (if xs[0] == x then 1 else 0) + Count(xs[1..], x)
  }

  /** The scan agrees with the multiplicity of `x` in the multiset of `xs`. */
  lemma {:induction false} CountIsMultiplicity<T>(xs: seq<T>, x: T)
    ensures Count(xs, x) == multiset(xs)[x]
  {
    if |xs| > 0 {
      CountIsMultiplicity(xs[1..], x);
      assert xs == [xs[0]] + xs[1..];
    }
  }

  /** Counting over a list with a known head. */
  lemma CountCons<T>(h: T, xs: seq<T>, x: T)
    ensures Count([h] + xs, x) == (if h == x then 1 else 0) + Count(xs, x)
  {
  }
}
