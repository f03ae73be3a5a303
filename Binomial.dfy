/** The binomial coefficients C(i, j), defined by Pascal's rule, with the facts
    about them that the triangle builder relies on. */
module Binomial {

  /** C(i, j): the number of ways to choose j items out of i, defined by
      Pascal's rule. It is 0 for j > i. */
  function Binom(i: nat, j: nat): (r: nat)
  {
    if j == 0 then 1
    else if i == 0 then 0
    else Binom(i - 1, j - 1) + Binom(i - 1, j)
  }

  /** i!, the independent reference definition of C(i, j). */
  function Fact(i: nat): (r: nat)
    ensures r >= 1
  {
    if i == 0 then 1 else i * Fact(i - 1)
  }

  /** No coefficient lies to the right of the diagonal. */
  lemma {:induction false} BinomAboveDiagonal(i: nat, j: nat)
    requires j > i
    ensures Binom(i, j) == 0
  {
    if i > 0 {
      BinomAboveDiagonal(i - 1, j - 1);
      BinomAboveDiagonal(i - 1, j);
    }
  }

  /** Both ends of every row are 1. */
  lemma {:induction false} BinomEnds(i: nat)
    ensures Binom(i, 0) == 1
    ensures Binom(i, i) == 1
  {
    if i > 0 {
      BinomEnds(i - 1);
      BinomAboveDiagonal(i - 1, i);
    }
  }

  /** Every coefficient inside the triangle is positive. */
  lemma {:induction false} BinomPositive(i: nat, j: nat)
    requires j <= i
    ensures Binom(i, j) >= 1
  {
    if j > 0 && j < i {
      BinomPositive(i - 1, j - 1);
    } else if j == i {
      BinomEnds(i);
    }
  }

  /** The closed form C(i, j) * j! * (i - j)! == i!, so Binom is the binomial
      coefficient i! / (j! (i - j)!). */
  lemma {:induction false} BinomFactorial(i: nat, j: nat)
    requires j <= i
    ensures Binom(i, j) * Fact(j) * Fact(i - j) == Fact(i)
  {
    if j == i {
      BinomEnds(i);
    } else if j > 0 {
      BinomFactorial(i - 1, j - 1);
      BinomFactorial(i - 1, j);
      assert i - 1 - (j - 1) == i - j;
      assert Fact(i - j) == (i - j) * Fact(i - j - 1);
      SumOfProducts(Binom(i - 1, j - 1), Binom(i - 1, j), j, i - j,
                    Fact(j - 1), Fact(i - j - 1), Fact(i - 1));
    }
  }

  /** The arithmetic step of BinomFactorial: if a * x * (k * y) == f and
      b * (j * x) * y == f then (a + b) * (j * x) * (k * y) == (j + k) * f. */
  lemma SumOfProducts(a: int, b: int, j: int, k: int, x: int, y: int, f: int)
    requires a * x * (k * y) == f
    requires b * (j * x) * y == f
    ensures (a + b) * (j * x) * (k * y) == (j + k) * f
  {
  }
}
