/** Pascal's triangle as the list of its first rows, built row by row the way
    calcular_coeficientes does, and proved equal to the table of binomial
    coefficients. */
module Pascal {
  import opened Binomial

  /** Row i of the triangle: C(i, 0), C(i, 1), ..., C(i, i). */
  function BinomRow(i: nat): (r: seq<int>)
    ensures |r| == i + 1
    ensures r[0] == 1 && r[i] == 1
  {
    BinomEnds(i);
    seq(i + 1, j requires 0 <= j <= i => Binom(i, j))
  }

  /** How many rows the builder returns for the argument n: the first row is
      always there, so anything below 2 gives one row. */
  function RowCount(n: int): (c: nat)
    ensures c >= 1
    ensures n >= 1 ==> c == n
    ensures n <= 1 ==> c == 1
  {
    if n <= 1 then 1 else n
  }

  /** The triangle the builder returns for n: rows 0 to RowCount(n) - 1. */
  function Triangle(n: int): (t: seq<seq<int>>)
    ensures |t| == RowCount(n)
    ensures t[0] == [1]
    ensures forall i :: 0 <= i < |t| ==> |t[i]| == i + 1 && t[i][0] == 1 && t[i][i] == 1
  {
    seq(RowCount(n), i requires 0 <= i => BinomRow(i))
  }

  /** The row that one pass of the builder's outer loop derives from the row
      before it: a 1, the sums of neighbouring entries, and a closing 1. */
  function NextRow(prev: seq<int>): (r: seq<int>)
    requires |prev| >= 1
    ensures |r| == |prev| + 1 && r[0] == 1 && r[|prev|] == 1
    ensures forall k :: 0 < k < |prev| ==> r[k] == prev[k - 1] + prev[k]
  {
    [1] + seq(|prev| - 1, k requires 0 <= k < |prev| - 1 => prev[k] + prev[k + 1]) + [1]
  }

  /** The contract of NextRow fixes the row: a row of the right length with
      1 at both ends and the neighbouring sums inside is NextRow(prev). */
  lemma NextRowUnique(prev: seq<int>, row: seq<int>)
    requires |prev| >= 1 && |row| == |prev| + 1
    requires row[0] == 1 && row[|prev|] == 1
    requires forall k :: 0 < k < |prev| ==> row[k] == prev[k - 1] + prev[k]
    ensures row == NextRow(prev)
  {
  }

  /** The shape and rules that make a list of rows a Pascal triangle: it starts
      with [1], row i has i + 1 entries, each row starts and ends with 1, and
      every interior entry is the sum of the two entries above it. */
  ghost predicate IsPascalTriangle(t: seq<seq<int>>)
  {
    |t| >= 1 && t[0] == [1] &&
    (forall i :: 0 <= i < |t| ==> |t[i]| == i + 1 && t[i][0] == 1 && t[i][i] == 1) &&
    (forall i :: 0 < i < |t| ==> forall j :: 0 < j < i ==> t[i][j] == t[i - 1][j - 1] + t[i - 1][j])
  }

  /** Pascal's rule turns row i of binomial coefficients into row i + 1. */
  lemma NextRowOfBinom(i: nat)
    ensures NextRow(BinomRow(i)) == BinomRow(i + 1)
  {
  }

  /** One pass of the outer loop appends the next row and keeps every earlier
      row as it was. */
  lemma TriangleStep(n: nat)
    requires n >= 1
    ensures Triangle(n + 1) == Triangle(n) + [NextRow(Triangle(n)[n - 1])]
  {
    NextRowOfBinom(n - 1);
    assert Triangle(n + 1)[n] == BinomRow(n);
  }

  /** For n <= 1 the outer loop never runs: the result is the single row [1],
      not an empty triangle. */
  lemma SingleRow(n: int)
    requires n <= 1
    ensures Triangle(n) == [[1]]
  {
  }

  /** Building fewer rows gives a prefix of building more rows. */
  lemma TrianglePrefix(m: int, n: int)
    requires m <= n
    ensures Triangle(m) == Triangle(n)[..RowCount(m)]
  {
  }

  /** Every triangle the builder returns is a Pascal triangle. */
  lemma TriangleIsPascal(n: int)
    ensures IsPascalTriangle(Triangle(n))
  {
  }

  /** Conversely, Pascal's rules fix the triangle: any list of rows that obeys
      them is the triangle of binomial coefficients with that many rows. */
  lemma {:induction false} PascalIsTriangle(t: seq<seq<int>>)
    requires IsPascalTriangle(t)
    ensures t == Triangle(|t|)
  {
    var b := Triangle(|t|);
    forall i | 0 <= i < |t|
      ensures t[i] == b[i]
    {
      RowIsBinom(t, i);
    }
  }

  /** Row i of a Pascal triangle is row i of binomial coefficients, by
      induction on i. */
  lemma {:induction false} RowIsBinom(t: seq<seq<int>>, i: nat)
    requires IsPascalTriangle(t)
    requires i < |t|
    ensures t[i] == BinomRow(i)
  {
    if i > 0 {
      RowIsBinom(t, i - 1);
      forall j | 0 <= j <= i
        ensures t[i][j] == Binom(i, j)
      {
        if j == i {
          BinomEnds(i);
        } else if j > 0 {
          assert t[i][j] == t[i - 1][j - 1] + t[i - 1][j];
        }
      }
    }
  }

  /** Every entry of the triangle is positive. */
  lemma TrianglePositive(n: int)
    ensures forall i, j :: 0 <= i < |Triangle(n)| && 0 <= j <= i ==> Triangle(n)[i][j] >= 1
  {
    var t := Triangle(n);
    forall i, j | 0 <= i < |t| && 0 <= j <= i
      ensures t[i][j] >= 1
    {
      BinomPositive(i, j);
    }
  }

  /** Every entry is the binomial coefficient i! / (j! (i - j)!). */
  lemma TriangleIsBinomial(n: int)
    ensures forall i, j :: 0 <= i < |Triangle(n)| && 0 <= j <= i ==>
      Triangle(n)[i][j] * Fact(j) * Fact(i - j) == Fact(i)
  {
    var t := Triangle(n);
    forall i, j | 0 <= i < |t| && 0 <= j <= i
      ensures t[i][j] * Fact(j) * Fact(i - j) == Fact(i)
    {
      BinomFactorial(i, j);
    }
  }

  /** Six rows give the triangle up to 1 5 10 10 5 1. */
  lemma SixRows()
    ensures Triangle(6) == [[1], [1, 1], [1, 2, 1], [1, 3, 3, 1], [1, 4, 6, 4, 1], [1, 5, 10, 10, 5, 1]]
  {
    var t := Triangle(6);
    assert BinomRow(1) == [1, 1];
    assert BinomRow(2) == [1, 2, 1];
    assert BinomRow(3) == [1, 3, 3, 1];
    assert BinomRow(4) == [1, 4, 6, 4, 1];
    assert BinomRow(5) == [1, 5, 10, 10, 5, 1];
    assert t == [t[0], t[1], t[2], t[3], t[4], t[5]];
  }

  /** calcular_coeficientes: start from [[1]]; for i from 1 to n - 1 take the
      last row, build a new row from a 1, the sums of its neighbouring entries
      and a closing 1, and append it. */
  method Coefficients(n: int) returns (coef: seq<seq<int>>)
    ensures coef == Triangle(n)
    ensures IsPascalTriangle(coef)
  {
    coef := [[1]];
    var i := 1;
    while i < n
      invariant 1 <= i <= RowCount(n)
      invariant coef == Triangle(i)
    {
      var prev := coef[|coef| - 1];
      assert |prev| == i;
      var row := [1];
      for j := 1 to i
        invariant |row| == j && row[0] == 1
        invariant forall k :: 0 < k < j ==> row[k] == prev[k - 1] + prev[k]
      {
        row := row + [prev[j - 1] + prev[j]];
      }
      row := row + [1];
      NextRowUnique(prev, row);
      TriangleStep(i);
      coef := coef + [row];
      i := i + 1;
    }
    TriangleIsPascal(n);
  }
}
