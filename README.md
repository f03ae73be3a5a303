# Pascal's triangle coefficient builder

This project models `calcular_coeficientes(n)` from `Pascal.py`. The function builds the first rows of Pascal's triangle as a list of lists of integers. It starts from `[[1]]`. For each `i` from 1 to `n - 1` it takes the last row built so far. It makes a new row from a 1, the sums of neighbouring entries of that last row, and a closing 1, and appends that row to the list.

The model has two modules:

- `Binomial` (`Binomial.dfy`) is the specification. It defines the binomial coefficient `Binom(i, j)` by Pascal's rule and the factorial `Fact`. It proves the facts the builder relies on: entries beyond the diagonal are 0, both ends of a row are 1, interior entries are positive, and `C(i, j) * j! * (i - j)! == i!`.
- `Pascal` (`Pascal.dfy`) has the builder itself. `Coefficients` is an imperative method with the source's two nested loops. It grows a `seq<seq<int>>` by appending rows, and the row under construction by appending entries. It is proved to return `Triangle(n)`, the table of binomial coefficients with `RowCount(n)` rows. The module also has the structural predicate `IsPascalTriangle`: the triangle starts with `[1]`, row `i` has `i + 1` entries, every row starts and ends with 1, and Pascal's rule holds. Two lemmas show that this predicate holds of exactly the tables of binomial coefficients.

Python integers are unbounded, so entries are modelled as Dafny's `int`, with no overflow. The argument `n` is any integer. For `n <= 1` the outer loop does not run, and the result is `[[1]]`, not an empty list.

## Model

| member | source | states |
|---|---|---|
| `Binomial.BinomAboveDiagonal` | Pascal.py:11-13 | C(i, j) is 0 for j > i, so Pascal's rule gives 1 at the right end of each row |
| `Binomial.BinomEnds` | Pascal.py:10-13 | C(i, 0) and C(i, i) are both 1, the values the builder puts at the ends of every row |
| `Binomial.BinomPositive` | Pascal.py:10-13 | every coefficient C(i, j) with j <= i is at least 1 |
| `Binomial.BinomFactorial` | Pascal.py:6-15 | the recursive coefficient satisfies C(i, j) * j! * (i - j)! == i!, i.e. it is the binomial coefficient i! / (j! (i - j)!) |
| `Pascal.BinomRow` | Pascal.py:10-13 | row i of coefficients has i + 1 entries and starts and ends with 1 |
| `Pascal.RowCount` | Pascal.py:7-8 | the builder returns at least one row: exactly n rows when n >= 1, and exactly one when n <= 1 |
| `Pascal.SingleRow` | Pascal.py:7-8 | for n <= 1 the result is exactly [[1]], not an empty triangle |
| `Pascal.Triangle` | Pascal.py:7-15 | the result has RowCount(n) rows, its first row is exactly [1], and row i has i + 1 entries with 1 at both ends |
| `Pascal.NextRow` | Pascal.py:9-13 | the row one outer pass builds from the previous row has one more entry, starts and ends with 1, and its entry k is previous[k-1] + previous[k] for 0 < k < length of the previous row |
| `Pascal.NextRowUnique` | Pascal.py:10-13 | a row with one more entry than the previous row, 1 at both ends and the neighbouring sums inside is exactly NextRow of the previous row, so what the inner loop assembles is that row |
| `Pascal.NextRowOfBinom` | Pascal.py:9-13 | the row the inner loop derives from row i of coefficients is row i + 1 of coefficients |
| `Pascal.TriangleStep` | Pascal.py:8-14 | one pass of the outer loop appends the row derived from the last row and leaves every earlier row unchanged |
| `Pascal.TrianglePrefix` | Pascal.py:8-14 | the triangle for fewer rows is a prefix of the triangle for more rows |
| `Pascal.TriangleIsPascal` | Pascal.py:7-14 | every built triangle starts with [1], has rows of length i + 1 that start and end with 1, and obeys row[i][j] == row[i-1][j-1] + row[i-1][j] for 0 < j < i |
| `Pascal.PascalIsTriangle` | Pascal.py:7-14 | conversely, any list of rows with that shape that obeys Pascal's rule is the triangle of binomial coefficients with that many rows |
| `Pascal.RowIsBinom` | Pascal.py:10-13 | in any list of rows obeying Pascal's rule, row i is C(i, 0), ..., C(i, i) |
| `Pascal.TrianglePositive` | Pascal.py:7-14 | every entry of the built triangle is positive |
| `Pascal.TriangleIsBinomial` | Pascal.py:7-14 | every entry [i][j] of the built triangle satisfies entry * j! * (i - j)! == i! |
| `Pascal.SixRows` | Pascal.py:24 | six rows give [1], [1,1], [1,2,1], [1,3,3,1], [1,4,6,4,1], [1,5,10,10,5,1] |
| `Pascal.Coefficients` | Pascal.py:6-15 | the nested loops return exactly Triangle(n), which is a Pascal triangle in the sense of IsPascalTriangle |

## Left out

- `imprimir_piramide_pascal` (Pascal.py:17-22) is not modelled. It only writes text to the console, and its layout depends on Python's `str`, `' '.join` and `str.center`.
- The script call at Pascal.py:24 is console output. It is kept only as the concrete case `SixRows`.
- The Euclidean GCD script (`MCD con euclides.py`) is a separate program and is not part of this model.
- The Python list is modelled as an immutable `seq` that is reassigned on every append. Aliasing of the list objects plays no part in the source, and the model does not capture it.
