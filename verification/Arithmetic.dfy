/** Division and multiplication facts that are not linear. */
module Arithmetic {
  lemma MultipleIsFar(d: int, width: int)
    requires width > 0
    ensures d >= 1 ==> d * width >= width
    ensures d <= -1 ==> d * width <= -width
  {
  }

  /** A number is a multiple of the width and a remainder below it in one way only. */
  lemma SplitIsUnique(width: nat, x: nat, y: nat, column: nat, line: nat)
    requires x < width && column < width && line * width + column == y * width + x
    ensures line == y && column == x
  {
    assert (line - y) * width == x - column;
    MultipleIsFar(line - y, width);
  }

  lemma DivisionSplits(n: nat, d: nat)
    requires d > 0
    ensures n == n / d * d + n % d && 0 <= n % d < d
  {
  }

  lemma QuotientOf(q: nat, d: nat, m: nat)
    requires m < d
    ensures (q * d + m) / d == q
  {
    var n := q * d + m;
    DivisionSplits(n, d);
    SplitIsUnique(d, m, q, n % d, n / d);
  }

  lemma NotAbove(j: nat, n: nat, d: nat)
    requires n > 0 && j * n <= d * n + n - 1
    ensures j <= d
  {
    assert (j - d) * n <= n - 1;
    MultipleIsFar(j - d, n);
  }
}
