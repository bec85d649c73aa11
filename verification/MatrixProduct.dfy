/** The arithmetic of the matrix machine: the dot product of hw4/main.c and the
    transposed copy of b that hw4/tpool.c multiplies against. */
module MatrixProduct {

  /** A matrix of C ints, modelled with unbounded entries; see DotFitsInt for the width. */
  type Matrix = seq<seq<int>>

  predicate Square(m: Matrix, n: nat) {
    |m| == n && forall i :: 0 <= i < n ==> |m[i]| == n
  }

  /** The sum of the first k products of two vectors. */
  function Dot(a: seq<int>, b: seq<int>, k: nat): int
    requires k <= |a| && k <= |b|
  {
    if k == 0 then 0 else Dot(a, b, k - 1) + a[k - 1] * b[k - 1]
  }

  /** Row i of a against column j of b, summed directly: the definition of the product. */
  function ProductEntry(a: Matrix, b: Matrix, n: nat, i: nat, j: nat, k: nat): int
    requires Square(a, n) && Square(b, n) && i < n && j < n && k <= n
  {
    if k == 0 then 0 else ProductEntry(a, b, n, i, j, k - 1) + a[i][k - 1] * b[k - 1][j]
  }

  function Transpose(b: Matrix, n: nat): (t: Matrix)
    requires Square(b, n)
    ensures Square(t, n)
    ensures forall i, j :: 0 <= i < n && 0 <= j < n ==> t[i][j] == b[j][i]
  {
    seq(n, i requires 0 <= i < n => seq(n, j requires 0 <= j < n => b[j][i]))
  }

  lemma LessByFactor(n: nat, x: nat, y: nat)
    requires n * x < n * y
    ensures x < y
  {
    assert n * y - n * x == n * (y - x);
  }

  /** The index idx / n, idx % n of a flat cell stays inside the matrix. */
  lemma CellInMatrix(n: nat, idx: nat)
    requires idx < n * n
    ensures n > 0 && idx / n < n && 0 <= idx % n < n
  {
    assert n > 0;
    LessByFactor(n, idx / n, n);
  }

  /** Every cell has exactly one flat index below n * n. */
  lemma CellIndex(n: nat, i: nat, j: nat)
    requires i < n && j < n
    ensures var idx := i * n + j; 0 <= idx < n * n && idx / n == i && idx % n == j
  {
    var idx := i * n + j;
    assert i * n + n == (i + 1) * n <= n * n;
    var q := idx / n;
    assert idx == n * q + idx % n;
    LessByFactor(n, q, i + 1);
    LessByFactor(n, i, q + 1);
  }

  /** Multiplying a row of a by a row of the transposed copy gives the product entry. */
  lemma {:induction false} TransposedDot(a: Matrix, b: Matrix, n: nat, i: nat, j: nat, k: nat)
    requires Square(a, n) && Square(b, n) && i < n && j < n && k <= n
    ensures Dot(a[i], Transpose(b, n)[j], k) == ProductEntry(a, b, n, i, j, k)
  {
    if k > 0 {
      TransposedDot(a, b, n, i, j, k - 1);
    }
  }

  /** The value a backend stores in flat cell idx. */
  function CellValue(a: Matrix, bt: Matrix, n: nat, idx: nat): int
    requires Square(a, n) && Square(bt, n) && idx < n * n
  {
    CellInMatrix(n, idx);
    Dot(a[idx / n], bt[idx % n], n)
  }

  /** Entries between -100 and 100, which is what main accepts, keep every partial
      sum inside a C int for any n up to 200000. */
  lemma {:induction false} DotFitsInt(a: seq<int>, b: seq<int>, k: nat)
    requires k <= |a| && k <= |b| && k <= 200_000
    requires forall i :: 0 <= i < k ==> -100 <= a[i] <= 100 && -100 <= b[i] <= 100
    ensures -10_000 * k <= Dot(a, b, k) <= 10_000 * k
    ensures -0x8000_0000 <= Dot(a, b, k) < 0x8000_0000
  {
    if k > 0 {
      DotFitsInt(a, b, k - 1);
      var x, y := a[k - 1], b[k - 1];
      assert -10_000 <= x * y <= 10_000 by {
        BoundedProduct(x, y);
      }
    }
  }

  lemma BoundedProduct(x: int, y: int)
    requires -100 <= x <= 100 && -100 <= y <= 100
    ensures -10_000 <= x * y <= 10_000
  {
    if x >= 0 {
      TimesBounded(x, y, 100);
    } else {
      TimesBounded(-x, -y, 100);
      assert -x * -y == x * y;
    }
  }

  lemma {:induction false} TimesBounded(x: nat, y: int, b: int)
    requires -b <= y <= b
    ensures -(x * b) <= x * y <= x * b
  {
    if x > 0 {
      TimesBounded(x - 1, y, b);
      assert x * y == (x - 1) * y + y;
      assert x * b == (x - 1) * b + b;
    }
  }

  /** The rows held by a two-dimensional array. */
  ghost function Rows(m: array2<int>): (r: Matrix)
    reads m
    requires m.Length0 == m.Length1
    ensures Square(r, m.Length0)
    ensures forall i, j :: 0 <= i < m.Length0 && 0 <= j < m.Length1 ==> r[i][j] == m[i, j]
  {
    seq(m.Length0, i requires 0 <= i < m.Length0 reads m =>
      seq(m.Length1, j requires 0 <= j < m.Length1 reads m => m[i, j]))
  }

  /** The accumulating loop of main.c, over row `row` of a and row `col` of bt. */
  method Calculation(n: nat, a: array2<int>, row: nat, bt: array2<int>, col: nat) returns (res: int)
    requires a.Length0 == a.Length1 == n && bt.Length0 == bt.Length1 == n
    requires row < n && col < n
    ensures res == Dot(Rows(a)[row], Rows(bt)[col], n)
  {
    res := 0;
    for i := 0 to n
      invariant res == Dot(Rows(a)[row], Rows(bt)[col], i)
    {
      res := res + a[row, i] * bt[col, i];
    }
  }

  /** The frontend's nested loop that fills a fresh bt from b. */
  method FillTransposed(n: nat, b: array2<int>) returns (bt: array2<int>)
    requires b.Length0 == b.Length1 == n
    ensures fresh(bt) && bt.Length0 == bt.Length1 == n
    ensures Rows(bt) == Transpose(Rows(b), n)
  {
    bt := new int[n, n];
    for i := 0 to n
      invariant forall x, y :: 0 <= x < i && 0 <= y < n ==> bt[x, y] == b[y, x]
    {
      for j := 0 to n
        invariant forall x, y :: 0 <= x < i && 0 <= y < n ==> bt[x, y] == b[y, x]
        invariant forall y :: 0 <= y < j ==> bt[i, y] == b[y, i]
      {
        bt[i, j] := b[j, i];
      }
    }
    assert forall x :: 0 <= x < n ==> Rows(bt)[x] == Transpose(Rows(b), n)[x];
  }
}
