/** Facts about flat positions `cols * i + j` in a row-major store with `cols` columns:
    where such a position lies and how division and remainder recover (i, j) from it.
    Both the tensor layout and the grid's mixed-radix index are built on them. */
module Radix {

  /** Multiplying by a natural number is monotonic. */
  lemma {:induction false} MulMonotonic(c: nat, a: nat, b: nat)
    requires a <= b
    ensures c * a <= c * b
  {
    assert c * b - c * a == c * (b - a);
  }

  /** Position (i, j) of a rows x cols store lies inside it. */
  lemma FlatBound(rows: nat, cols: nat, i: nat, j: nat)
    requires i < rows && j < cols
    ensures cols * i + j < rows * cols
  {
    MulMonotonic(cols, i + 1, rows);
    assert cols * (i + 1) == cols * i + cols;
    assert rows * cols == cols * rows;
  }

  /** Division and remainder by the column count recover the row and the column. */
  lemma DivModOfFlat(cols: nat, i: nat, j: nat)
    requires j < cols
    ensures (cols * i + j) / cols == i
    ensures (cols * i + j) % cols == j
  {
    var x := cols * i + j;
    var q, r := x / cols, x % cols;
    assert x == cols * q + r && 0 <= r < cols;
    if q > i {
      MulMonotonic(cols, i + 1, q);
      assert false;
    } else if q < i {
      MulMonotonic(cols, q + 1, i);
      assert false;
    }
  }

  /** Every position below rows * cols is (p / cols, p % cols) with the row below rows. */
  lemma QuotientBound(p: nat, rows: nat, cols: nat)
    requires p < rows * cols
    ensures cols > 0
    ensures 0 <= p / cols < rows
    ensures p == cols * (p / cols) + p % cols
  {
    if cols == 0 {
      assert false;
    }
    var q := p / cols;
    if q >= rows {
      MulMonotonic(cols, rows, q);
      assert false;
    }
  }

  /** Distinct (row, column) pairs occupy distinct positions. */
  lemma FlatInjective(cols: nat, r: nat, c: nat, i: nat, j: nat)
    requires c < cols && j < cols
    requires cols * r + c == cols * i + j
    ensures r == i && c == j
  {
    DivModOfFlat(cols, r, c);
    DivModOfFlat(cols, i, j);
  }
}
