/** The value-level meaning of `TensorGeneric<n,m>` (src/Tensor.h): an n x m matrix of reals
    stored row-major in a flat sequence of n*m entries, entry (i, j) at position m*i + j.
    The functions here say what each operation of the class computes; the class in module
    Tensors is proved against them, and the lemmas state the algebra the header relies on. */
module TensorAlgebra {
  import opened Radix
  import opened RealSeq

  /** Entry (i, j) of a row-major store with `cols` columns (the C++ `t(i,j)`, i.e. `d[m*i+j]`),
      read as 0.0 outside the store so that specifications need no bounds side conditions. */
  function At(a: seq<real>, cols: nat, i: nat, j: nat): real
  {
    if cols * i + j < |a| then a[cols * i + j] else 0.0
  }

  /** Component i of a vector, 0.0 past its end. */
  function Elem(v: seq<real>, i: nat): real
  {
    if i < |v| then v[i] else 0.0
  }

  /** The rows x cols store whose entry (i, j) is f(i, j). */
  function Tabulate(rows: nat, cols: nat, f: (nat, nat) -> real): (a: seq<real>)
    ensures |a| == rows * cols
    ensures forall i: nat, j: nat :: i < rows && j < cols ==> At(a, cols, i, j) == f(i, j)
  {
    if cols == 0 then
      assert rows * cols == 0;
      []
    else
      var a := seq(rows * cols, p requires 0 <= p < rows * cols => f(p / cols, p % cols));
      assert forall i: nat, j: nat :: i < rows && j < cols ==> At(a, cols, i, j) == f(i, j) by {
        forall i: nat, j: nat | i < rows && j < cols
          ensures At(a, cols, i, j) == f(i, j)
        {
          FlatBound(rows, cols, i, j);
          DivModOfFlat(cols, i, j);
        }
      }
      a
  }

  /** Two rows x cols stores that agree entry by entry are equal: the row-major layout reaches
      every position of the store. */
  lemma EqualByEntries(rows: nat, cols: nat, a: seq<real>, b: seq<real>)
    requires |a| == rows * cols && |b| == rows * cols
    requires forall i: nat, j: nat :: i < rows && j < cols ==> At(a, cols, i, j) == At(b, cols, i, j)
    ensures a == b
  {
    forall p | 0 <= p < |a| ensures a[p] == b[p] {
      QuotientBound(p, rows, cols);
      assert At(a, cols, p / cols, p % cols) == At(b, cols, p / cols, p % cols);
    }
  }

  /** Element (i, j) lives at flat position m*i + j, inside the n*m store, and no other
      element shares that position. */
  lemma RowMajorLayout(n: nat, m: nat, i: nat, j: nat, r: nat, c: nat)
    requires i < n && j < m && r < n && c < m
    ensures m * i + j < n * m
    ensures (m * i + j) / m == i && (m * i + j) % m == j
    ensures m * i + j == m * r + c <==> i == r && j == c
  {
    FlatBound(n, m, i, j);
    DivModOfFlat(m, i, j);
    if m * i + j == m * r + c {
      FlatInjective(m, i, j, r, c);
    }
  }

  // ---------------------------------------------------------------------------------------
  // Operations

  /** `identity()`: 1 on the diagonal, 0 elsewhere. */
  function Identity(n: nat): (t: seq<real>)
  {
    Tabulate(n, n, (i: nat, j: nat) => if i == j then 1.0 else 0.0)
  }

  /** The transpose of an n x m store: the m x n store with entry (i, j) = a(j, i). */
  function Transposed(n: nat, m: nat, a: seq<real>): (t: seq<real>)
  {
    Tabulate(m, n, (i: nat, j: nat) => At(a, m, j, i))
  }

  /** The first k terms of the sum over k' of a(i, k') * b(k', j), for a with m columns and
      b with l columns: what the innermost `matmul` loop has accumulated after k steps. */
  function Dot(a: seq<real>, b: seq<real>, m: nat, l: nat, i: nat, j: nat, k: nat): real
  {
    if k == 0 then 0.0 else Dot(a, b, m, l, i, j, k - 1) + At(a, m, i, k - 1) * At(b, l, k - 1, j)
  }

  /** `matmul(a, b)` for an n x m tensor a and an m x l tensor b. */
  function MatrixProduct(n: nat, m: nat, l: nat, a: seq<real>, b: seq<real>): (t: seq<real>)
  {
    Tabulate(n, l, (i: nat, j: nat) => Dot(a, b, m, l, i, j, m))
  }

  /** `matmul(a, v)` for an n x m tensor and an m-vector: v read as an m x 1 column. */
  function MatrixVector(n: nat, m: nat, a: seq<real>, v: seq<real>): (t: seq<real>)
  {
    MatrixProduct(n, m, 1, a, v)
  }

  /** `matmul(v, b)` for an m-vector and an m x n tensor: v read as a 1 x m row. */
  function VectorMatrix(m: nat, n: nat, v: seq<real>, b: seq<real>): (t: seq<real>)
  {
    MatrixProduct(1, m, n, v, b)
  }

  /** The outer product of two vectors, entry (i, j) = v1[i] * v2[j] (see ExtProductEntry). */
  function ExtProduct(v1: seq<real>, v2: seq<real>): (t: seq<real>)
    ensures |t| == |v1| * |v2|
  {
    Tabulate(|v1|, |v2|, OuterTerm(v1, v2))
  }

  /** The entry function of the outer product. */
  function OuterTerm(v1: seq<real>, v2: seq<real>): (nat, nat) -> real
  {
    (i: nat, j: nat) => if i < |v1| && j < |v2| then v1[i] * v2[j] else 0.0
  }

  /** Entry (i, j) of the outer product is v1[i] * v2[j]. */
  lemma ExtProductEntry(v1: seq<real>, v2: seq<real>, i: nat, j: nat)
    requires i < |v1| && j < |v2|
    ensures At(ExtProduct(v1, v2), |v2|, i, j) == v1[i] * v2[j]
  {
    var f := OuterTerm(v1, v2);
    var x := f(i, j);
    assert x == v1[i] * v2[j];
    assert At(Tabulate(|v1|, |v2|, f), |v2|, i, j) == x;
  }

  /** `determinant()` of a 3 x 3 tensor: the six-term sum of the header, which is the Laplace
      expansion along the first row. */
  function Det3(a: seq<real>): (d: real)
    requires |a| == 9
    ensures d == a[0] * (a[4] * a[8] - a[5] * a[7])
               - a[1] * (a[3] * a[8] - a[5] * a[6])
               + a[2] * (a[3] * a[7] - a[4] * a[6])
  {
      a[0] * a[4] * a[8]
    + a[1] * a[5] * a[6]
    + a[2] * a[3] * a[7]
    - a[0] * a[5] * a[7]
    - a[1] * a[3] * a[8]
    - a[2] * a[4] * a[6]
  }

  /** The signed cofactor of entry (i, j) of a 3 x 3 tensor, in the cyclic form `inverse` uses. */
  function Cofactor(a: seq<real>, i: nat, j: nat): real
  {
      At(a, 3, (i + 1) % 3, (j + 1) % 3) * At(a, 3, (i + 2) % 3, (j + 2) % 3)
    - At(a, 3, (i + 1) % 3, (j + 2) % 3) * At(a, 3, (i + 2) % 3, (j + 1) % 3)
  }

  /** The adjugate of a 3 x 3 tensor: entry (j, i) is the cofactor of entry (i, j). */
  function Adjugate3(a: seq<real>): (t: seq<real>)
  {
    Tabulate(3, 3, (j: nat, i: nat) => Cofactor(a, i, j))
  }

  /** `inverse()` of a 3 x 3 tensor: the adjugate scaled by the reciprocal of the determinant,
      so entry (j, i) is `invdet` times the cofactor of (i, j). */
  function Inverse3(a: seq<real>): (t: seq<real>)
    requires |a| == 9 && Det3(a) != 0.0
  {
    Scaled(1.0 / Det3(a), Adjugate3(a))
  }

  /** The cross product of two 3-vectors: the function `dcrossDv1` and `dcrossDv2` differentiate. */
  function Cross(u: seq<real>, v: seq<real>): (w: seq<real>)
    requires |u| == 3 && |v| == 3
  {
    [u[1] * v[2] - u[2] * v[1], u[2] * v[0] - u[0] * v[2], u[0] * v[1] - u[1] * v[0]]
  }

  /** `dcrossDv1(v1, v2)`: the 3 x 3 tensor built from v2 alone, in C order. */
  function DcrossDv1(v1: seq<real>, v2: seq<real>): (t: seq<real>)
    requires |v1| == 3 && |v2| == 3
    ensures |t| == 9 && Transposed(3, 3, t) == Negated(t)
  {
    var t := [  0.0,  v2[2], -v2[1],
              -v2[2],   0.0,  v2[0],
               v2[1], -v2[0],   0.0];
    SkewByEntries(t);
    t
  }

  /** `dcrossDv2(v1, v2)`: the 3 x 3 tensor built from v1 alone, in C order. */
  function DcrossDv2(v1: seq<real>, v2: seq<real>): (t: seq<real>)
    requires |v1| == 3 && |v2| == 3
    ensures |t| == 9 && Transposed(3, 3, t) == Negated(t)
  {
    var t := [  0.0, -v1[2],  v1[1],
               v1[2],   0.0, -v1[0],
              -v1[1],  v1[0],   0.0];
    SkewByEntries(t);
    t
  }

  // ---------------------------------------------------------------------------------------
  // Properties

  /** A 3 x 3 store lists its entries in C order: (0,0), (0,1), (0,2), (1,0), ... */
  lemma EntriesInCOrder(a: seq<real>)
    requires |a| == 9
    ensures a == [At(a, 3, 0, 0), At(a, 3, 0, 1), At(a, 3, 0, 2),
                  At(a, 3, 1, 0), At(a, 3, 1, 1), At(a, 3, 1, 2),
                  At(a, 3, 2, 0), At(a, 3, 2, 1), At(a, 3, 2, 2)]
  {
  }

  /** Against the identity on the right, the first k terms of row i times column j pick out
      a(i, j) once k has passed j. */
  lemma {:induction false} DotIdentityRight(a: seq<real>, m: nat, i: nat, j: nat, k: nat)
    requires j < m && k <= m
    ensures Dot(a, Identity(m), m, m, i, j, k) == if j < k then At(a, m, i, j) else 0.0
  {
    if k > 0 {
      DotIdentityRight(a, m, i, j, k - 1);
    }
  }

  /** The identity is a right neutral element of `matmul`. */
  lemma MatMulIdentityRight(n: nat, m: nat, a: seq<real>)
    requires |a| == n * m
    ensures MatrixProduct(n, m, m, a, Identity(m)) == a
  {
    var p := MatrixProduct(n, m, m, a, Identity(m));
    forall i: nat, j: nat | i < n && j < m ensures At(p, m, i, j) == At(a, m, i, j) {
      DotIdentityRight(a, m, i, j, m);
    }
    EqualByEntries(n, m, p, a);
  }

  /** Against the identity on the left, the first k terms pick out a(i, j) once k has passed i. */
  lemma {:induction false} DotIdentityLeft(a: seq<real>, n: nat, m: nat, i: nat, j: nat, k: nat)
    requires i < n && k <= n
    ensures Dot(Identity(n), a, n, m, i, j, k) == if i < k then At(a, m, i, j) else 0.0
  {
    if k > 0 {
      DotIdentityLeft(a, n, m, i, j, k - 1);
    }
  }

  /** The identity is a left neutral element of `matmul`. */
  lemma MatMulIdentityLeft(n: nat, m: nat, a: seq<real>)
    requires |a| == n * m
    ensures MatrixProduct(n, n, m, Identity(n), a) == a
  {
    var p := MatrixProduct(n, n, m, Identity(n), a);
    forall i: nat, j: nat | i < n && j < m ensures At(p, m, i, j) == At(a, m, i, j) {
      DotIdentityLeft(a, n, m, i, j, n);
    }
    EqualByEntries(n, m, p, a);
  }

  /** Transposing twice gives the tensor back, for every shape. */
  lemma TransposeInvolution(n: nat, m: nat, a: seq<real>)
    requires |a| == n * m
    ensures Transposed(m, n, Transposed(n, m, a)) == a
  {
    var t := Transposed(n, m, a);
    var tt := Transposed(m, n, t);
    forall i: nat, j: nat | i < n && j < m ensures At(tt, m, i, j) == At(a, m, i, j) {
      assert At(tt, m, i, j) == At(t, n, j, i);
    }
    EqualByEntries(n, m, tt, a);
  }

  /** The identity has determinant 1. */
  lemma DeterminantOfIdentity()
    ensures Det3(Identity(3)) == 1.0
  {
    EntriesInCOrder(Identity(3));
  }

  /** Transposing keeps the determinant. */
  lemma DeterminantOfTranspose(a: seq<real>)
    requires |a| == 9
    ensures Det3(Transposed(3, 3, a)) == Det3(a)
  {
    EntriesInCOrder(a);
    EntriesInCOrder(Transposed(3, 3, a));
  }

  /** Expanding row i against the cofactors of row j gives the determinant when i == j and 0
      otherwise. */
  lemma CofactorRowExpansion(a: seq<real>, i: nat, j: nat)
    requires |a| == 9 && i < 3 && j < 3
    ensures At(a, 3, i, 0) * Cofactor(a, j, 0) + At(a, 3, i, 1) * Cofactor(a, j, 1)
              + At(a, 3, i, 2) * Cofactor(a, j, 2)
            == if i == j then Det3(a) else 0.0
  {
    EntriesInCOrder(a);
    // One (i, j) case at a time: the cofactors written out, then a small polynomial identity.
    if i == 0 && j == 0 {
      assert Cofactor(a, 0, 0) == a[4] * a[8] - a[5] * a[7];
      assert Cofactor(a, 0, 1) == a[5] * a[6] - a[3] * a[8];
      assert Cofactor(a, 0, 2) == a[3] * a[7] - a[4] * a[6];
    } else if i == 0 && j == 1 {
      assert Cofactor(a, 1, 0) == a[7] * a[2] - a[8] * a[1];
      assert Cofactor(a, 1, 1) == a[8] * a[0] - a[6] * a[2];
      assert Cofactor(a, 1, 2) == a[6] * a[1] - a[7] * a[0];
    } else if i == 0 && j == 2 {
      assert Cofactor(a, 2, 0) == a[1] * a[5] - a[2] * a[4];
      assert Cofactor(a, 2, 1) == a[2] * a[3] - a[0] * a[5];
      assert Cofactor(a, 2, 2) == a[0] * a[4] - a[1] * a[3];
    } else if i == 1 && j == 0 {
      assert Cofactor(a, 0, 0) == a[4] * a[8] - a[5] * a[7];
      assert Cofactor(a, 0, 1) == a[5] * a[6] - a[3] * a[8];
      assert Cofactor(a, 0, 2) == a[3] * a[7] - a[4] * a[6];
    } else if i == 1 && j == 1 {
      assert Cofactor(a, 1, 0) == a[7] * a[2] - a[8] * a[1];
      assert Cofactor(a, 1, 1) == a[8] * a[0] - a[6] * a[2];
      assert Cofactor(a, 1, 2) == a[6] * a[1] - a[7] * a[0];
    } else if i == 1 && j == 2 {
      assert Cofactor(a, 2, 0) == a[1] * a[5] - a[2] * a[4];
      assert Cofactor(a, 2, 1) == a[2] * a[3] - a[0] * a[5];
      assert Cofactor(a, 2, 2) == a[0] * a[4] - a[1] * a[3];
    } else if i == 2 && j == 0 {
      assert Cofactor(a, 0, 0) == a[4] * a[8] - a[5] * a[7];
      assert Cofactor(a, 0, 1) == a[5] * a[6] - a[3] * a[8];
      assert Cofactor(a, 0, 2) == a[3] * a[7] - a[4] * a[6];
    } else if i == 2 && j == 1 {
      assert Cofactor(a, 1, 0) == a[7] * a[2] - a[8] * a[1];
      assert Cofactor(a, 1, 1) == a[8] * a[0] - a[6] * a[2];
      assert Cofactor(a, 1, 2) == a[6] * a[1] - a[7] * a[0];
    } else if i == 2 && j == 2 {
      assert Cofactor(a, 2, 0) == a[1] * a[5] - a[2] * a[4];
      assert Cofactor(a, 2, 1) == a[2] * a[3] - a[0] * a[5];
      assert Cofactor(a, 2, 2) == a[0] * a[4] - a[1] * a[3];
    }
  }

  /** Expanding column j against the cofactors of column i gives the determinant when i == j
      and 0 otherwise. */
  lemma CofactorColumnExpansion(a: seq<real>, i: nat, j: nat)
    requires |a| == 9 && i < 3 && j < 3
    ensures At(a, 3, 0, j) * Cofactor(a, 0, i) + At(a, 3, 1, j) * Cofactor(a, 1, i)
              + At(a, 3, 2, j) * Cofactor(a, 2, i)
            == if i == j then Det3(a) else 0.0
  {
    EntriesInCOrder(a);
    // One (i, j) case at a time: the cofactors written out, then a small polynomial identity.
    if i == 0 && j == 0 {
      assert Cofactor(a, 0, 0) == a[4] * a[8] - a[5] * a[7];
      assert Cofactor(a, 1, 0) == a[7] * a[2] - a[8] * a[1];
      assert Cofactor(a, 2, 0) == a[1] * a[5] - a[2] * a[4];
    } else if i == 0 && j == 1 {
      assert Cofactor(a, 0, 0) == a[4] * a[8] - a[5] * a[7];
      assert Cofactor(a, 1, 0) == a[7] * a[2] - a[8] * a[1];
      assert Cofactor(a, 2, 0) == a[1] * a[5] - a[2] * a[4];
    } else if i == 0 && j == 2 {
      assert Cofactor(a, 0, 0) == a[4] * a[8] - a[5] * a[7];
      assert Cofactor(a, 1, 0) == a[7] * a[2] - a[8] * a[1];
      assert Cofactor(a, 2, 0) == a[1] * a[5] - a[2] * a[4];
    } else if i == 1 && j == 0 {
      assert Cofactor(a, 0, 1) == a[5] * a[6] - a[3] * a[8];
      assert Cofactor(a, 1, 1) == a[8] * a[0] - a[6] * a[2];
      assert Cofactor(a, 2, 1) == a[2] * a[3] - a[0] * a[5];
    } else if i == 1 && j == 1 {
      assert Cofactor(a, 0, 1) == a[5] * a[6] - a[3] * a[8];
      assert Cofactor(a, 1, 1) == a[8] * a[0] - a[6] * a[2];
      assert Cofactor(a, 2, 1) == a[2] * a[3] - a[0] * a[5];
    } else if i == 1 && j == 2 {
      assert Cofactor(a, 0, 1) == a[5] * a[6] - a[3] * a[8];
      assert Cofactor(a, 1, 1) == a[8] * a[0] - a[6] * a[2];
      assert Cofactor(a, 2, 1) == a[2] * a[3] - a[0] * a[5];
    } else if i == 2 && j == 0 {
      assert Cofactor(a, 0, 2) == a[3] * a[7] - a[4] * a[6];
      assert Cofactor(a, 1, 2) == a[6] * a[1] - a[7] * a[0];
      assert Cofactor(a, 2, 2) == a[0] * a[4] - a[1] * a[3];
    } else if i == 2 && j == 1 {
      assert Cofactor(a, 0, 2) == a[3] * a[7] - a[4] * a[6];
      assert Cofactor(a, 1, 2) == a[6] * a[1] - a[7] * a[0];
      assert Cofactor(a, 2, 2) == a[0] * a[4] - a[1] * a[3];
    } else if i == 2 && j == 2 {
      assert Cofactor(a, 0, 2) == a[3] * a[7] - a[4] * a[6];
      assert Cofactor(a, 1, 2) == a[6] * a[1] - a[7] * a[0];
      assert Cofactor(a, 2, 2) == a[0] * a[4] - a[1] * a[3];
    }
  }

  /** A three-term inner product written out. */
  lemma Dot3(a: seq<real>, b: seq<real>, l: nat, i: nat, j: nat)
    ensures Dot(a, b, 3, l, i, j, 3)
         == At(a, 3, i, 0) * At(b, l, 0, j) + At(a, 3, i, 1) * At(b, l, 1, j) + At(a, 3, i, 2) * At(b, l, 2, j)
  {
    assert Dot(a, b, 3, l, i, j, 1) == At(a, 3, i, 0) * At(b, l, 0, j);
  }

  /** Entry (i, j) of a scaled store is the scaled entry. */
  lemma AtScaled(s: real, a: seq<real>, cols: nat, i: nat, j: nat)
    ensures At(Scaled(s, a), cols, i, j) == s * At(a, cols, i, j)
  {
  }

  /** A factor on the right operand of the first k terms comes out in front. */
  lemma {:induction false} DotScaledRight(a: seq<real>, x: real, b: seq<real>, m: nat, l: nat, i: nat, j: nat, k: nat)
    ensures Dot(a, Scaled(x, b), m, l, i, j, k) == x * Dot(a, b, m, l, i, j, k)
  {
    if k > 0 {
      DotScaledRight(a, x, b, m, l, i, j, k - 1);
      AtScaled(x, b, l, k - 1, j);
    }
  }

  /** A factor on the left operand of the first k terms comes out in front. */
  lemma {:induction false} DotScaledLeft(x: real, a: seq<real>, b: seq<real>, m: nat, l: nat, i: nat, j: nat, k: nat)
    ensures Dot(Scaled(x, a), b, m, l, i, j, k) == x * Dot(a, b, m, l, i, j, k)
  {
    if k > 0 {
      DotScaledLeft(x, a, b, m, l, i, j, k - 1);
      AtScaled(x, a, m, i, k - 1);
    }
  }

  /** `matmul` is linear in a scalar factor on its right operand. */
  lemma MatMulScaledRight(n: nat, m: nat, l: nat, a: seq<real>, x: real, b: seq<real>)
    ensures MatrixProduct(n, m, l, a, Scaled(x, b)) == Scaled(x, MatrixProduct(n, m, l, a, b))
  {
    var p := MatrixProduct(n, m, l, a, b);
    var q := MatrixProduct(n, m, l, a, Scaled(x, b));
    forall i: nat, j: nat | i < n && j < l ensures At(q, l, i, j) == At(Scaled(x, p), l, i, j) {
      calc {
        At(q, l, i, j);
        Dot(a, Scaled(x, b), m, l, i, j, m);
        { DotScaledRight(a, x, b, m, l, i, j, m); }
        x * Dot(a, b, m, l, i, j, m);
        x * At(p, l, i, j);
        { AtScaled(x, p, l, i, j); }
        At(Scaled(x, p), l, i, j);
      }
    }
    EqualByEntries(n, l, q, Scaled(x, p));
  }

  /** `matmul` is linear in a scalar factor on its left operand. */
  lemma MatMulScaledLeft(n: nat, m: nat, l: nat, x: real, a: seq<real>, b: seq<real>)
    ensures MatrixProduct(n, m, l, Scaled(x, a), b) == Scaled(x, MatrixProduct(n, m, l, a, b))
  {
    var p := MatrixProduct(n, m, l, a, b);
    var q := MatrixProduct(n, m, l, Scaled(x, a), b);
    forall i: nat, j: nat | i < n && j < l ensures At(q, l, i, j) == At(Scaled(x, p), l, i, j) {
      calc {
        At(q, l, i, j);
        Dot(Scaled(x, a), b, m, l, i, j, m);
        { DotScaledLeft(x, a, b, m, l, i, j, m); }
        x * Dot(a, b, m, l, i, j, m);
        x * At(p, l, i, j);
        { AtScaled(x, p, l, i, j); }
        At(Scaled(x, p), l, i, j);
      }
    }
    EqualByEntries(n, l, q, Scaled(x, p));
  }

  /** Entry (k, j) of the adjugate is the cofactor of entry (j, k). */
  lemma AdjugateEntry(a: seq<real>, k: nat, j: nat)
    requires k < 3 && j < 3
    ensures At(Adjugate3(a), 3, k, j) == Cofactor(a, j, k)
  {
  }

  /** An entry of a scaled store, given the entry y of the store. */
  lemma ScaledEntry(s: real, b: seq<real>, cols: nat, i: nat, j: nat, y: real)
    requires At(b, cols, i, j) == y
    ensures At(Scaled(s, b), cols, i, j) == s * y
  {
    AtScaled(s, b, cols, i, j);
  }

  /** Row i of a against a column j holding the cofactors of row j. */
  lemma RowAgainstCofactors(a: seq<real>, b: seq<real>, i: nat, j: nat)
    requires |a| == 9 && i < 3 && j < 3
    requires At(b, 3, 0, j) == Cofactor(a, j, 0) && At(b, 3, 1, j) == Cofactor(a, j, 1)
    requires At(b, 3, 2, j) == Cofactor(a, j, 2)
    ensures Dot(a, b, 3, 3, i, j, 3) == if i == j then Det3(a) else 0.0
  {
    calc {
      Dot(a, b, 3, 3, i, j, 3);
      { Dot3(a, b, 3, i, j); }
      At(a, 3, i, 0) * At(b, 3, 0, j) + At(a, 3, i, 1) * At(b, 3, 1, j) + At(a, 3, i, 2) * At(b, 3, 2, j);
      At(a, 3, i, 0) * Cofactor(a, j, 0) + At(a, 3, i, 1) * Cofactor(a, j, 1) + At(a, 3, i, 2) * Cofactor(a, j, 2);
      { CofactorRowExpansion(a, i, j); }
      if i == j then Det3(a) else 0.0;
    }
  }

  /** A row i holding the cofactors of column i against column j of a. */
  lemma CofactorsAgainstColumn(a: seq<real>, b: seq<real>, i: nat, j: nat)
    requires |a| == 9 && i < 3 && j < 3
    requires At(b, 3, i, 0) == Cofactor(a, 0, i) && At(b, 3, i, 1) == Cofactor(a, 1, i)
    requires At(b, 3, i, 2) == Cofactor(a, 2, i)
    ensures Dot(b, a, 3, 3, i, j, 3) == if i == j then Det3(a) else 0.0
  {
    calc {
      Dot(b, a, 3, 3, i, j, 3);
      { Dot3(b, a, 3, i, j); }
      At(b, 3, i, 0) * At(a, 3, 0, j) + At(b, 3, i, 1) * At(a, 3, 1, j) + At(b, 3, i, 2) * At(a, 3, 2, j);
      Cofactor(a, 0, i) * At(a, 3, 0, j) + Cofactor(a, 1, i) * At(a, 3, 1, j) + Cofactor(a, 2, i) * At(a, 3, 2, j);
      At(a, 3, 0, j) * Cofactor(a, 0, i) + At(a, 3, 1, j) * Cofactor(a, 1, i) + At(a, 3, 2, j) * Cofactor(a, 2, i);
      { CofactorColumnExpansion(a, i, j); }
      if i == j then Det3(a) else 0.0;
    }
  }

  /** A tensor times its adjugate, on either side, is its determinant times the identity. */
  lemma MatMulAdjugate(a: seq<real>)
    requires |a| == 9
    ensures MatrixProduct(3, 3, 3, a, Adjugate3(a)) == Scaled(Det3(a), Identity(3))
    ensures MatrixProduct(3, 3, 3, Adjugate3(a), a) == Scaled(Det3(a), Identity(3))
  {
    var adj := Adjugate3(a);
    var di := Scaled(Det3(a), Identity(3));
    var right := MatrixProduct(3, 3, 3, a, adj);
    var left := MatrixProduct(3, 3, 3, adj, a);
    forall i: nat, j: nat | i < 3 && j < 3
      ensures At(right, 3, i, j) == At(di, 3, i, j) && At(left, 3, i, j) == At(di, 3, i, j)
    {
      AdjugateEntry(a, 0, j);
      AdjugateEntry(a, 1, j);
      AdjugateEntry(a, 2, j);
      RowAgainstCofactors(a, adj, i, j);
      AdjugateEntry(a, i, 0);
      AdjugateEntry(a, i, 1);
      AdjugateEntry(a, i, 2);
      CofactorsAgainstColumn(a, adj, i, j);
      AtScaled(Det3(a), Identity(3), 3, i, j);
    }
    EqualByEntries(3, 3, right, di);
    EqualByEntries(3, 3, left, di);
  }

  /** When the determinant is nonzero, `inverse` is a two-sided inverse under `matmul`. */
  lemma MatMulInverse(a: seq<real>)
    requires |a| == 9 && Det3(a) != 0.0
    ensures MatrixProduct(3, 3, 3, a, Inverse3(a)) == Identity(3)
    ensures MatrixProduct(3, 3, 3, Inverse3(a), a) == Identity(3)
  {
    var d := Det3(a);
    var x := 1.0 / d;
    var adj := Adjugate3(a);
    var id := Identity(3);
    MatMulAdjugate(a);
    calc {
      MatrixProduct(3, 3, 3, a, Inverse3(a));
      MatrixProduct(3, 3, 3, a, Scaled(x, adj));
      { MatMulScaledRight(3, 3, 3, a, x, adj); }
      Scaled(x, MatrixProduct(3, 3, 3, a, adj));
      Scaled(x, Scaled(d, id));
      { ScaledTwice(x, d, id); }
      Scaled(x * d, id);
      { assert x * d == 1.0; ScaledByOne(id); }
      id;
    }
    calc {
      MatrixProduct(3, 3, 3, Inverse3(a), a);
      MatrixProduct(3, 3, 3, Scaled(x, adj), a);
      { MatMulScaledLeft(3, 3, 3, x, adj, a); }
      Scaled(x, MatrixProduct(3, 3, 3, adj, a));
      Scaled(x, Scaled(d, id));
      { ScaledTwice(x, d, id); }
      Scaled(x * d, id);
      { assert x * d == 1.0; ScaledByOne(id); }
      id;
    }
  }

  /** The transpose of a 3 x 3 store lists its columns in C order. */
  lemma TransposedInCOrder(a: seq<real>)
    requires |a| == 9
    ensures Transposed(3, 3, a) == [a[0], a[3], a[6], a[1], a[4], a[7], a[2], a[5], a[8]]
  {
    EntriesInCOrder(Transposed(3, 3, a));
  }

  /** A 3 x 3 store with a zero diagonal and opposite off-diagonal pairs is skew-symmetric. */
  lemma SkewByEntries(a: seq<real>)
    requires |a| == 9 && a[0] == 0.0 && a[4] == 0.0 && a[8] == 0.0
    requires a[1] == -a[3] && a[2] == -a[6] && a[5] == -a[7]
    ensures Transposed(3, 3, a) == Negated(a)
  {
    TransposedInCOrder(a);
    assert Negated(a) == [-a[0], -a[1], -a[2], -a[3], -a[4], -a[5], -a[6], -a[7], -a[8]];
  }

  /** `dcrossDv1(v1, v2)` is the derivative of v1 x v2 with respect to v1: applied to any w it
      gives w x v2, whatever v1 is. */
  lemma DcrossDv1IsDerivative(v1: seq<real>, v2: seq<real>, w: seq<real>)
    requires |v1| == 3 && |v2| == 3 && |w| == 3
    ensures MatrixVector(3, 3, DcrossDv1(v1, v2), w) == Cross(w, v2)
  {
    var d := DcrossDv1(v1, v2);
    var r := MatrixVector(3, 3, d, w);
    forall i: nat | i < 3 ensures At(r, 1, i, 0) == Cross(w, v2)[i] {
      Dot3(d, w, 1, i, 0);
    }
    assert r == [At(r, 1, 0, 0), At(r, 1, 1, 0), At(r, 1, 2, 0)];
  }

  /** `dcrossDv2(v1, v2)` is the derivative of v1 x v2 with respect to v2: applied to any w it
      gives v1 x w, whatever v2 is. */
  lemma DcrossDv2IsDerivative(v1: seq<real>, v2: seq<real>, w: seq<real>)
    requires |v1| == 3 && |v2| == 3 && |w| == 3
    ensures MatrixVector(3, 3, DcrossDv2(v1, v2), w) == Cross(v1, w)
  {
    var d := DcrossDv2(v1, v2);
    var r := MatrixVector(3, 3, d, w);
    forall i: nat | i < 3 ensures At(r, 1, i, 0) == Cross(v1, w)[i] {
      Dot3(d, w, 1, i, 0);
    }
    assert r == [At(r, 1, 0, 0), At(r, 1, 1, 0), At(r, 1, 2, 0)];
  }

  /** Transposing an outer product swaps its factors. */
  lemma ExtProductTransposed(v1: seq<real>, v2: seq<real>)
    ensures Transposed(|v1|, |v2|, ExtProduct(v1, v2)) == ExtProduct(v2, v1)
  {
    var t := Transposed(|v1|, |v2|, ExtProduct(v1, v2));
    var e := ExtProduct(v2, v1);
    forall i: nat, j: nat | i < |v2| && j < |v1| ensures At(t, |v1|, i, j) == At(e, |v1|, i, j) {
      assert At(t, |v1|, i, j) == At(ExtProduct(v1, v2), |v2|, j, i);
      ExtProductEntry(v1, v2, j, i);
      ExtProductEntry(v2, v1, i, j);
    }
    EqualByEntries(|v2|, |v1|, t, e);
  }

  /** Row vector v times column i of b, term by term, is row i of c times v, when row i of c
      is column i of b. */
  lemma {:induction false} DotAgainstColumn(v: seq<real>, b: seq<real>, c: seq<real>, m: nat, n: nat, i: nat, k: nat)
    requires k <= m
    requires forall j: nat :: j < m ==> At(c, m, i, j) == At(b, n, j, i)
    ensures Dot(v, b, m, n, 0, i, k) == Dot(c, v, m, 1, i, 0, k)
  {
    if k > 0 {
      DotAgainstColumn(v, b, c, m, n, i, k - 1);
      assert At(v, m, 0, k - 1) == At(v, 1, k - 1, 0);
      assert At(c, m, i, k - 1) == At(b, n, k - 1, i);
    }
  }

  /** The vector-matrix `matmul(v, b)` equals the matrix-vector `matmul(transpose(b), v)`. */
  lemma VectorMatrixIsTransposed(m: nat, n: nat, v: seq<real>, b: seq<real>)
    requires |v| == m && |b| == m * n
    ensures VectorMatrix(m, n, v, b) == MatrixVector(n, m, Transposed(m, n, b), v)
  {
    var l := VectorMatrix(m, n, v, b);
    var r := MatrixVector(n, m, Transposed(m, n, b), v);
    forall i: nat, j: nat | i < n && j < 1 ensures At(l, 1, i, j) == At(r, 1, i, j) {
      DotAgainstColumn(v, b, Transposed(m, n, b), m, n, i, m);
      assert At(l, n, 0, i) == Dot(v, b, m, n, 0, i, m);
    }
    EqualByEntries(n, 1, l, r);
  }

  // ---------------------------------------------------------------------------------------
  // The `transpose` loop as written (src/Tensor.h:282-286)

  /** Flat position of (i, j) in a store with `cols` columns. */
  function Pos(cols: nat, i: nat, j: nat): nat
  {
    cols * i + j
  }

  /** Every access the `transpose` loop of an n x m tensor makes is inside its store: the loop
      runs i < n, j < m and writes t(i, j) of the m x n result (position n*i + j of m*n) while
      reading (j, i) of the source (position m*j + i of n*m). */
  predicate TransposeAsWrittenInBounds(n: nat, m: nat)
  {
    forall i: nat, j: nat :: i < n && j < m ==> Pos(n, i, j) < m * n && Pos(m, j, i) < n * m
  }

  /** The loop as written stays inside both stores exactly when the tensor is square. */
  lemma TransposeAsWrittenOnlySquare(n: nat, m: nat)
    requires n >= 1 && m >= 1
    ensures TransposeAsWrittenInBounds(n, m) <==> n == m
  {
    if n == m {
      forall i: nat, j: nat | i < n && j < m ensures Pos(n, i, j) < m * n && Pos(m, j, i) < n * m {
        FlatBound(n, n, i, j);
        FlatBound(n, n, j, i);
      }
    } else if n > m {
      // The last write, t(n-1, m-1), lands at n*(n-1) + m-1 >= m*n.
      MulMonotonic(n - 1, 1, n - m);
      assert Pos(n, n - 1, m - 1) - m * n == (n - m) * (n - 1) - 1;
      assert !(Pos(n, n - 1, m - 1) < m * n);
    } else {
      // The last read, (m-1, n-1) of the source, lies at m*(m-1) + n-1 >= n*m.
      MulMonotonic(m - 1, 1, m - n);
      assert Pos(m, m - 1, n - 1) - n * m == (m - n) * (m - 1) - 1;
      assert !(Pos(m, m - 1, n - 1) < n * m);
    }
  }

  /** A 3 x 2 tensor: the loop writes t(2, 1) of the 2 x 3 result at position 7 of a store of 6. */
  lemma TransposeAsWrittenOverflows3x2()
    ensures !TransposeAsWrittenInBounds(3, 2)
    ensures Pos(3, 2, 1) == 7 && 2 * 3 == 6
  {
    assert !(Pos(3, 2, 1) < 2 * 3);
  }
}
