/** `TensorGeneric<n,m>` (src/Tensor.h) as a class: the shape is fixed when the tensor is
    made and the n*m entries live in an array that the operators update in place. Each
    method is proved against the value-level definitions of module TensorAlgebra. */
module Tensors {
  import opened Radix
  import opened RealSeq
  import opened TensorAlgebra

  class Tensor {
    const rows: nat
    const cols: nat
    const d: array<real>

    /** The store holds exactly rows * cols entries. */
    predicate Valid()
    {
      d.Length == rows * cols
    }

    /** The entries, row-major. */
    function Entries(): (s: seq<real>)
      reads d
    {
      d[..]
    }

    /** The default constructor: every entry 0. */
    constructor (n: nat, m: nat)
      ensures rows == n && cols == m && Valid() && fresh(d)
      ensures Entries() == Zeros(n * m)
    {
      rows, cols := n, m;
      d := new real[n * m];
      new;
      var p := 0;
      while p < n * m
        invariant 0 <= p <= n * m
        invariant forall q :: 0 <= q < p ==> d[q] == 0.0
      {
        d[p] := 0.0;
        p := p + 1;
      }
    }

    /** The implicit copy constructor. */
    constructor Copy(t: Tensor)
      requires t.Valid()
      ensures rows == t.rows && cols == t.cols && Valid() && fresh(d)
      ensures Entries() == t.Entries()
    {
      rows, cols := t.rows, t.cols;
      d := new real[t.rows * t.cols];
      new;
      var p := 0;
      while p < rows * cols
        invariant 0 <= p <= rows * cols
        invariant forall q :: 0 <= q < p ==> d[q] == t.d[q]
      {
        d[p] := t.d[p];
        p := p + 1;
      }
    }

    /** The outer-product constructor: entry (i, j) is v1[i] * v2[j]. */
    constructor OfVectors(v1: seq<real>, v2: seq<real>)
      ensures rows == |v1| && cols == |v2| && Valid() && fresh(d)
      ensures Entries() == ExtProduct(v1, v2)
    {
      rows, cols := |v1|, |v2|;
      d := new real[|v1| * |v2|];
      new;
      ghost var e := ExtProduct(v1, v2);
      var i := 0;
      while i < |v1|
        invariant 0 <= i <= |v1|
        invariant forall r: nat, c: nat :: r < i && c < |v2| ==> At(d[..], |v2|, r, c) == At(e, |v2|, r, c)
      {
        var j := 0;
        while j < |v2|
          invariant 0 <= j <= |v2|
          invariant forall r: nat, c: nat :: c < |v2| && (r < i || (r == i && c < j)) ==>
                      At(d[..], |v2|, r, c) == At(e, |v2|, r, c)
        {
          ExtProductEntry(v1, v2, i, j);
          Set(i, j, v1[i] * v2[j]);
          j := j + 1;
        }
        i := i + 1;
      }
      EqualByEntries(|v1|, |v2|, d[..], e);
    }

    /** The 2 x 2 constructor, arguments in C order. */
    constructor Of2x2(a00: real, a01: real, a10: real, a11: real)
      ensures rows == 2 && cols == 2 && Valid() && fresh(d)
      ensures Entries() == [a00, a01, a10, a11]
    {
      rows, cols := 2, 2;
      d := new real[4];
      new;
      d[0], d[1], d[2], d[3] := a00, a01, a10, a11;
    }

    /** The 3 x 3 constructor, arguments in C order. */
    constructor Of3x3(a00: real, a01: real, a02: real, a10: real, a11: real, a12: real,
                      a20: real, a21: real, a22: real)
      ensures rows == 3 && cols == 3 && Valid() && fresh(d)
      ensures Entries() == [a00, a01, a02, a10, a11, a12, a20, a21, a22]
    {
      rows, cols := 3, 3;
      d := new real[9];
      new;
      d[0], d[1], d[2] := a00, a01, a02;
      d[3], d[4], d[5] := a10, a11, a12;
      d[6], d[7], d[8] := a20, a21, a22;
    }

    /** `zero()`: every entry becomes 0. */
    method Zero()
      requires Valid()
      modifies d
      ensures Entries() == Zeros(rows * cols)
    {
      var p := 0;
      while p < rows * cols
        invariant 0 <= p <= rows * cols
        invariant forall q :: 0 <= q < p ==> d[q] == 0.0
      {
        d[p] := 0.0;
        p := p + 1;
      }
    }

    /** Reading `t(i, j)`: the entry at flat position cols*i + j. */
    function Get(i: nat, j: nat): (x: real)
      reads d
      requires Valid() && i < rows && j < cols
      ensures x == At(Entries(), cols, i, j)
    {
      FlatBound(rows, cols, i, j);
      d[cols * i + j]
    }

    /** Assigning through `t(i, j)`: entry (i, j) becomes x and every other entry is kept. */
    method Set(i: nat, j: nat, x: real)
      requires Valid() && i < rows && j < cols
      modifies d
      ensures At(Entries(), cols, i, j) == x
      ensures forall r: nat, c: nat :: r < rows && c < cols && (r != i || c != j) ==>
                At(Entries(), cols, r, c) == old(At(Entries(), cols, r, c))
    {
      FlatBound(rows, cols, i, j);
      d[cols * i + j] := x;
      forall r: nat, c: nat | r < rows && c < cols && (r != i || c != j)
        ensures At(Entries(), cols, r, c) == old(At(Entries(), cols, r, c))
      {
        RowMajorLayout(rows, cols, i, j, r, c);
      }
    }

    /** `operator +=`: each entry grows by the matching entry of b (b may be this tensor). */
    method AddAssign(b: Tensor)
      requires Valid() && b.Valid() && b.rows == rows && b.cols == cols
      modifies d
      ensures Entries() == Sum(old(Entries()), old(b.Entries()))
    {
      var p := 0;
      while p < rows * cols
        invariant 0 <= p <= rows * cols
        invariant forall q :: 0 <= q < p ==> d[q] == old(d[q]) + old(b.d[q])
        invariant forall q :: p <= q < rows * cols ==> d[q] == old(d[q]) && b.d[q] == old(b.d[q])
      {
        d[p] := d[p] + b.d[p];
        p := p + 1;
      }
    }

    /** `operator -=`: each entry shrinks by the matching entry of b (b may be this tensor). */
    method SubAssign(b: Tensor)
      requires Valid() && b.Valid() && b.rows == rows && b.cols == cols
      modifies d
      ensures Entries() == Difference(old(Entries()), old(b.Entries()))
    {
      var p := 0;
      while p < rows * cols
        invariant 0 <= p <= rows * cols
        invariant forall q :: 0 <= q < p ==> d[q] == old(d[q]) - old(b.d[q])
        invariant forall q :: p <= q < rows * cols ==> d[q] == old(d[q]) && b.d[q] == old(b.d[q])
      {
        d[p] := d[p] - b.d[p];
        p := p + 1;
      }
    }

    /** `operator *=`: every entry is multiplied by s. */
    method MulAssign(s: real)
      requires Valid()
      modifies d
      ensures Entries() == Scaled(s, old(Entries()))
    {
      var p := 0;
      while p < rows * cols
        invariant 0 <= p <= rows * cols
        invariant forall q :: 0 <= q < p ==> d[q] == s * old(d[q])
        invariant forall q :: p <= q < rows * cols ==> d[q] == old(d[q])
      {
        d[p] := d[p] * s;
        p := p + 1;
      }
      assert forall q :: 0 <= q < rows * cols ==> Entries()[q] == Scaled(s, old(Entries()))[q];
    }

    /** `operator /=`: multiplication by 1/s, which `*=` by s undoes. */
    method DivAssign(s: real)
      requires Valid() && s != 0.0
      modifies d
      ensures Entries() == Scaled(1.0 / s, old(Entries()))
      ensures Scaled(s, Entries()) == old(Entries())
    {
      ghost var e := Entries();
      MulAssign(1.0 / s);
      ScaledUndo(s, e);
    }

    /** Unary `operator +`: a copy with the same entries. */
    method Positive() returns (r: Tensor)
      requires Valid()
      ensures fresh(r) && fresh(r.d) && r.rows == rows && r.cols == cols && r.Valid()
      ensures r.Entries() == Entries()
    {
      r := new Tensor.Copy(this);
    }

    /** Unary `operator -`: a new tensor holding every entry negated. */
    method Negative() returns (r: Tensor)
      requires Valid()
      ensures fresh(r) && fresh(r.d) && r.rows == rows && r.cols == cols && r.Valid()
      ensures r.Entries() == Negated(Entries())
    {
      r := new Tensor(rows, cols);
      var p := 0;
      while p < rows * cols
        invariant 0 <= p <= rows * cols
        invariant forall q :: 0 <= q < p ==> r.d[q] == -d[q]
      {
        r.d[p] := -d[p];
        p := p + 1;
      }
    }

    /** `transpose()` with the loop bounds the m x n result needs (i < m, j < n); the loop as
        written is TensorAlgebra.TransposeAsWrittenInBounds. */
    method Transpose() returns (t: Tensor)
      requires Valid()
      ensures fresh(t) && fresh(t.d) && t.rows == cols && t.cols == rows && t.Valid()
      ensures t.Entries() == Transposed(rows, cols, Entries())
    {
      t := new Tensor(cols, rows);
      var i := 0;
      while i < cols
        invariant 0 <= i <= cols
        invariant forall r: nat, c: nat :: r < i && c < rows ==> At(t.Entries(), rows, r, c) == Get(c, r)
      {
        var j := 0;
        while j < rows
          invariant 0 <= j <= rows
          invariant forall r: nat, c: nat :: c < rows && (r < i || (r == i && c < j)) ==>
                      At(t.Entries(), rows, r, c) == Get(c, r)
        {
          t.Set(i, j, Get(j, i));
          j := j + 1;
        }
        i := i + 1;
      }
      EqualByEntries(cols, rows, t.Entries(), Transposed(rows, cols, Entries()));
    }

    /** The expression `inverse` evaluates for entry (i, j) of a 3 x 3 tensor: products of
        entries taken cyclically from the rows and columns after i and j, read at `d[3*r + c]`. */
    method CyclicCofactor(i: nat, j: nat) returns (x: real)
      requires Valid() && rows == 3 && cols == 3 && i < 3 && j < 3
      ensures x == Cofactor(Entries(), i, j)
    {
      x := d[3 * ((i + 1) % 3) + (j + 1) % 3] * d[3 * ((i + 2) % 3) + (j + 2) % 3]
         - d[3 * ((i + 1) % 3) + (j + 2) % 3] * d[3 * ((i + 2) % 3) + (j + 1) % 3];
    }

    /** The double loop of `inverse()`: entry (j, i) of a fresh 3 x 3 tensor becomes s times
        the cyclic cofactor of (i, j), which makes the result s times the adjugate. */
    method ScaledAdjugate(s: real) returns (t: Tensor)
      requires Valid() && rows == 3 && cols == 3
      ensures fresh(t) && fresh(t.d) && t.rows == 3 && t.cols == 3 && t.Valid()
      ensures t.Entries() == Scaled(s, Adjugate3(Entries()))
    {
      ghost var a := Entries();
      ghost var target := Scaled(s, Adjugate3(a));
      t := new Tensor(3, 3);
      var i := 0;
      while i < 3
        invariant 0 <= i <= 3 && Entries() == a
        invariant forall r: nat, c: nat :: r < 3 && c < i ==> At(t.Entries(), 3, r, c) == At(target, 3, r, c)
      {
        var j := 0;
        while j < 3
          invariant 0 <= j <= 3 && Entries() == a
          invariant forall r: nat, c: nat :: r < 3 && (c < i || (c == i && r < j)) ==>
                      At(t.Entries(), 3, r, c) == At(target, 3, r, c)
        {
          var c := CyclicCofactor(i, j);
          AdjugateEntry(a, j, i);
          ScaledEntry(s, Adjugate3(a), 3, j, i, c);
          ghost var before := t.Entries();
          t.Set(j, i, s * c);
          ColumnMajorWrite(before, t.Entries(), target, i, j);
          j := j + 1;
        }
        i := i + 1;
      }
      EqualByEntries(3, 3, t.Entries(), target);
    }

    /** `inverse()` of a 3 x 3 tensor: `invdet` is 1 over the determinant and the loop stores
        `invdet` times the adjugate, which is a two-sided inverse under `matmul`
        (TensorAlgebra.MatMulInverse). */
    method Inverse() returns (t: Tensor)
      requires Valid() && rows == 3 && cols == 3 && Det3(Entries()) != 0.0
      ensures fresh(t) && fresh(t.d) && t.rows == 3 && t.cols == 3 && t.Valid()
      ensures t.Entries() == Inverse3(Entries())
      ensures MatrixProduct(3, 3, 3, Entries(), t.Entries()) == Identity(3)
    {
      var invdet := 1.0 / Det3(Entries());
      t := ScaledAdjugate(invdet);
      MatMulInverse(Entries());
    }
  }

  /** One more write of the column-by-column loop of `inverse`: if every entry before (j, i)
      in column-major order already matched the target, entry (j, i) now does, and no other
      entry changed, then every entry up to (j, i) matches. */
  lemma ColumnMajorWrite(before: seq<real>, after: seq<real>, target: seq<real>, i: nat, j: nat)
    requires i < 3 && j < 3
    requires forall r: nat, c: nat :: r < 3 && (c < i || (c == i && r < j)) ==>
               At(before, 3, r, c) == At(target, 3, r, c)
    requires At(after, 3, j, i) == At(target, 3, j, i)
    requires forall r: nat, c: nat :: r < 3 && c < 3 && (r != j || c != i) ==>
               At(after, 3, r, c) == At(before, 3, r, c)
    ensures forall r: nat, c: nat :: r < 3 && (c < i || (c == i && r < j + 1)) ==>
              At(after, 3, r, c) == At(target, 3, r, c)
  {
  }

  /** `t1 + t2`: a copy of t1 with t2 added; neither operand changes. */
  method Plus(t1: Tensor, t2: Tensor) returns (t: Tensor)
    requires t1.Valid() && t2.Valid() && t1.rows == t2.rows && t1.cols == t2.cols
    ensures fresh(t) && fresh(t.d) && t.rows == t1.rows && t.cols == t1.cols && t.Valid()
    ensures t.Entries() == Sum(t1.Entries(), t2.Entries())
  {
    t := new Tensor.Copy(t1);
    t.AddAssign(t2);
  }

  /** `t1 - t2`: a copy of t1 with t2 subtracted; neither operand changes. */
  method Minus(t1: Tensor, t2: Tensor) returns (t: Tensor)
    requires t1.Valid() && t2.Valid() && t1.rows == t2.rows && t1.cols == t2.cols
    ensures fresh(t) && fresh(t.d) && t.rows == t1.rows && t.cols == t1.cols && t.Valid()
    ensures t.Entries() == Difference(t1.Entries(), t2.Entries())
  {
    t := new Tensor.Copy(t1);
    t.SubAssign(t2);
  }

  /** `t1 * s`: a copy of t1 scaled by s. */
  method Times(t1: Tensor, s: real) returns (t: Tensor)
    requires t1.Valid()
    ensures fresh(t) && fresh(t.d) && t.rows == t1.rows && t.cols == t1.cols && t.Valid()
    ensures t.Entries() == Scaled(s, t1.Entries())
  {
    t := new Tensor.Copy(t1);
    t.MulAssign(s);
  }

  /** `s * t1`, defined as `t1 * s`. */
  method TimesLeft(s: real, t1: Tensor) returns (t: Tensor)
    requires t1.Valid()
    ensures fresh(t) && fresh(t.d) && t.rows == t1.rows && t.cols == t1.cols && t.Valid()
    ensures t.Entries() == Scaled(s, t1.Entries())
  {
    t := Times(t1, s);
  }

  /** `t1 / s`, defined as `t1 * (1.0 / s)`. */
  method Divide(t1: Tensor, s: real) returns (t: Tensor)
    requires t1.Valid() && s != 0.0
    ensures fresh(t) && fresh(t.d) && t.rows == t1.rows && t.cols == t1.cols && t.Valid()
    ensures t.Entries() == Scaled(1.0 / s, t1.Entries())
  {
    t := Times(t1, 1.0 / s);
  }

  /** `identity()`: a zero n x n tensor with 1 written on the diagonal. */
  method IdentityTensor(n: nat) returns (t: Tensor)
    ensures fresh(t) && fresh(t.d) && t.rows == n && t.cols == n && t.Valid()
    ensures t.Entries() == Identity(n)
  {
    t := new Tensor(n, n);
    var i := 0;
    while i < n
      invariant 0 <= i <= n
      invariant forall r: nat, c: nat :: r < n && c < n ==>
                  At(t.Entries(), n, r, c) == if r == c && r < i then 1.0 else 0.0
    {
      t.Set(i, i, 1.0);
      i := i + 1;
    }
    EqualByEntries(n, n, t.Entries(), Identity(n));
  }

  /** What the accumulating `matmul` loops have stored in entry (r, c) once they are at
      entry (i, j) after k terms: finished entries hold the full inner product, the current
      one its first k terms, the rest still 0. */
  ghost function Progress(a: seq<real>, b: seq<real>, m: nat, l: nat, r: nat, c: nat, i: nat, j: nat, k: nat): real
  {
    if r < i || (r == i && c < j) then Dot(a, b, m, l, r, c, m)
    else if r == i && c == j then Dot(a, b, m, l, r, c, k)
    else 0.0
  }

  /** The innermost loop of `matmul(a, b)`: t(i, j) += a(i, k) * b(k, j) for k < m, starting
      from the zero t(i, j) leaves, and no other entry of t touched. */
  method AccumulateDot(t: Tensor, a: Tensor, b: Tensor, i: nat, j: nat)
    requires t.Valid() && a.Valid() && b.Valid() && a.cols == b.rows
    requires t.rows == a.rows && t.cols == b.cols && i < t.rows && j < t.cols
    requires t.d != a.d && t.d != b.d
    requires At(t.Entries(), t.cols, i, j) == 0.0
    modifies t.d
    ensures At(t.Entries(), t.cols, i, j) == Dot(a.Entries(), b.Entries(), a.cols, b.cols, i, j, a.cols)
    ensures forall r: nat, c: nat :: r < t.rows && c < t.cols && (r != i || c != j) ==>
              At(t.Entries(), t.cols, r, c) == old(At(t.Entries(), t.cols, r, c))
  {
    var m, l := a.cols, b.cols;
    ghost var ae, be := a.Entries(), b.Entries();
    var k := 0;
    while k < m
      invariant 0 <= k <= m
      invariant a.Entries() == ae && b.Entries() == be
      invariant At(t.Entries(), l, i, j) == Dot(ae, be, m, l, i, j, k)
      invariant forall r: nat, c: nat :: r < t.rows && c < l && (r != i || c != j) ==>
                  At(t.Entries(), l, r, c) == old(At(t.Entries(), t.cols, r, c))
    {
      var x := t.Get(i, j) + a.Get(i, k) * b.Get(k, j);
      assert x == Dot(ae, be, m, l, i, j, k + 1);
      t.Set(i, j, x);
      k := k + 1;
    }
  }

  /** `matmul(a, b)` of an n x m and an m x l tensor: t(i, j) += a(i, k) * b(k, j). */
  method MatMul(a: Tensor, b: Tensor) returns (t: Tensor)
    requires a.Valid() && b.Valid() && a.cols == b.rows
    ensures fresh(t) && fresh(t.d) && t.rows == a.rows && t.cols == b.cols && t.Valid()
    ensures t.Entries() == MatrixProduct(a.rows, a.cols, b.cols, a.Entries(), b.Entries())
  {
    var n, m, l := a.rows, a.cols, b.cols;
    ghost var ae, be := a.Entries(), b.Entries();
    t := new Tensor(n, l);
    var i := 0;
    while i < n
      invariant 0 <= i <= n
      invariant fresh(t.d) && t.rows == n && t.cols == l && t.Valid()
      invariant a.Entries() == ae && b.Entries() == be
      invariant forall r: nat, c: nat :: r < n && c < l ==> At(t.Entries(), l, r, c) == Progress(ae, be, m, l, r, c, i, 0, 0)
    {
      var j := 0;
      while j < l
        invariant 0 <= j <= l
        invariant fresh(t.d) && t.rows == n && t.cols == l && t.Valid()
        invariant a.Entries() == ae && b.Entries() == be
        invariant forall r: nat, c: nat :: r < n && c < l ==> At(t.Entries(), l, r, c) == Progress(ae, be, m, l, r, c, i, j, 0)
      {
        AccumulateDot(t, a, b, i, j);
        j := j + 1;
      }
      i := i + 1;
    }
    EqualByEntries(n, l, t.Entries(), MatrixProduct(n, m, l, ae, be));
  }

  /** `matmul(a, v)` of an n x m tensor and an m-vector: t(i) += a(i, j) * v(j), as a fresh
      n-vector. */
  method MatVec(a: Tensor, v: seq<real>) returns (t: seq<real>)
    requires a.Valid() && |v| == a.cols
    ensures t == MatrixVector(a.rows, a.cols, a.Entries(), v)
  {
    var n, m := a.rows, a.cols;
    ghost var ae := a.Entries();
    t := Zeros(n);
    var i := 0;
    while i < n
      invariant 0 <= i <= n && |t| == n
      invariant forall r: nat :: r < n ==> t[r] == Progress(ae, v, m, 1, r, 0, i, 0, 0)
    {
      var j := 0;
      while j < m
        invariant 0 <= j <= m && |t| == n
        invariant forall r: nat :: r < n ==> t[r] == Progress(ae, v, m, 1, r, 0, i, 0, j)
      {
        t := t[i := t[i] + a.Get(i, j) * v[j]];
        j := j + 1;
      }
      i := i + 1;
    }
    ghost var mv := MatrixVector(n, m, ae, v);
    forall r: nat, c: nat | r < n && c < 1 ensures At(t, 1, r, c) == At(mv, 1, r, c) {
      assert At(t, 1, r, c) == t[r];
    }
    EqualByEntries(n, 1, t, mv);
  }

  /** `matmul(v, b)` of an m-vector and an m x n tensor: t(i) += v(j) * b(j, i), as a fresh
      n-vector. */
  method VecMat(v: seq<real>, b: Tensor) returns (t: seq<real>)
    requires b.Valid() && |v| == b.rows
    ensures t == VectorMatrix(b.rows, b.cols, v, b.Entries())
  {
    var m, n := b.rows, b.cols;
    ghost var be := b.Entries();
    t := Zeros(n);
    var i := 0;
    while i < n
      invariant 0 <= i <= n && |t| == n
      invariant forall c: nat :: c < n ==> t[c] == Progress(v, be, m, n, 0, c, 0, i, 0)
    {
      var j := 0;
      while j < m
        invariant 0 <= j <= m && |t| == n
        invariant forall c: nat :: c < n ==> t[c] == Progress(v, be, m, n, 0, c, 0, i, j)
      {
        assert At(v, m, 0, j) == v[j];
        t := t[i := t[i] + v[j] * b.Get(j, i)];
        j := j + 1;
      }
      i := i + 1;
    }
    ghost var vm := VectorMatrix(m, n, v, be);
    forall r: nat, c: nat | r < 1 && c < n ensures At(t, n, r, c) == At(vm, n, r, c) {
      assert At(t, n, r, c) == t[c];
    }
    EqualByEntries(1, n, t, vm);
  }
}
