/** The lattice geometry of `Grid` (src/tools/Grid.h): `nbin_[k]` bins along each of the
    `dimension_` axes, a periodicity flag per axis, and the conversions between a flat cell
    index and the tuple of per-axis indices.

    The flat index is mixed-radix, row-major, LAST axis fastest:
      index = i_0 * nbin_1 * ... * nbin_{d-1} + i_1 * nbin_2 * ... * nbin_{d-1} + ... + i_{d-1}. */
module GridIndex {
  import opened Radix

  /** `Grid::maxdim`: the largest number of axes a grid may have. */
  const MaxDim: nat := 64

  /** The number of cells of the lattice, `maxsize_`: the product of the bin counts. */
  function Size(nbin: seq<nat>): nat
  {
    if |nbin| == 0 then 1 else nbin[0] * Size(nbin[1..])
  }

  /** A tuple of per-axis indices of the lattice: one per axis, each below its bin count. */
  predicate InRange(nbin: seq<nat>, t: seq<nat>)
  {
    |t| == |nbin| && forall k :: 0 <= k < |t| ==> t[k] < nbin[k]
  }

  /** `getIndex(indices)`: the flat index of a tuple, mixed-radix with the last axis fastest.
      Every tuple in range has a flat index below the lattice size. */
  function Index(nbin: seq<nat>, t: seq<nat>): (x: nat)
    requires |t| == |nbin|
    ensures InRange(nbin, t) ==> x < Size(nbin)
  {
    if |nbin| == 0 then 0
    else
      var c, j := Size(nbin[1..]), Index(nbin[1..], t[1..]);
      if InRange(nbin, t) then
        InRangeTail(nbin, t);
        FlatBound(nbin[0], c, t[0], j);
        c * t[0] + j
      else
        c * t[0] + j
  }

  /** `getIndices(index)`: the tuple of a flat index below the lattice size, by successive
      division and remainder from the slowest axis to the fastest. */
  function Indices(nbin: seq<nat>, x: nat): (t: seq<nat>)
    requires x < Size(nbin)
    ensures InRange(nbin, t)
  {
    if |nbin| == 0 then []
    else
      var c := Size(nbin[1..]);
      QuotientBound(x, nbin[0], c);
      var rest := Indices(nbin[1..], x % c);
      assert forall k :: 1 <= k < |nbin| ==> ([x / c] + rest)[k] == rest[k - 1];
      [x / c] + rest
  }

  /** The tail of a tuple in range is in range for the remaining axes. */
  lemma InRangeTail(nbin: seq<nat>, t: seq<nat>)
    requires InRange(nbin, t) && |nbin| > 0
    ensures InRange(nbin[1..], t[1..]) && t[0] < nbin[0]
  {
    assert forall k :: 0 <= k < |t| - 1 ==> t[1..][k] == t[k + 1];
  }

  /** `getIndices(getIndex(t)) == t` for every tuple in range. */
  lemma {:induction false} IndicesOfIndex(nbin: seq<nat>, t: seq<nat>)
    requires InRange(nbin, t)
    ensures Index(nbin, t) < Size(nbin)
    ensures Indices(nbin, Index(nbin, t)) == t
  {
    if |nbin| > 0 {
      var c, j := Size(nbin[1..]), Index(nbin[1..], t[1..]);
      InRangeTail(nbin, t);
      IndicesOfIndex(nbin[1..], t[1..]);
      DivModOfFlat(c, t[0], j);
      assert t == [t[0]] + t[1..];
    }
  }

  /** `getIndex(getIndices(x)) == x` for every flat index below the lattice size. */
  lemma {:induction false} IndexOfIndices(nbin: seq<nat>, x: nat)
    requires x < Size(nbin)
    ensures Index(nbin, Indices(nbin, x)) == x
  {
    if |nbin| > 0 {
      var c := Size(nbin[1..]);
      QuotientBound(x, nbin[0], c);
      var t := Indices(nbin, x);
      assert t[1..] == Indices(nbin[1..], x % c);
      IndexOfIndices(nbin[1..], x % c);
    }
  }

  /** Distinct tuples in range have distinct flat indices. */
  lemma IndexInjective(nbin: seq<nat>, t: seq<nat>, u: seq<nat>)
    requires InRange(nbin, t) && InRange(nbin, u)
    ensures Index(nbin, t) == Index(nbin, u) <==> t == u
  {
    IndicesOfIndex(nbin, t);
    IndicesOfIndex(nbin, u);
  }

  // ---------------------------------------------------------------------------------------
  // Nearest neighbours

  datatype Option<T> = None | Some(value: T)

  /** One lattice step from index i along an axis with n bins, down or up: a periodic axis
      wraps around, a non-periodic one has no cell past its ends. */
  function Step(n: nat, i: nat, up: bool, periodic: bool): (o: Option<nat>)
    requires i < n
    ensures o.Some? ==> o.value < n
  {
    if up then
      if i + 1 < n then Some(i + 1) else if periodic then Some(0) else None
    else
      if i > 0 then Some(i - 1) else if periodic then Some(n - 1) else None
  }

  /** Indices a and b along an axis with n bins are one lattice unit apart, counting the
      wrap-around between the two ends when the axis is periodic. */
  predicate Unit(n: nat, periodic: bool, a: nat, b: nat)
  {
    b == a + 1 || a == b + 1 || (periodic && ((a + 1 == n && b == 0) || (a == 0 && b + 1 == n)))
  }

  /** Tuple u is one lattice unit away from t: it differs from t along a single axis, and
      there by one unit. */
  predicate OneUnitAway(nbin: seq<nat>, pbc: seq<bool>, t: seq<nat>, u: seq<nat>)
    requires |pbc| == |nbin| && |t| == |nbin|
  {
    |u| == |t| &&
    exists k :: 0 <= k < |t| && Unit(nbin[k], pbc[k], t[k], u[k]) && u == t[k := u[k]]
  }

  /** The flat index reached by the step o along axis k, unless there is no such cell or the
      step comes back to t itself (a periodic axis of one bin). */
  function Keep(nbin: seq<nat>, t: seq<nat>, k: nat, o: Option<nat>): (r: seq<nat>)
    requires InRange(nbin, t) && k < |nbin|
    requires o.Some? ==> o.value < nbin[k]
    ensures |r| <= 1
  {
    match o
    case None => []
    case Some(c) =>
      if Index(nbin, t[k := c]) != Index(nbin, t) then [Index(nbin, t[k := c])] else []
  }

  /** The nearest neighbours of t along the axes from k on: for each axis, one step down and
      one step up. */
  function NeighborsFrom(nbin: seq<nat>, pbc: seq<bool>, t: seq<nat>, k: nat): (r: seq<nat>)
    requires InRange(nbin, t) && |pbc| == |nbin| && k <= |nbin|
    ensures |r| <= 2 * (|nbin| - k)
    decreases |nbin| - k
  {
    if k == |nbin| then []
    else
      Keep(nbin, t, k, Step(nbin[k], t[k], false, pbc[k]))
      + Keep(nbin, t, k, Step(nbin[k], t[k], true, pbc[k]))
      + NeighborsFrom(nbin, pbc, t, k + 1)
  }

  /** `getNearestNeighbors(indices)`: the flat indices of the cells one lattice unit away,
      at most two per axis. */
  function NearestNeighbors(nbin: seq<nat>, pbc: seq<bool>, t: seq<nat>): (r: seq<nat>)
    requires InRange(nbin, t) && |pbc| == |nbin|
    ensures |r| <= 2 * |nbin|
  {
    NeighborsFrom(nbin, pbc, t, 0)
  }

  /** `getNearestNeighbors(index)`: the same, starting from a flat index. The result lists
      exactly the other cells one lattice unit away from cell x. */
  function NearestNeighborsOfIndex(nbin: seq<nat>, pbc: seq<bool>, x: nat): (r: seq<nat>)
    requires x < Size(nbin) && |pbc| == |nbin|
    ensures |r| <= 2 * |nbin|
    ensures forall y: nat :: y in r <==>
              y < Size(nbin) && y != x && OneUnitAway(nbin, pbc, Indices(nbin, x), Indices(nbin, y))
  {
    var t := Indices(nbin, x);
    IndexOfIndices(nbin, x);
    var r := NearestNeighbors(nbin, pbc, t);
    assert forall y: nat :: y in r <==>
             y < Size(nbin) && y != x && OneUnitAway(nbin, pbc, t, Indices(nbin, y)) by {
      forall y | y in r
        ensures y < Size(nbin) && y != x && OneUnitAway(nbin, pbc, t, Indices(nbin, y))
      {
        NearestNeighborsSound(nbin, pbc, t, y);
      }
      forall y: nat | y < Size(nbin) && y != x && OneUnitAway(nbin, pbc, t, Indices(nbin, y))
        ensures y in r
      {
        var u := Indices(nbin, y);
        IndexOfIndices(nbin, y);
        NearestNeighborsComplete(nbin, pbc, t, u);
      }
    }
    r
  }

  /** A step that exists leads to a tuple in range, one lattice unit away. */
  lemma StepIsUnit(nbin: seq<nat>, pbc: seq<bool>, t: seq<nat>, k: nat, up: bool)
    requires InRange(nbin, t) && |pbc| == |nbin| && k < |nbin|
    requires Step(nbin[k], t[k], up, pbc[k]).Some?
    ensures InRange(nbin, t[k := Step(nbin[k], t[k], up, pbc[k]).value])
    ensures OneUnitAway(nbin, pbc, t, t[k := Step(nbin[k], t[k], up, pbc[k]).value])
  {
    var u := t[k := Step(nbin[k], t[k], up, pbc[k]).value];
    assert Unit(nbin[k], pbc[k], t[k], u[k]) && u == t[k := u[k]];
  }

  /** The cell kept for one step along axis k is a cell of the lattice other than t, one
      lattice unit away. */
  lemma KeepSound(nbin: seq<nat>, pbc: seq<bool>, t: seq<nat>, k: nat, up: bool, y: nat)
    requires InRange(nbin, t) && |pbc| == |nbin| && k < |nbin|
    requires y in Keep(nbin, t, k, Step(nbin[k], t[k], up, pbc[k]))
    ensures y < Size(nbin) && y != Index(nbin, t)
    ensures OneUnitAway(nbin, pbc, t, Indices(nbin, y))
  {
    var u := t[k := Step(nbin[k], t[k], up, pbc[k]).value];
    StepIsUnit(nbin, pbc, t, k, up);
    IndicesOfIndex(nbin, u);
  }

  /** Every nearest neighbour is a cell of the lattice other than t, one lattice unit away. */
  lemma {:induction false} NeighborsFromSound(nbin: seq<nat>, pbc: seq<bool>, t: seq<nat>, k: nat, y: nat)
    requires InRange(nbin, t) && |pbc| == |nbin| && k <= |nbin|
    requires y in NeighborsFrom(nbin, pbc, t, k)
    ensures y < Size(nbin) && y != Index(nbin, t)
    ensures OneUnitAway(nbin, pbc, t, Indices(nbin, y))
    decreases |nbin| - k
  {
    if y in Keep(nbin, t, k, Step(nbin[k], t[k], false, pbc[k])) {
      KeepSound(nbin, pbc, t, k, false, y);
    } else if y in Keep(nbin, t, k, Step(nbin[k], t[k], true, pbc[k])) {
      KeepSound(nbin, pbc, t, k, true, y);
    } else {
      NeighborsFromSound(nbin, pbc, t, k + 1, y);
    }
  }

  /** Soundness of `getNearestNeighbors`. */
  lemma NearestNeighborsSound(nbin: seq<nat>, pbc: seq<bool>, t: seq<nat>, y: nat)
    requires InRange(nbin, t) && |pbc| == |nbin|
    requires y in NearestNeighbors(nbin, pbc, t)
    ensures y < Size(nbin) && y != Index(nbin, t)
    ensures OneUnitAway(nbin, pbc, t, Indices(nbin, y))
  {
    NeighborsFromSound(nbin, pbc, t, 0, y);
  }

  /** A cell one unit away along axis k is reached by the step down or the step up. */
  lemma UnitIsStep(n: nat, periodic: bool, a: nat, b: nat)
    requires a < n && b < n && a != b && Unit(n, periodic, a, b)
    ensures Step(n, a, false, periodic) == Some(b) || Step(n, a, true, periodic) == Some(b)
  {
  }

  /** The neighbours from axis k on include every cell other than t one unit away along an
      axis from k on. */
  lemma {:induction false} NeighborsFromComplete(nbin: seq<nat>, pbc: seq<bool>, t: seq<nat>, k: nat, j: nat, u: seq<nat>)
    requires InRange(nbin, t) && InRange(nbin, u) && |pbc| == |nbin| && k <= j < |nbin|
    requires Unit(nbin[j], pbc[j], t[j], u[j]) && u == t[j := u[j]] && u != t
    ensures Index(nbin, u) in NeighborsFrom(nbin, pbc, t, k)
    decreases j - k
  {
    if k < j {
      NeighborsFromComplete(nbin, pbc, t, k + 1, j, u);
    } else {
      IndexInjective(nbin, t, u);
      UnitIsStep(nbin[j], pbc[j], t[j], u[j]);
    }
  }

  /** Completeness of `getNearestNeighbors`: every other cell one lattice unit away is listed. */
  lemma NearestNeighborsComplete(nbin: seq<nat>, pbc: seq<bool>, t: seq<nat>, u: seq<nat>)
    requires InRange(nbin, t) && InRange(nbin, u) && |pbc| == |nbin|
    requires OneUnitAway(nbin, pbc, t, u) && u != t
    ensures Index(nbin, u) in NearestNeighbors(nbin, pbc, t)
  {
    var j :| 0 <= j < |t| && Unit(nbin[j], pbc[j], t[j], u[j]) && u == t[j := u[j]];
    NeighborsFromComplete(nbin, pbc, t, 0, j, u);
  }
}
