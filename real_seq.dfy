/** Elementwise arithmetic on flat stores of reals, and their least and greatest elements.
    A tensor's entries and a grid's values and derivative vectors are all such stores. */
module RealSeq {

  /** A store of k zeros. */
  function Zeros(k: nat): (z: seq<real>)
  {
    seq(k, p => 0.0)
  }

  /** Elementwise sum. */
  function Sum(a: seq<real>, b: seq<real>): (r: seq<real>)
    requires |a| == |b|
  {
    seq(|a|, p requires 0 <= p < |a| => a[p] + b[p])
  }

  /** Elementwise difference. */
  function Difference(a: seq<real>, b: seq<real>): (r: seq<real>)
    requires |a| == |b|
  {
    seq(|a|, p requires 0 <= p < |a| => a[p] - b[p])
  }

  /** Every element multiplied by s. */
  function Scaled(s: real, a: seq<real>): (r: seq<real>)
  {
    seq(|a|, p requires 0 <= p < |a| => s * a[p])
  }

  /** Every element negated. */
  function Negated(a: seq<real>): (r: seq<real>)
  {
    seq(|a|, p requires 0 <= p < |a| => -a[p])
  }

  /** Every element moved by the same constant c. */
  function Shifted(a: seq<real>, c: real): (r: seq<real>)
  {
    seq(|a|, p requires 0 <= p < |a| => a[p] + c)
  }

  /** The least element, found by extending a prefix's minimum one element at a time. */
  function Minimum(a: seq<real>): (lo: real)
    requires |a| > 0
  {
    if |a| == 1 then a[0]
    else
      var rest := Minimum(a[..|a| - 1]);
      if a[|a| - 1] < rest then a[|a| - 1] else rest
  }

  /** The greatest element. */
  function Maximum(a: seq<real>): (hi: real)
    requires |a| > 0
  {
    if |a| == 1 then a[0]
    else
      var rest := Maximum(a[..|a| - 1]);
      if a[|a| - 1] > rest then a[|a| - 1] else rest
  }

  /** The minimum is an element, and no element is smaller. */
  lemma {:induction false} MinimumIsLeast(a: seq<real>)
    requires |a| > 0
    ensures exists p :: 0 <= p < |a| && a[p] == Minimum(a)
    ensures forall p :: 0 <= p < |a| ==> Minimum(a) <= a[p]
  {
    if |a| > 1 {
      var init := a[..|a| - 1];
      MinimumIsLeast(init);
      assert forall p :: 0 <= p < |a| - 1 ==> init[p] == a[p];
      var q :| 0 <= q < |init| && init[q] == Minimum(init);
      if a[|a| - 1] < Minimum(init) {
        assert a[|a| - 1] == Minimum(a);
      } else {
        assert a[q] == Minimum(a);
      }
    } else {
      assert a[0] == Minimum(a);
    }
  }

  /** The maximum is an element, and no element is greater. */
  lemma {:induction false} MaximumIsGreatest(a: seq<real>)
    requires |a| > 0
    ensures exists p :: 0 <= p < |a| && a[p] == Maximum(a)
    ensures forall p :: 0 <= p < |a| ==> a[p] <= Maximum(a)
  {
    if |a| > 1 {
      var init := a[..|a| - 1];
      MaximumIsGreatest(init);
      assert forall p :: 0 <= p < |a| - 1 ==> init[p] == a[p];
      var q :| 0 <= q < |init| && init[q] == Maximum(init);
      if a[|a| - 1] > Maximum(init) {
        assert a[|a| - 1] == Maximum(a);
      } else {
        assert a[q] == Maximum(a);
      }
    } else {
      assert a[0] == Maximum(a);
    }
  }

  /** Subtracting what was added gives the store back. */
  lemma DifferenceUndoesSum(a: seq<real>, b: seq<real>)
    requires |a| == |b|
    ensures Difference(Sum(a, b), b) == a
  {
    assert forall p :: 0 <= p < |a| ==> Difference(Sum(a, b), b)[p] == a[p];
  }

  /** Scaling by 1/s and scaling by s undo each other. */
  lemma ScaledUndo(s: real, a: seq<real>)
    requires s != 0.0
    ensures Scaled(1.0 / s, Scaled(s, a)) == a
    ensures Scaled(s, Scaled(1.0 / s, a)) == a
  {
    forall p | 0 <= p < |a|
      ensures Scaled(1.0 / s, Scaled(s, a))[p] == a[p] && Scaled(s, Scaled(1.0 / s, a))[p] == a[p]
    {
      calc {
        Scaled(1.0 / s, Scaled(s, a))[p];
        (1.0 / s) * (s * a[p]);
        ((1.0 / s) * s) * a[p];
        a[p];
      }
      calc {
        Scaled(s, Scaled(1.0 / s, a))[p];
        s * ((1.0 / s) * a[p]);
        (s * (1.0 / s)) * a[p];
        a[p];
      }
    }
  }

  /** Scaling twice is scaling once by the product. */
  lemma ScaledTwice(s: real, t: real, a: seq<real>)
    ensures Scaled(s, Scaled(t, a)) == Scaled(s * t, a)
  {
    forall p | 0 <= p < |a| ensures Scaled(s, Scaled(t, a))[p] == Scaled(s * t, a)[p] {
      assert s * (t * a[p]) == (s * t) * a[p];
    }
  }

  /** Scaling by 1 changes nothing. */
  lemma ScaledByOne(a: seq<real>)
    ensures Scaled(1.0, a) == a
  {
    assert forall p :: 0 <= p < |a| ==> Scaled(1.0, a)[p] == a[p];
  }

  /** Negation is scaling by -1. */
  lemma NegatedIsScaled(a: seq<real>)
    ensures Negated(a) == Scaled(-1.0, a)
  {
    assert forall p :: 0 <= p < |a| ==> Negated(a)[p] == Scaled(-1.0, a)[p];
  }

  /** Moving every element by c moves the minimum and the maximum by c. */
  lemma {:induction false} ShiftedExtremes(a: seq<real>, c: real, b: seq<real>)
    requires |a| > 0 && b == Shifted(a, c)
    ensures Minimum(b) == Minimum(a) + c
    ensures Maximum(b) == Maximum(a) + c
  {
    if |a| > 1 {
      var init := a[..|a| - 1];
      assert b[..|b| - 1] == Shifted(init, c);
      ShiftedExtremes(init, c, b[..|b| - 1]);
    }
  }

  /** Moving every element by minus the minimum leaves a store whose minimum is 0 and whose
      maximum is the old spread. */
  lemma MinimumToZero(a: seq<real>, b: seq<real>)
    requires |a| > 0 && b == Shifted(a, -Minimum(a))
    ensures Minimum(b) == 0.0
    ensures Maximum(b) == Maximum(a) - Minimum(a)
  {
    assert |b| == |a|;
    ShiftedExtremes(a, -Minimum(a), b);
  }
}
