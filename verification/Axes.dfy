/** The coordinate axes a DEM is loaded with: numpy.linspace over the raster's outer edges. */
module Axes {
  import opened Numbers

  /** n evenly spaced values from a to b, both included. */
  function Linspace(a: real, b: real, n: nat): (s: seq<real>)
    ensures |s| == n
  {
    seq(n, i requires 0 <= i < n => if n == 1 then a else a + i as real * ((b - a) / (n - 1) as real))
  }

  lemma LinspaceEnds(a: real, b: real, n: nat)
    requires n > 0
    ensures Linspace(a, b, n)[0] == a && (n > 1 ==> Linspace(a, b, n)[n - 1] == b)
  {
    if n > 1 {
      var m := (n - 1) as real;
      assert m * ((b - a) / m) == b - a;
    }
  }

  /** Each value is the one before it plus s. */
  predicate Stepped(axis: seq<real>, s: real) {
    forall i, j :: 0 <= i < |axis| && 0 <= j < |axis| && j == i + 1 ==> axis[j] == axis[i] + s
  }

  lemma StepBounds(s: real, m: real, b: real)
    requires m >= 1.0 && b > 0.0 && s * m == (m + 1.0) * b
    ensures b < s <= 2.0 * b
  {
    assert (m + 1.0) * b == m * b + b;
    assert (2.0 * b) * m == m * b + m * b;
    assert b * m == m * b;
    Cancel(1.0, m, b);
    assert m * b >= b;
    Cancel(s, 2.0 * b, m);
    Cancel(b, s, m);
  }

  /** The axis of n pixels of width b has steps longer than b, but at most twice as long. */
  lemma LinspaceSteps(a: real, b: real, n: nat)
    requires n >= 2 && b > 0.0
    ensures var s := (n as real * b) / (n - 1) as real;
            b < s <= 2.0 * b && Stepped(Linspace(a, a + n as real * b, n), s)
  {
    var m := (n - 1) as real;
    var s := (n as real * b) / m;
    assert n as real == m + 1.0;
    assert s * m == (m + 1.0) * b;
    StepBounds(s, m, b);
    var axis := Linspace(a, a + n as real * b, n);
    forall i, j | 0 <= i < n && 0 <= j < n && j == i + 1
      ensures axis[j] == axis[i] + s
    {
      assert j as real * s == i as real * s + s;
    }
  }

  lemma {:induction false} SteppedOrder(axis: seq<real>, s: real, i: nat, j: nat)
    requires Stepped(axis, s) && s > 0.0 && i <= j < |axis|
    ensures axis[i] <= axis[j] && (i < j ==> axis[i] < axis[j])
    decreases j
  {
    if i < j { SteppedOrder(axis, s, i, j - 1); }
  }

  lemma FlippedSteps(axis: seq<real>, s: real)
    requires Stepped(axis, s)
    ensures Stepped(Flip(axis), -s)
  {
    var r := Flip(axis);
    forall i, j | 0 <= i < |r| && 0 <= j < |r| && j == i + 1
      ensures r[j] == r[i] - s
    {
      assert r[j] == axis[|r| - 1 - j] && r[i] == axis[|r| - 1 - i];
    }
  }
}
