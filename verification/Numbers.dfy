/** Values shared by every component: array cells that may be NaN, and optional results. */
module Numbers {

  datatype Option<+T> = None | Some(value: T)

  /** A Python call that either returns a value or raises an exception carrying a message. */
  datatype Result<+T> = Ok(value: T) | Err(error: string)

  /** One cell of a numpy array of floats, over exact reals. */
  datatype Num = NaN | Val(value: real)

  /** Floating-point addition: NaN absorbs. */
  function Plus(a: Num, b: Num): Num {
    if a.NaN? || b.NaN? then NaN else Val(a.value + b.value)
  }

  function Minus(a: Num, b: Num): Num {
    if a.NaN? || b.NaN? then NaN else Val(a.value - b.value)
  }

  function Abs(x: real): real {
    if x < 0.0 then -x else x
  }

  function Min(a: nat, b: nat): nat {
    if a < b then a else b
  }

  function Sum(s: seq<real>): real {
    if |s| == 0 then 0.0 else Sum(s[..|s| - 1]) + s[|s| - 1]
  }

  lemma {:induction false} SumAppend(a: seq<real>, b: seq<real>)
    ensures Sum(a + b) == Sum(a) + Sum(b)
  {
    if |b| == 0 {
      assert a + b == a;
    } else {
      assert (a + b)[..|a + b| - 1] == a + b[..|b| - 1];
      SumAppend(a, b[..|b| - 1]);
    }
  }

  lemma SumOne(x: real)
    ensures Sum([x]) == x
  {
    assert [x][..0] == [];
  }

  predicate Distinct<T(==)>(s: seq<T>) {
    forall i, j :: 0 <= i < j < |s| ==> s[i] != s[j]
  }

  predicate Ascending(s: seq<real>) {
    forall i, j :: 0 <= i < j < |s| ==> s[i] < s[j]
  }

  /** numpy's flip along the first axis. */
  function Flip<T>(s: seq<T>): (f: seq<T>)
    ensures |f| == |s|
    ensures forall i :: 0 <= i < |s| ==> f[i] == s[|s| - 1 - i]
  {
    seq(|s|, i requires 0 <= i < |s| => s[|s| - 1 - i])
  }

  lemma Cancel(a: real, b: real, m: real)
    requires m > 0.0 && a * m <= b * m
    ensures a <= b
  {}

  /** Multiplication of reals under a name, so that products are compared as terms. */
  function Times(a: real, b: real): real {
    a * b
  }

  lemma TimesOrder(m: real, a: real, b: real)
    requires m >= 0.0 && a <= b
    ensures Times(m, a) <= Times(m, b)
  {}

  lemma TimesFacts(a: real, b: real, m: real)
    ensures Times(m, 0.0) == 0.0 && Times(m, 1.0) == m
    ensures Times(m, a + b) == Times(m, a) + Times(m, b)
    ensures Times(-m, a) == -Times(m, a) && Times(a, m) == Times(m, a)
  {}

  /** numpy's around: the nearest integer, a tie going to the even neighbour. */
  function RoundHalfEven(x: real): (n: int)
    ensures -0.5 <= x - n as real <= 0.5
    ensures (x - n as real == 0.5 || x - n as real == -0.5) ==> n % 2 == 0
  {
    var f := x.Floor;
    var d := x - f as real;
    if d < 0.5 then f else if d > 0.5 then f + 1 else if f % 2 == 0 then f else f + 1
  }
}
