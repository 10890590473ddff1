/** fastsmooth: a sliding mean kept as a running sum, with tapered ends. */
module Smoothing {
  import opened Numbers

  lemma {:induction false} SumFront(s: seq<real>)
    requires |s| > 0
    ensures Sum(s) == s[0] + Sum(s[1..])
  {
    if |s| == 1 {
      assert s[..0] == [] && s[1..] == [];
    } else {
      SumFront(s[..|s| - 1]);
      assert s[..|s| - 1][1..] == s[1..][..|s| - 2];
    }
  }

  /** Sum of the w samples from k on. */
  function WindowSum(a: seq<real>, k: nat, w: nat): real
    requires k + w <= |a|
  {
    Sum(a[k..k + w])
  }

  /** The incremental update: drop the oldest sample, add the next one. */
  lemma SlideWindow(a: seq<real>, k: nat, w: nat)
    requires k + w < |a| && w > 0
    ensures WindowSum(a, k + 1, w) == WindowSum(a, k, w) - a[k] + a[k + w]
  {
    SumFront(a[k..k + w]);
    assert a[k..k + w][1..] == a[k + 1..k + w];
    assert a[k + 1..k + 1 + w][..w - 1] == a[k + 1..k + w];
  }

  /** int(np.around(width / 2)) */
  function HalfWidth(w: nat): (h: int)
    ensures 2 * h == w || 2 * h == w - 1 || 2 * h == w + 1
    ensures w >= 2 ==> 1 <= h < w
    ensures w == 1 ==> h == 0
    ensures w % 2 == 1 ==> h % 2 == 0
  {
    var h := RoundHalfEven(w as real / 2.0);
    assert -1.0 <= w as real - 2.0 * h as real <= 1.0;
    h
  }

  /** Python's index i into a list of n: -1 is the last. */
  function Wrapped(i: int, n: nat): (j: int)
    requires -1 <= i < n && n > 0
    ensures 0 <= j < n
  {
    if i < 0 then i + n else i
  }

  /**
   Output of the running-sum loop and of the end write at index j, before division. A width of 1 has
   half width 0, so that its first sum goes to index -1, the last.
   */
  function Raw(a: seq<real>, w: nat, j: nat): real
    requires 1 <= w < |a| && j < |a|
  {
    var h := HalfWidth(w);
    if h - 1 <= j < |a| - w + h - 1 then WindowSum(a, j + 1 - h, w)
    else if j == |a| - w - 1 + h then Sum(a[|a| - w + 1..])
    else if h == 0 && j == |a| - 1 then WindowSum(a, 0, w)
    else 0.0
  }

  function Taper(w: nat): nat {
    (w + 1) / 2
  }

  /** Taper at index k from the start: the mean of the first 2k + 1 samples. */
  function HeadMean(a: seq<real>, k: nat): real
    requires 2 * k + 1 <= |a|
  {
    Sum(a[0..2 * k + 1]) / (2 * k + 1) as real
  }

  /** Taper at k before the last index: the mean of the 2k - 1 samples before the last one. */
  function TailMean(a: seq<real>, k: nat): real
    requires 0 < k && 2 * k <= |a|
  {
    Sum(a[|a| - 2 * k..|a| - 1]) / (2 * k - 1) as real
  }

  function Scaled(a: seq<real>, w: nat, j: nat): real
    requires 1 <= w < |a| && j < |a|
  {
    Raw(a, w, j) / w as real
  }

  /** The smoothed value at index j. */
  function Smoothed(a: seq<real>, w: nat, j: nat): real
    requires 1 <= w < |a| && j < |a|
  {
    if j == 0 then (a[0] + a[1]) / 2.0
    else if j < Taper(w) then HeadMean(a, j)
    else if |a| - 1 - Taper(w) < j < |a| - 1 then TailMean(a, |a| - 1 - j)
    else Scaled(a, w, j)
  }

  /** The running-sum loop and the end write. */
  method RunningSums(a: seq<real>, w: nat) returns (sss: array<real>)
    requires 1 <= w < |a|
    ensures fresh(sss) && sss.Length == |a|
    ensures forall j :: 0 <= j < |a| ==> sss[j] == Raw(a, w, j)
  {
    var length, halfw := |a|, HalfWidth(w);
    var sumPoints := Sum(a[0..w]);
    sss := new real[length](_ => 0.0);
    for k := 0 to length - w
      invariant sumPoints == WindowSum(a, k, w)
      invariant forall j :: 0 <= j < length ==>
        sss[j] == if halfw - 1 <= j < halfw - 1 + k then WindowSum(a, j + 1 - halfw, w)
                  else if halfw == 0 && k > 0 && j == length - 1 then WindowSum(a, 0, w)
                  else 0.0
    {
      sss[Wrapped(k + halfw - 1, length)] := sumPoints;
      SlideWindow(a, k, w);
      sumPoints := sumPoints - a[k];
      sumPoints := sumPoints + a[k + w];
    }
    sss[length - w - 1 + halfw] := Sum(a[length - w + 1..length]);
    assert a[length - w + 1..length] == a[length - w + 1..];
  }

  method Divide(a: seq<real>, w: nat, sss: array<real>) returns (s: array<real>)
    requires 1 <= w < |a| == sss.Length && forall j :: 0 <= j < |a| ==> sss[j] == Raw(a, w, j)
    ensures fresh(s) && s.Length == |a| && forall j :: 0 <= j < |a| ==> s[j] == Scaled(a, w, j)
  {
    s := new real[|a|](_ => 0.0);
    for j := 0 to |a|
      invariant forall i :: 0 <= i < j ==> s[i] == Scaled(a, w, i)
    {
      s[j] := sss[j] / w as real;
    }
  }

  /** Overwrite the ends: index 0, then one value from the start and one from the end per step. */
  method OverwriteEnds(s: array<real>, first: real, head: seq<real>, tail: seq<real>)
    requires 1 <= |head| == |tail| && 2 * |head| <= s.Length
    modifies s
    ensures forall j :: 0 <= j < s.Length ==>
      s[j] == if j == 0 then first
              else if j < |head| then head[j]
              else if s.Length - 1 - |head| < j < s.Length - 1 then tail[s.Length - 1 - j]
              else old(s[j])
  {
    s[0] := first;
    for k := 1 to |head|
      invariant s[0] == first
      invariant forall j :: 1 <= j < k ==> s[j] == head[j]
      invariant forall j :: s.Length - 1 - k < j < s.Length - 1 ==> s[j] == tail[s.Length - 1 - j]
      invariant forall j :: k <= j <= s.Length - 1 - k || j == s.Length - 1 > 0 ==> s[j] == old(s[j])
    {
      s[k] := head[k];
      s[s.Length - 1 - k] := tail[k];
    }
  }

  /** The taper values, by distance from the end of the signal they go to. */
  method TaperEnds(a: seq<real>, w: nat, s: array<real>)
    requires 1 <= w < |a| == s.Length && forall j :: 0 <= j < |a| ==> s[j] == Scaled(a, w, j)
    modifies s
    ensures forall j :: 0 <= j < |a| ==> s[j] == Smoothed(a, w, j)
  {
    var startpoint := Taper(w);
    var head := seq(startpoint, k requires 0 <= k < startpoint => HeadMean(a, k));
    var tail := seq(startpoint, k requires 0 <= k < startpoint => if k == 0 then 0.0 else TailMean(a, k));
    OverwriteEnds(s, (a[0] + a[1]) / 2.0, head, tail);
  }

  /** fastsmooth: the input itself for a width of 0 or above its length; a single sample raises. */
  method FastSmooth(a: seq<real>, smoothwidth: nat) returns (r: Result<seq<real>>)
    ensures r.Err? <==> |a| == smoothwidth == 1
    ensures smoothwidth == 0 || smoothwidth > |a| ==> r == Ok(a)
    ensures r.Ok? && 0 < smoothwidth <= |a| ==>
      |r.value| == |a| && forall j :: 0 <= j < |a| ==>
        r.value[j] == Smoothed(a, if smoothwidth == |a| then |a| - 1 else smoothwidth, j)
  {
    if smoothwidth == 0 || smoothwidth > |a| { return Ok(a); }
    if |a| == 1 { return Err("IndexError: index 1 is out of bounds for axis 0 with size 1"); }
    var w := if smoothwidth >= |a| then |a| - 1 else smoothwidth;
    var sss := RunningSums(a, w);
    var s := Divide(a, w, sss);
    TaperEnds(a, w, s);
    r := Ok(s[..]);
  }

  // ---- What the smoothed values are ----

  predicate Interior(a: seq<real>, w: nat, j: nat)
    requires 1 <= w < |a|
  {
    && 1 <= j && Taper(w) <= j <= |a| - 1 - Taper(w)
    && HalfWidth(w) - 1 <= j < |a| - w + HalfWidth(w) - 1
  }

  lemma {:induction false} SumBounds(s: seq<real>, lo: real, hi: real)
    requires forall i :: 0 <= i < |s| ==> lo <= s[i] <= hi
    ensures lo * |s| as real <= Sum(s) <= hi * |s| as real
  {
    if |s| > 0 {
      SumBounds(s[..|s| - 1], lo, hi);
      assert |s| as real == (|s| - 1) as real + 1.0;
      assert lo * |s| as real == lo * (|s| - 1) as real + lo;
      assert hi * |s| as real == hi * (|s| - 1) as real + hi;
    }
  }

  lemma MeanBounds(sum: real, n: real, lo: real, hi: real)
    requires n > 0.0 && lo * n <= sum <= hi * n
    ensures lo <= sum / n <= hi
  {
    var m := sum / n;
    assert m * n == sum;
    Cancel(lo, m, n);
    Cancel(m, hi, n);
  }

  /** An interior output is the mean of its window, and so lies between any bounds on the window. */
  lemma InteriorIsWindowMean(a: seq<real>, w: nat, j: nat, lo: real, hi: real)
    requires 1 <= w < |a| && Interior(a, w, j)
    requires forall i :: j + 1 - HalfWidth(w) <= i < j + 1 - HalfWidth(w) + w ==> lo <= a[i] <= hi
    ensures var k := j + 1 - HalfWidth(w); Smoothed(a, w, j) == Sum(a[k..k + w]) / w as real
    ensures lo <= Smoothed(a, w, j) <= hi
  {
    var k := j + 1 - HalfWidth(w);
    SumBounds(a[k..k + w], lo, hi);
    MeanBounds(WindowSum(a, k, w), w as real, lo, hi);
  }

  /** The last output is never written, so 0 whatever the input, unless the width is 1: then it is the first sample. */
  lemma LastOutput(a: seq<real>, w: nat)
    requires 1 <= w < |a|
    ensures Smoothed(a, w, |a| - 1) == if w == 1 then a[0] else 0.0
  {
    if w == 1 {
      assert a[0..1] == [a[0]] && [a[0]][..0] == [];
      assert Sum([a[0]]) == a[0];
    } else {
      assert Raw(a, w, |a| - 1) == 0.0;
      assert 0.0 / w as real == 0.0;
    }
  }

  /** The taper at the start: the mean of the first two samples, then of the first 3, 5, 7, ... */
  lemma HeadOutputs(a: seq<real>, w: nat, k: nat)
    requires 1 <= w < |a|
    ensures Smoothed(a, w, 0) == (a[0] + a[1]) / 2.0
    ensures 1 <= k < (w + 1) / 2 ==> Smoothed(a, w, k) * (2 * k + 1) as real == Sum(a[..2 * k + 1])
  {
    if 1 <= k < (w + 1) / 2 {
      var n := (2 * k + 1) as real;
      assert a[0..2 * k + 1] == a[..2 * k + 1];
      assert Sum(a[..2 * k + 1]) / n * n == Sum(a[..2 * k + 1]);
    }
  }

  /** The taper at the end: the mean of the 1, 3, 5, ... samples before the last one. */
  lemma TailOutputs(a: seq<real>, w: nat, k: nat)
    requires 1 <= w < |a| && 1 <= k < (w + 1) / 2
    ensures Smoothed(a, w, |a| - 1 - k) * (2 * k - 1) as real == Sum(a[|a| - 2 * k..|a| - 1])
  {
    var n := (2 * k - 1) as real;
    assert Sum(a[|a| - 2 * k..|a| - 1]) / n * n == Sum(a[|a| - 2 * k..|a| - 1]);
  }

  /** The end write, where no taper covers it: the last w - 1 samples' sum, divided by w. */
  lemma EndOutput(a: seq<real>, w: nat)
    requires 1 <= w < |a|
    ensures var j := |a| - w - 1 + HalfWidth(w);
            1 <= j && (w + 1) / 2 <= j <= |a| - 1 - (w + 1) / 2 ==>
              Smoothed(a, w, j) * w as real == Sum(a[|a| - w + 1..])
  {
    var n := w as real;
    assert Sum(a[|a| - w + 1..]) / n * n == Sum(a[|a| - w + 1..]);
  }

  /** These are all: any output is the first, the last, in a taper, interior, or the end write. */
  lemma EveryOutputIsCovered(a: seq<real>, w: nat, j: nat)
    requires 1 <= w < |a| && j < |a|
    ensures
      || j == 0 || j == |a| - 1 || 1 <= j < (w + 1) / 2 || 1 <= |a| - 1 - j < (w + 1) / 2
      || Interior(a, w, j) || j == |a| - w - 1 + HalfWidth(w)
  {}

  /** An odd window is centred on its output only for widths 3, 7, 11, ...: ties round to even. */
  lemma CentredIff(w: nat)
    requires w % 2 == 1
    ensures HalfWidth(w) - 1 == w / 2 <==> w % 4 == 3
  {}
}
