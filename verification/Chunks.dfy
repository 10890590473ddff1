/** How run_chain divides the files into sets of processes: ceil(n / max) chunks, split by array_split. */
module Chunks {
  import opened Numbers

  /** ceil(n / max) */
  function NumChunks(n: nat, max: nat): (k: nat)
    requires max > 0
    ensures k * max >= n
    ensures n > 0 ==> 0 < k <= n && (k - 1) * max < n
  {
    CeilFacts(n, max);
    (n + max - 1) / max
  }

  lemma CeilFacts(n: nat, max: nat)
    requires max > 0
    ensures var k := (n + max - 1) / max; k * max >= n && (n > 0 ==> 0 < k <= n && (k - 1) * max < n)
  {
    var k := (n + max - 1) / max;
    DivisionFacts(n + max - 1, max);
    assert (k - 1) * max == k * max - max;
    if n > 0 {
      CancelInt(0, k, max);
      MulMonotone(1, max, n - 1);
      assert (n - 1) * max == n * max - max;
      CancelInt(k - 1, n, max);
    }
  }

  lemma DivisionFacts(a: nat, b: nat)
    requires b > 0
    ensures a == (a / b) * b + a % b && 0 <= a % b < b
  {}

  lemma MulMonotone(a: nat, b: nat, m: nat)
    requires a <= b
    ensures a * m <= b * m
  {}

  lemma CancelInt(a: int, b: int, m: nat)
    requires a * m < b * m
    ensures a < b
  {}

  /** First file of chunk j when array_split cuts n files into k parts: the first n % k parts get one more. */
  function Bound(n: nat, k: nat, j: nat): nat
    requires k > 0
  {
    j * (n / k) + Min(j, n % k)
  }

  function Size(n: nat, k: nat, j: nat): nat
    requires k > 0
  {
    if j < n % k then n / k + 1 else n / k
  }

  lemma BoundStep(n: nat, k: nat, j: nat)
    requires k > 0 && j < k
    ensures Bound(n, k, j + 1) == Bound(n, k, j) + Size(n, k, j)
  {
    assert (j + 1) * (n / k) == j * (n / k) + n / k;
  }

  lemma BoundEnds(n: nat, k: nat)
    requires k > 0
    ensures Bound(n, k, 0) == 0 && Bound(n, k, k) == n
  {
    DivisionFacts(n, k);
  }

  lemma {:induction false} BoundOrdered(n: nat, k: nat, i: nat, j: nat)
    requires k > 0 && i <= j <= k
    ensures Bound(n, k, i) <= Bound(n, k, j) <= n
    decreases k - i
  {
    BoundEnds(n, k);
    if i < j {
      BoundStep(n, k, i);
      BoundOrdered(n, k, i + 1, j);
    } else if j < k {
      BoundStep(n, k, j);
      BoundOrdered(n, k, j + 1, k);
    }
  }

  /** Chunks are never empty, never above the process limit, and differ in size by at most one. */
  lemma SizesFit(n: nat, max: nat, i: nat, j: nat)
    requires n > 0 && max > 0 && i < NumChunks(n, max) && j < NumChunks(n, max)
    ensures var k := NumChunks(n, max); 1 <= Size(n, k, i) <= max && Size(n, k, i) <= Size(n, k, j) + 1
  {
    var k := NumChunks(n, max);
    var q, r := n / k, n % k;
    DivisionFacts(n, k);
    assert (max + 1) * k == max * k + k;
    CancelInt(0, q, k);
    CancelInt(q, max + 1, k);
    if r > 0 { CancelInt(q, max, k); }
  }

  function Range(a: nat, b: nat): (s: seq<nat>)
    requires a <= b
    ensures |s| == b - a && forall i :: 0 <= i < |s| ==> s[i] == a + i
  {
    seq(b - a, i requires 0 <= i < b - a => a + i)
  }

  /** Chunk j of n files split for at most max processes. */
  function Chunk(n: nat, max: nat, j: nat): seq<nat>
    requires n > 0 && max > 0 && j < NumChunks(n, max)
  {
    var k := NumChunks(n, max);
    BoundStep(n, k, j);
    Range(Bound(n, k, j), Bound(n, k, j + 1))
  }

  function Flatten(s: seq<seq<nat>>): seq<nat> {
    if |s| == 0 then [] else Flatten(s[..|s| - 1]) + s[|s| - 1]
  }

  lemma ChunkFits(n: nat, max: nat, i: nat, j: nat)
    requires n > 0 && max > 0 && i < NumChunks(n, max) && j < NumChunks(n, max)
    ensures 1 <= |Chunk(n, max, i)| <= max && |Chunk(n, max, i)| <= |Chunk(n, max, j)| + 1
    ensures i <= j ==> |Chunk(n, max, i)| >= |Chunk(n, max, j)|
  {
    var k := NumChunks(n, max);
    BoundStep(n, k, i);
    BoundStep(n, k, j);
    SizesFit(n, max, i, j);
  }

  lemma FlattenOneMore(chunks: seq<seq<nat>>, start: nat, end: nat)
    requires start <= end && Flatten(chunks) == Range(0, start)
    ensures Flatten(chunks + [Range(start, end)]) == Range(0, end)
  {
    var more := chunks + [Range(start, end)];
    assert more[..|chunks|] == chunks;
    assert Range(0, start) + Range(start, end) == Range(0, end);
  }

  /** array_split itself: cut 0..n-1 at the bounds. */
  method Cut(n: nat, max: nat) returns (chunks: seq<seq<nat>>)
    requires n > 0 && max > 0
    ensures |chunks| == NumChunks(n, max) && Flatten(chunks) == Range(0, n)
    ensures forall j :: 0 <= j < |chunks| ==> chunks[j] == Chunk(n, max, j)
  {
    var k := NumChunks(n, max);
    chunks := [];
    var start := 0;
    BoundEnds(n, k);
    for j := 0 to k
      invariant |chunks| == j && start == Bound(n, k, j)
      invariant Flatten(chunks) == Range(0, start)
      invariant forall i :: 0 <= i < j ==> chunks[i] == Chunk(n, max, i)
    {
      BoundStep(n, k, j);
      var end := start + Size(n, k, j);
      FlattenOneMore(chunks, start, end);
      chunks := chunks + [Range(start, end)];
      start := end;
    }
  }

  /** The chunks of file indices; with no files, array_split is asked for zero parts and raises. */
  method SplitFiles(n: nat, max: nat) returns (r: Result<seq<seq<nat>>>)
    requires max > 0
    ensures r.Err? <==> n == 0
    ensures r.Ok? ==>
      && |r.value| == NumChunks(n, max)
      && Flatten(r.value) == Range(0, n)
      && (forall j :: 0 <= j < |r.value| ==> 1 <= |r.value[j]| <= max)
      && (forall i, j :: 0 <= i < |r.value| && 0 <= j < |r.value| ==> |r.value[i]| <= |r.value[j]| + 1)
      && (forall i, j :: 0 <= i <= j < |r.value| ==> |r.value[i]| >= |r.value[j]|)
      && (forall j :: 0 <= j < |r.value| ==> r.value[j] == Chunk(n, max, j))
  {
    if n == 0 { return Err("number sections must be larger than 0."); }
    var chunks := Cut(n, max);
    forall i, j | 0 <= i < |chunks| && 0 <= j < |chunks|
      ensures 1 <= |chunks[i]| <= max && |chunks[i]| <= |chunks[j]| + 1
      ensures i <= j ==> |chunks[i]| >= |chunks[j]|
    {
      ChunkFits(n, max, i, j);
    }
    r := Ok(chunks);
  }
}
