/**
 Sorting by an integer key, as Python's sorted() does: stably. The input is an interleaving of
 streams; the results say exactly when sorting it gives the streams one after the other.
 */
module StableSort {

  function WithKey<T>(key: T -> nat, lines: seq<T>, k: nat): seq<T> {
    if |lines| == 0 then []
    else if key(lines[0]) == k then [lines[0]] + WithKey(key, lines[1..], k)
    else WithKey(key, lines[1..], k)
  }

  predicate KeySorted<T>(key: T -> nat, lines: seq<T>) {
    forall i, j :: 0 <= i <= j < |lines| ==> key(lines[i]) <= key(lines[j])
  }

  /** sorted(lines, key=key): ordered by key, elements of equal key in their original order. */
  ghost predicate StableSortOf<T>(key: T -> nat, out: seq<T>, lines: seq<T>) {
    KeySorted(key, out) && forall k: nat :: WithKey(key, out, k) == WithKey(key, lines, k)
  }

  /** Put an element after every element whose key is not larger: one step of a stable sort. */
  function Insert<T>(key: T -> nat, out: seq<T>, line: T): (r: seq<T>)
    requires KeySorted(key, out)
    ensures KeySorted(key, r) && |r| == |out| + 1
    ensures forall x :: x in r ==> x == line || x in out
  {
    if |out| == 0 then [line]
    else if key(out[|out| - 1]) <= key(line) then out + [line]
    else
      var r := Insert(key, out[..|out| - 1], line);
      assert forall x :: x in r ==> key(x) <= key(out[|out| - 1]);
      r + [out[|out| - 1]]
  }

  lemma {:induction false} WithKeyAppend<T>(key: T -> nat, a: seq<T>, b: seq<T>, k: nat)
    ensures WithKey(key, a + b, k) == WithKey(key, a, k) + WithKey(key, b, k)
  {
    if |a| == 0 {
      assert a + b == b;
    } else {
      assert (a + b)[1..] == a[1..] + b;
      WithKeyAppend(key, a[1..], b, k);
    }
  }

  lemma {:induction false} InsertIsStable<T>(key: T -> nat, out: seq<T>, line: T, k: nat)
    requires KeySorted(key, out)
    ensures WithKey(key, Insert(key, out, line), k) == WithKey(key, out + [line], k)
  {
    if |out| > 0 && key(out[|out| - 1]) > key(line) {
      var front, last := out[..|out| - 1], out[|out| - 1];
      InsertIsStable(key, front, line, k);
      assert out == front + [last];
      WithKeyAppend(key, Insert(key, front, line), [last], k);
      WithKeyAppend(key, front, [line], k);
      WithKeyAppend(key, front, [last], k);
      WithKeyAppend(key, out, [line], k);
    } else if |out| == 0 {
      assert out + [line] == [line];
    }
  }

  /** Python's sorted() with a key, as insertion into a sorted list. */
  function SortBy<T>(key: T -> nat, lines: seq<T>): (out: seq<T>)
    ensures KeySorted(key, out) && |out| == |lines|
  {
    if |lines| == 0 then [] else Insert(key, SortBy(key, lines[..|lines| - 1]), lines[|lines| - 1])
  }

  lemma {:induction false} SortByIsStable<T>(key: T -> nat, lines: seq<T>)
    ensures StableSortOf(key, SortBy(key, lines), lines)
  {
    if |lines| > 0 {
      var front, last := lines[..|lines| - 1], lines[|lines| - 1];
      SortByIsStable(key, front);
      assert lines == front + [last];
      forall k: nat
        ensures WithKey(key, SortBy(key, lines), k) == WithKey(key, lines, k)
      {
        InsertIsStable(key, SortBy(key, front), last, k);
        WithKeyAppend(key, SortBy(key, front), [last], k);
        WithKeyAppend(key, front, [last], k);
      }
    }
  }

  method Sort<T>(key: T -> nat, lines: seq<T>) returns (out: seq<T>)
    ensures StableSortOf(key, out, lines)
  {
    out := [];
    for i := 0 to |lines|
      invariant out == SortBy(key, lines[..i])
    {
      assert lines[..i + 1][..i] == lines[..i];
      out := Insert(key, out, lines[i]);
    }
    assert lines[..|lines|] == lines;
    SortByIsStable(key, lines);
  }

  lemma {:induction false} WithKeyHas<T>(key: T -> nat, lines: seq<T>, i: nat)
    requires i < |lines|
    ensures WithKey(key, lines, key(lines[i])) != []
  {
    if i > 0 { WithKeyHas(key, lines[1..], i - 1); }
  }

  /** What has lines of key k has one at some index. */
  lemma {:induction false} WithKeyFrom<T>(key: T -> nat, lines: seq<T>, k: nat) returns (i: nat)
    requires WithKey(key, lines, k) != []
    ensures i < |lines| && key(lines[i]) == k
  {
    if key(lines[0]) == k {
      i := 0;
    } else {
      i := WithKeyFrom(key, lines[1..], k);
      i := i + 1;
    }
  }

  ghost predicate SameClasses<T>(key: T -> nat, a: seq<T>, b: seq<T>) {
    forall k: nat :: WithKey(key, a, k) == WithKey(key, b, k)
  }

  lemma SameFirstKey<T>(key: T -> nat, a: seq<T>, b: seq<T>)
    requires KeySorted(key, a) && KeySorted(key, b) && SameClasses(key, a, b) && |a| > 0
    ensures |b| > 0 && key(b[0]) <= key(a[0])
  {
    WithKeyHas(key, a, 0);
    var i := WithKeyFrom(key, b, key(a[0]));
  }

  /** There is one stable sort: key-sorted texts with the same key classes are the same text. */
  lemma {:induction false} StableSortIsUnique<T>(key: T -> nat, a: seq<T>, b: seq<T>)
    requires KeySorted(key, a) && KeySorted(key, b) && SameClasses(key, a, b)
    ensures a == b
    decreases |a|
  {
    if |a| == 0 {
      if |b| > 0 { SameFirstKey(key, b, a); }
    } else {
      SameFirstKey(key, a, b);
      SameFirstKey(key, b, a);
      var first := key(a[0]);
      assert WithKey(key, a, first)[0] == a[0] && WithKey(key, b, first)[0] == b[0];
      assert SameClasses(key, a[1..], b[1..]) by {
        forall k: nat
          ensures WithKey(key, a[1..], k) == WithKey(key, b[1..], k)
        {
          assert WithKey(key, a, k) == WithKey(key, b, k);
          if k == first {
            assert WithKey(key, a[1..], k) == WithKey(key, a, k)[1..];
            assert WithKey(key, b[1..], k) == WithKey(key, b, k)[1..];
          }
        }
      }
      StableSortIsUnique(key, a[1..], b[1..]);
      assert a == [a[0]] + a[1..] && b == [b[0]] + b[1..];
    }
  }

  /** Sorting neither loses nor adds a line. */
  lemma SortKeepsLength<T>(key: T -> nat, out: seq<T>, lines: seq<T>)
    requires StableSortOf(key, out, lines)
    ensures |out| == |lines|
  {
    SortByIsStable(key, lines);
    StableSortIsUnique(key, out, SortBy(key, lines));
  }

  // ---- Streams and arrival orders ----

  /** The first n streams one after the other. */
  function ConcatTo<T>(streams: seq<seq<T>>, n: nat): seq<T>
    requires n <= |streams|
  {
    if n == 0 then [] else ConcatTo(streams, n - 1) + streams[n - 1]
  }

  function Concat<T>(streams: seq<seq<T>>): seq<T> {
    ConcatTo(streams, |streams|)
  }

  /** The log process receives the streams' lines in some order that keeps each stream's own order. */
  ghost predicate Interleaves<T>(log: seq<T>, streams: seq<seq<T>>) {
    if |log| == 0 then forall k :: 0 <= k < |streams| ==> streams[k] == []
    else
      exists k :: 0 <= k < |streams| && streams[k] != [] && streams[k][0] == log[0]
                  && Interleaves(log[1..], streams[k := streams[k][1..]])
  }

  /** Lines that stream k sends first can be put in front. */
  lemma {:induction false} SentFirst<T>(p: seq<T>, log: seq<T>, streams: seq<seq<T>>, k: nat)
    requires k < |streams| && p <= streams[k] && Interleaves(log, streams[k := streams[k][|p|..]])
    ensures Interleaves(p + log, streams)
    decreases |p|
  {
    if |p| == 0 {
      assert p + log == log && streams[k := streams[k][0..]] == streams;
    } else {
      var rest := streams[k := streams[k][1..]];
      assert rest[k][|p| - 1..] == streams[k][|p|..];
      assert rest[k := rest[k][|p| - 1..]] == streams[k := streams[k][|p|..]];
      SentFirst(p[1..], log, rest, k);
      assert (p + log)[1..] == p[1..] + log;
      assert streams[k][0] == (p + log)[0];
    }
  }

  /** One more line from stream f keeps the log an interleaving of what the streams sent. */
  lemma {:induction false} LogGrows<T>(log: seq<T>, streams: seq<seq<T>>, f: nat, line: T)
    requires Interleaves(log, streams) && f < |streams|
    ensures Interleaves(log + [line], streams[f := streams[f] + [line]])
    decreases |log|
  {
    var more := streams[f := streams[f] + [line]];
    if |log| == 0 {
      assert more[f] == [line] && more[f][1..] == [];
      var rest := more[f := more[f][1..]];
      assert forall k :: 0 <= k < |rest| ==> rest[k] == [];
      assert ([] + [line])[1..] == [];
      assert Interleaves([], rest);
      assert log + [line] == [line];
    } else {
      var k :| 0 <= k < |streams| && streams[k] != [] && streams[k][0] == log[0]
               && Interleaves(log[1..], streams[k := streams[k][1..]]);
      var rest := streams[k := streams[k][1..]];
      LogGrows(log[1..], rest, f, line);
      assert (log + [line])[1..] == log[1..] + [line];
      assert more[k][0] == log[0];
      if k == f { assert more[k][1..] == streams[k][1..] + [line]; }
      assert more[k := more[k][1..]] == rest[f := rest[f] + [line]];
    }
  }

  lemma {:induction false} SentLast<T>(log: seq<T>, streams: seq<seq<T>>, k: nat, s: seq<T>)
    requires k < |streams| && Interleaves(log, streams)
    ensures Interleaves(log + s, streams[k := streams[k] + s])
    decreases |s|
  {
    if |s| == 0 {
      assert log + s == log && streams[k] + s == streams[k];
      assert streams[k := streams[k] + s] == streams;
    } else {
      var front, last := s[..|s| - 1], s[|s| - 1];
      SentLast(log, streams, k, front);
      var more := streams[k := streams[k] + front];
      LogGrows(log + front, more, k, last);
      assert log + front + [last] == log + s;
      assert more[k] + [last] == streams[k] + s;
      assert more[k := more[k] + [last]] == streams[k := streams[k] + s];
    }
  }

  lemma {:induction false} ConcatOfSame<T>(a: seq<seq<T>>, b: seq<seq<T>>, n: nat)
    requires n <= |a| && n <= |b| && forall k :: 0 <= k < n ==> a[k] == b[k]
    ensures ConcatTo(a, n) == ConcatTo(b, n)
  {
    if n > 0 { ConcatOfSame(a, b, n - 1); }
  }

  /** The streams can arrive one whole stream after the other. */
  lemma {:induction false} InOrderInterleaves<T>(streams: seq<seq<T>>, n: nat)
    requires n <= |streams| && forall k :: n <= k < |streams| ==> streams[k] == []
    ensures Interleaves(ConcatTo(streams, n), streams)
    decreases n
  {
    if n > 0 {
      var fewer := streams[n - 1 := []];
      InOrderInterleaves(fewer, n - 1);
      ConcatOfSame(fewer, streams, n - 1);
      SentLast(ConcatTo(fewer, n - 1), fewer, n - 1, streams[n - 1]);
      assert fewer[n - 1] + streams[n - 1] == streams[n - 1];
      assert fewer[n - 1 := streams[n - 1]] == streams;
    }
  }

  lemma {:induction false} ConcatLessOne<T>(streams: seq<seq<T>>, m: nat, n: nat)
    requires m < |streams| && streams[m] != [] && n <= |streams|
    ensures |ConcatTo(streams, n)| == |ConcatTo(streams[m := streams[m][1..]], n)| + if m < n then 1 else 0
  {
    if n > 0 { ConcatLessOne(streams, m, n - 1); }
  }

  lemma {:induction false} InterleavingLength<T>(log: seq<T>, streams: seq<seq<T>>)
    requires Interleaves(log, streams)
    ensures |log| == |Concat(streams)|
    decreases |log|
  {
    if |log| == 0 {
      NothingToConcat(streams, |streams|);
    } else {
      var m :| 0 <= m < |streams| && streams[m] != [] && streams[m][0] == log[0]
        && Interleaves(log[1..], streams[m := streams[m][1..]]);
      InterleavingLength(log[1..], streams[m := streams[m][1..]]);
      ConcatLessOne(streams, m, |streams|);
    }
  }

  // ---- One key class of an interleaving ----

  /** The lines of key k in each stream. */
  function ClassOf<T>(key: T -> nat, streams: seq<seq<T>>, k: nat): (c: seq<seq<T>>)
    ensures |c| == |streams| && forall m :: 0 <= m < |c| ==> c[m] == WithKey(key, streams[m], k)
  {
    seq(|streams|, m requires 0 <= m < |streams| => WithKey(key, streams[m], k))
  }

  /** The lines of key k in an interleaving interleave those of the streams. */
  lemma {:induction false} ClassInterleaves<T>(key: T -> nat, log: seq<T>, streams: seq<seq<T>>, k: nat)
    requires Interleaves(log, streams)
    ensures Interleaves(WithKey(key, log, k), ClassOf(key, streams, k))
    decreases |log|
  {
    if |log| > 0 {
      var m :| 0 <= m < |streams| && streams[m] != [] && streams[m][0] == log[0]
        && Interleaves(log[1..], streams[m := streams[m][1..]]);
      var rest := streams[m := streams[m][1..]];
      ClassInterleaves(key, log[1..], rest, k);
      var c, d := ClassOf(key, streams, k), ClassOf(key, rest, k);
      if key(log[0]) == k {
        assert c[m][1..] == d[m];
        assert c[m := c[m][1..]] == d;
        assert WithKey(key, log, k)[1..] == WithKey(key, log[1..], k);
      } else {
        assert c == d;
      }
    }
  }

  lemma {:induction false} ClassOfConcat<T>(key: T -> nat, streams: seq<seq<T>>, k: nat, n: nat)
    requires n <= |streams|
    ensures WithKey(key, ConcatTo(streams, n), k) == ConcatTo(ClassOf(key, streams, k), n)
  {
    if n > 0 {
      ClassOfConcat(key, streams, k, n - 1);
      WithKeyAppend(key, ConcatTo(streams, n - 1), streams[n - 1], k);
    }
  }

  /** Lines of different streams are the same line. */
  ghost predicate Alike<T>(streams: seq<seq<T>>) {
    forall a, b, x, y ::
      0 <= a < |streams| && 0 <= b < |streams| && a != b && x in streams[a] && y in streams[b] ==> x == y
  }

  /** With stream m's first line x taken off, the streams before it hold only copies of x. */
  lemma {:induction false} TakeOff<T>(streams: seq<seq<T>>, m: nat, n: nat)
    requires m < |streams| && streams[m] != [] && n <= |streams| && Alike(streams)
    ensures var x, rest := streams[m][0], streams[m := streams[m][1..]];
            if n <= m then
              && ConcatTo(rest, n) == ConcatTo(streams, n)
              && forall i :: 0 <= i < |ConcatTo(streams, n)| ==> ConcatTo(streams, n)[i] == x
            else [x] + ConcatTo(rest, n) == ConcatTo(streams, n)
  {
    if n > 0 {
      TakeOff(streams, m, n - 1);
      var x, rest, before := streams[m][0], streams[m := streams[m][1..]], ConcatTo(streams, n - 1);
      if n <= m {
        var more := streams[n - 1];
        assert x in streams[m] && forall i :: 0 <= i < |more| ==> more[i] in more;
      } else if n == m + 1 {
        assert [x] + before == before + [x];
        assert streams[m] == [x] + streams[m][1..];
      } else {
        assert [x] + (ConcatTo(rest, n - 1) + streams[n - 1]) == [x] + ConcatTo(rest, n - 1) + streams[n - 1];
      }
    }
  }

  lemma {:induction false} AlikeMergeIsConcat<T>(log: seq<T>, streams: seq<seq<T>>)
    requires Interleaves(log, streams) && Alike(streams)
    ensures log == Concat(streams)
    decreases |log|
  {
    if |log| == 0 {
      NothingToConcat(streams, |streams|);
    } else {
      var m :| 0 <= m < |streams| && streams[m] != [] && streams[m][0] == log[0]
        && Interleaves(log[1..], streams[m := streams[m][1..]]);
      var rest := streams[m := streams[m][1..]];
      assert Alike(rest) by {
        assert forall x :: x in rest[m] ==> x in streams[m];
      }
      AlikeMergeIsConcat(log[1..], rest);
      TakeOff(streams, m, |streams|);
      assert log == [log[0]] + log[1..];
    }
  }

  lemma {:induction false} NothingToConcat<T>(streams: seq<seq<T>>, n: nat)
    requires n <= |streams| && forall k :: 0 <= k < |streams| ==> streams[k] == []
    ensures ConcatTo(streams, n) == []
  {
    if n > 0 { NothingToConcat(streams, n - 1); }
  }

  // ---- When sorting undoes the interleaving ----

  /** Every line of stream k carries k as its first tag. */
  ghost predicate Tagged<T>(key: T -> nat, streams: seq<seq<T>>) {
    forall k, i :: 0 <= k < |streams| && 0 <= i < |streams[k]| ==> key(streams[k][i]) == k
  }

  /** Lines of different streams that share a key are the same line. */
  ghost predicate SharedKeysAlike<T>(key: T -> nat, streams: seq<seq<T>>) {
    forall a, b, x, y ::
      0 <= a < |streams| && 0 <= b < |streams| && a != b && x in streams[a] && y in streams[b] && key(x) == key(y)
      ==> x == y
  }

  lemma {:induction false} WithKeyMember<T>(key: T -> nat, lines: seq<T>, k: nat, x: T)
    requires x in WithKey(key, lines, k)
    ensures x in lines && key(x) == k
  {
    if key(lines[0]) != k || x != lines[0] {
      WithKeyMember(key, lines[1..], k, x);
    }
  }

  lemma ClassesAlike<T>(key: T -> nat, streams: seq<seq<T>>, k: nat)
    requires SharedKeysAlike(key, streams)
    ensures Alike(ClassOf(key, streams, k))
  {
    var c := ClassOf(key, streams, k);
    forall a, b, x, y | 0 <= a < |c| && 0 <= b < |c| && a != b && x in c[a] && y in c[b]
      ensures x == y
    {
      assert c[a] == WithKey(key, streams[a], k) && c[b] == WithKey(key, streams[b], k);
      WithKeyMember(key, streams[a], k, x);
      WithKeyMember(key, streams[b], k, y);
    }
  }

  /** Whatever the arrival order, the sorted log is then the streams in order. */
  lemma SortedInOrder<T>(key: T -> nat, log: seq<T>, streams: seq<seq<T>>, out: seq<T>)
    requires KeySorted(key, Concat(streams)) && SharedKeysAlike(key, streams)
    requires Interleaves(log, streams) && StableSortOf(key, out, log)
    ensures out == Concat(streams)
  {
    forall k: nat
      ensures WithKey(key, out, k) == WithKey(key, Concat(streams), k)
    {
      ClassInterleaves(key, log, streams, k);
      ClassesAlike(key, streams, k);
      AlikeMergeIsConcat(WithKey(key, log, k), ClassOf(key, streams, k));
      ClassOfConcat(key, streams, k, |streams|);
    }
    StableSortIsUnique(key, out, Concat(streams));
  }

  ghost predicate SortedForEveryArrival<T(!new)>(key: T -> nat, streams: seq<seq<T>>) {
    forall log, out :: Interleaves(log, streams) && StableSortOf(key, out, log) ==> out == Concat(streams)
  }

  /** Two lines of different streams can arrive next to each other, in either order. */
  lemma EitherFirst<T>(streams: seq<seq<T>>, a: nat, b: nat, i: nat, j: nat) returns (before: seq<T>, after: seq<T>)
    requires a < |streams| && b < |streams| && a != b && i < |streams[a]| && j < |streams[b]|
    ensures Interleaves(before + ([streams[a][i]] + ([streams[b][j]] + after)), streams)
    ensures Interleaves(before + ([streams[b][j]] + ([streams[a][i]] + after)), streams)
  {
    var later := streams[a := streams[a][i..]][b := streams[b][j..]];
    var rest := streams[a := streams[a][i + 1..]][b := streams[b][j + 1..]];
    assert rest == later[a := later[a][1..]][b := later[b][1..]];
    assert rest == later[b := later[b][1..]][a := later[a][1..]];
    before, after := streams[a][..i] + streams[b][..j], Concat(rest);
    InOrderInterleaves(rest, |rest|);
    OneThenOther(later, rest, a, b, after);
    OneThenOther(later, rest, b, a, after);
    AfterPrefixes(streams, a, b, i, j, [streams[a][i]] + ([streams[b][j]] + after));
    AfterPrefixes(streams, a, b, i, j, [streams[b][j]] + ([streams[a][i]] + after));
  }

  lemma AfterPrefixes<T>(streams: seq<seq<T>>, a: nat, b: nat, i: nat, j: nat, tail: seq<T>)
    requires a < |streams| && b < |streams| && a != b && i < |streams[a]| && j < |streams[b]|
    requires Interleaves(tail, streams[a := streams[a][i..]][b := streams[b][j..]])
    ensures Interleaves(streams[a][..i] + streams[b][..j] + tail, streams)
  {
    var one := streams[a := streams[a][i..]];
    SentFirst(streams[b][..j], tail, one, b);
    SentFirst(streams[a][..i], streams[b][..j] + tail, streams, a);
    assert streams[a][..i] + (streams[b][..j] + tail) == streams[a][..i] + streams[b][..j] + tail;
  }

  lemma OneThenOther<T>(streams: seq<seq<T>>, rest: seq<seq<T>>, a: nat, b: nat, after: seq<T>)
    requires a < |streams| && b < |streams| && a != b && streams[a] != [] && streams[b] != []
    requires rest == streams[a := streams[a][1..]][b := streams[b][1..]] && Interleaves(after, rest)
    ensures Interleaves([streams[a][0]] + ([streams[b][0]] + after), streams)
  {
    var one := streams[a := streams[a][1..]];
    assert one[b := one[b][1..]] == rest;
    SentFirst([streams[b][0]], after, one, b);
    SentFirst([streams[a][0]], [streams[b][0]] + after, streams, a);
  }

  /** If every arrival order sorts to the streams in order, lines that share a key cannot tell who came first. */
  lemma SortedForcesAlike<T(!new)>(key: T -> nat, streams: seq<seq<T>>, a: nat, b: nat, i: nat, j: nat)
    requires SortedForEveryArrival(key, streams)
    requires a < |streams| && b < |streams| && a != b && i < |streams[a]| && j < |streams[b]|
    requires key(streams[a][i]) == key(streams[b][j])
    ensures streams[a][i] == streams[b][j]
  {
    var x, y, k := streams[a][i], streams[b][j], key(streams[a][i]);
    var before, after := EitherFirst(streams, a, b, i, j);
    var log1, log2 := before + ([x] + ([y] + after)), before + ([y] + ([x] + after));
    SortByIsStable(key, log1);
    SortByIsStable(key, log2);
    assert SortBy(key, log1) == Concat(streams) == SortBy(key, log2);
    assert WithKey(key, log1, k) == WithKey(key, log2, k);
    WithKeyAppend(key, before, [x] + ([y] + after), k);
    WithKeyAppend(key, before, [y] + ([x] + after), k);
    var at := |WithKey(key, before, k)|;
    PutFirst(key, x, [y] + after, k);
    PutFirst(key, y, [x] + after, k);
    assert WithKey(key, log1, k)[at] == x && WithKey(key, log2, k)[at] == y;
  }

  lemma PutFirst<T>(key: T -> nat, x: T, rest: seq<T>, k: nat)
    requires key(x) == k
    ensures WithKey(key, [x] + rest, k) == [x] + WithKey(key, rest, k)
  {
    assert ([x] + rest)[1..] == rest;
  }

  /**
   For any streams and any key: every arrival order sorts to the streams in order exactly when the
   streams in order are sorted, and lines of different streams that share a key are the same.
   */
  lemma SortedForEveryArrivalIff<T(!new)>(key: T -> nat, streams: seq<seq<T>>)
    ensures SortedForEveryArrival(key, streams) <==> KeySorted(key, Concat(streams)) && SharedKeysAlike(key, streams)
  {
    if SortedForEveryArrival(key, streams) {
      InOrderInterleaves(streams, |streams|);
      SortByIsStable(key, Concat(streams));
      assert SortBy(key, Concat(streams)) == Concat(streams);
      forall a, b, x, y | 0 <= a < |streams| && 0 <= b < |streams| && a != b && x in streams[a] && y in streams[b]
                          && key(x) == key(y)
        ensures x == y
      {
        var i :| 0 <= i < |streams[a]| && streams[a][i] == x;
        var j :| 0 <= j < |streams[b]| && streams[b][j] == y;
        SortedForcesAlike(key, streams, a, b, i, j);
      }
    }
    if KeySorted(key, Concat(streams)) && SharedKeysAlike(key, streams) {
      forall log, out | Interleaves(log, streams) && StableSortOf(key, out, log)
        ensures out == Concat(streams)
      {
        SortedInOrder(key, log, streams, out);
      }
    }
  }

  // ---- Streams that open with their own tag ----

  lemma {:induction false} TaggedIsSorted<T>(key: T -> nat, streams: seq<seq<T>>, n: nat)
    requires Tagged(key, streams) && n <= |streams|
    ensures KeySorted(key, ConcatTo(streams, n))
    ensures forall i :: 0 <= i < |ConcatTo(streams, n)| ==> key(ConcatTo(streams, n)[i]) < n
  {
    if n > 0 { TaggedIsSorted(key, streams, n - 1); }
  }

  /** For every arrival order of tagged streams, the sorted log is the streams in file order. */
  lemma SortUndoesInterleaving<T>(key: T -> nat, log: seq<T>, streams: seq<seq<T>>, out: seq<T>)
    requires Interleaves(log, streams) && Tagged(key, streams) && StableSortOf(key, out, log)
    ensures out == Concat(streams)
  {
    TaggedIsSorted(key, streams, |streams|);
    SortedInOrder(key, log, streams, out);
  }

  lemma {:induction false} PartsAreSorted<T>(key: T -> nat, streams: seq<seq<T>>, n: nat, k: nat)
    requires k < n <= |streams| && KeySorted(key, ConcatTo(streams, n))
    ensures KeySorted(key, streams[k])
  {
    var before, last := ConcatTo(streams, n - 1), streams[n - 1];
    var all := before + last;
    if k < n - 1 {
      assert forall i :: 0 <= i < |before| ==> before[i] == all[i];
      PartsAreSorted(key, streams, n - 1, k);
    } else {
      assert forall i :: 0 <= i < |last| ==> last[i] == all[|before| + i];
    }
  }

  /** A line whose key is below its stream's first breaks the order, whatever the arrival order. */
  lemma LowerKeyMovesUp<T>(key: T -> nat, log: seq<T>, streams: seq<seq<T>>, out: seq<T>, k: nat, i: nat)
    requires Interleaves(log, streams) && StableSortOf(key, out, log)
    requires k < |streams| && i < |streams[k]| && key(streams[k][i]) < key(streams[k][0])
    ensures out != Concat(streams)
  {
    if out == Concat(streams) { PartsAreSorted(key, streams, |streams|, k); }
  }

  /** Each stream opens with its own key, and none of its lines has a higher one. */
  ghost predicate Opened<T>(key: T -> nat, streams: seq<seq<T>>) {
    forall k :: 0 <= k < |streams| && streams[k] != [] ==>
      key(streams[k][0]) == k && forall i :: 0 <= i < |streams[k]| ==> key(streams[k][i]) <= k
  }

  /** For such streams, every single arrival order sorts to the streams in order exactly when all lines are tagged. */
  lemma OpenedSortsIffTagged<T>(key: T -> nat, log: seq<T>, streams: seq<seq<T>>, out: seq<T>)
    requires Interleaves(log, streams) && StableSortOf(key, out, log) && Opened(key, streams)
    ensures out == Concat(streams) <==> Tagged(key, streams)
  {
    if Tagged(key, streams) {
      SortUndoesInterleaving(key, log, streams, out);
    } else {
      var k, i :| 0 <= k < |streams| && 0 <= i < |streams[k]| && key(streams[k][i]) != k;
      LowerKeyMovesUp(key, log, streams, out, k, i);
    }
  }
}
