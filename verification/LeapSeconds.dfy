/**
 Conversion between UTC and TAI with a leap second table. Instants are whole microseconds since the
 NTP prime epoch, 1900-01-01 (section 6 of RFC 5905), as the table's own times are in seconds.
 */
module LeapSeconds {
  import opened Numbers

  const SECOND: int := 1_000_000
  const NTP_EPOCH: int := 0
  const CS2_EPOCH: int := 3_155_673_600 * SECOND   // 2000-01-01

  /** A line of the table file: a comment, or a time in seconds with the cumulative offset, or neither. */
  datatype Line = Comment | Entry(seconds: nat, offset: int) | Malformed

  datatype Leap = Leap(at: int, change: int)

  function Entries(lines: seq<Line>): (es: seq<Line>)
    ensures forall i :: 0 <= i < |es| ==> es[i].Entry?
  {
    if |lines| == 0 then []
    else if lines[|lines| - 1].Entry? then Entries(lines[..|lines| - 1]) + [lines[|lines| - 1]]
    else Entries(lines[..|lines| - 1])
  }

  /** Cumulative offset of the i-th entry, 0 before the first. */
  function OffsetOf(es: seq<Line>, i: int): int
    requires forall k :: 0 <= k < |es| ==> es[k].Entry?
    requires i < |es|
  {
    if i < 0 then 0 else es[i].offset
  }

  /** The leaps as (time, change of offset). */
  function Differenced(es: seq<Line>): (ls: seq<Leap>)
    requires forall k :: 0 <= k < |es| ==> es[k].Entry?
    ensures |ls| == |es|
  {
    seq(|es|, i requires 0 <= i < |es| => Leap(es[i].seconds * SECOND, es[i].offset - OffsetOf(es, i - 1)))
  }

  /** Sum of the changes of the leaps with lo <= time <= hi. */
  function SumWithin(ls: seq<Leap>, lo: int, hi: int): int {
    if |ls| == 0 then 0
    else SumWithin(ls[..|ls| - 1], lo, hi) + if lo <= ls[|ls| - 1].at <= hi then ls[|ls| - 1].change else 0
  }

  class Grain {
    var leaps: seq<Leap>

    constructor ()
      ensures leaps == []
    {
      leaps := [];
    }

    /** The parsing loop of __init__, then the differencing; a line that does not parse raises. */
    method Load(lines: seq<Line>) returns (ok: bool)
      modifies this
      ensures ok <==> Malformed !in lines
      ensures ok ==> leaps == Differenced(Entries(lines))
      ensures !ok ==> leaps == old(leaps)
    {
      var times: seq<int>, offsets: seq<int> := [], [];
      for i := 0 to |lines|
        invariant Malformed !in lines[..i]
        invariant |times| == |offsets| == |Entries(lines[..i])|
        invariant forall k :: 0 <= k < |times| ==>
          times[k] == Entries(lines[..i])[k].seconds * SECOND && offsets[k] == Entries(lines[..i])[k].offset
      {
        assert lines[..i + 1][..i] == lines[..i];
        match lines[i]
        case Malformed => return false;
        case Comment =>
        case Entry(seconds, offset) =>
          times := times + [NTP_EPOCH + seconds * SECOND];
          offsets := offsets + [offset];
      }
      assert lines[..|lines|] == lines;
      offsets := [0] + offsets;
      leaps := seq(|times|, k requires 0 <= k < |times| && k + 1 < |offsets| =>
        Leap(times[k], offsets[k + 1] - offsets[k]));
      return true;
    }

    /** _leaps_between */
    function LeapsBetween(date1: int, date2: int): Result<int>
      reads this
    {
      if date1 > date2 then Err("date1 > date2") else Ok(SumWithin(leaps, date1, date2))
    }

    /** utc2tai: whole seconds since the epoch, microseconds dropped, plus the leaps since the epoch. */
    function Utc2Tai(utc: int, epoch: int): Result<int>
      reads this
    {
      match LeapsBetween(epoch, utc)
      case Err(e) => Err(e)
      case Ok(offset) => Ok((utc - epoch) / SECOND + offset)
    }

    /** tai2utc: takes off all leaps between the NTP epoch and the unadjusted instant. */
    function Tai2Utc(seconds: int, epoch: int): Result<int>
      reads this
    {
      var unadjusted := seconds * SECOND + epoch;
      match LeapsBetween(NTP_EPOCH, unadjusted)
      case Err(e) => Err(e)
      case Ok(offset) => Ok(unadjusted - offset * SECOND)
    }
  }

  // ---- What the conversions and the table mean ----

  /** The entries of a file, in its order: a comment adds none. */
  lemma EntriesAppend(lines: seq<Line>, line: Line)
    ensures Entries([]) == [] && Entries(lines + [line]) == Entries(lines) + if line.Entry? then [line] else []
  {
    assert (lines + [line])[..|lines|] == lines;
  }

  /** utc2tai for any instant: the whole seconds of UTC since the epoch plus leaps, and none before the epoch. */
  lemma Utc2TaiIs(g: Grain, u: int, epoch: int)
    ensures g.Utc2Tai(u, epoch).Err? <==> u < epoch
    ensures u >= epoch ==>
      var tai := u - epoch + SumWithin(g.leaps, epoch, u) * SECOND;
      g.Utc2Tai(u, epoch).value * SECOND <= tai < (g.Utc2Tai(u, epoch).value + 1) * SECOND
  {}

  lemma Tai2UtcRaisesIff(g: Grain, seconds: int, epoch: int)
    ensures g.Tai2Utc(seconds, epoch).Err? <==> seconds * SECOND + epoch < NTP_EPOCH
  {}

  /** The CryoSat epoch is 100 years of 365 days and 24 leap days after the NTP epoch. */
  lemma EpochDays()
    ensures CS2_EPOCH - NTP_EPOCH == (100 * 365 + 24) * 86_400 * SECOND
  {}

  /** Entry i is the last one not later than d. */
  ghost predicate InForce(es: seq<Line>, i: nat, d: int)
    requires SortedEntries(es) && i < |es|
  {
    es[i].seconds * SECOND <= d && (i + 1 < |es| ==> es[i + 1].seconds * SECOND > d)
  }

  /** The table's offset at an instant is that of the last entry not later, and 0 before the first. */
  lemma {:induction false} TableOffsetIs(es: seq<Line>, d: int)
    requires SortedEntries(es)
    ensures (forall i :: 0 <= i < |es| ==> es[i].seconds * SECOND > d) ==> TableOffset(es, d) == 0
    ensures forall i :: 0 <= i < |es| && InForce(es, i, d) ==> TableOffset(es, d) == es[i].offset
  {
    if |es| > 0 && es[|es| - 1].seconds * SECOND > d {
      var front := es[..|es| - 1];
      TableOffsetIs(front, d);
      forall i | 0 <= i < |es| && InForce(es, i, d)
        ensures TableOffset(es, d) == es[i].offset
      {
        assert InForce(front, i, d);
      }
    }
  }

  // ---- Telescoping ----

  ghost predicate SortedEntries(es: seq<Line>) {
    && (forall k :: 0 <= k < |es| ==> es[k].Entry?)
    && (forall i, j :: 0 <= i < j < |es| ==> es[i].seconds <= es[j].seconds)
  }

  /** The table's own answer at an instant: the offset of the last entry that is not later. */
  function TableOffset(es: seq<Line>, d: int): int
    requires forall k :: 0 <= k < |es| ==> es[k].Entry?
  {
    if |es| == 0 then 0
    else if es[|es| - 1].seconds * SECOND <= d then es[|es| - 1].offset
    else TableOffset(es[..|es| - 1], d)
  }

  /** Summing the differenced offsets up to an instant gives the table's cumulative offset there. */
  lemma {:induction false} SumTelescopes(es: seq<Line>, d: int)
    requires SortedEntries(es)
    ensures SumWithin(Differenced(es), NTP_EPOCH, d) == TableOffset(es, d)
  {
    if |es| > 0 {
      var front := es[..|es| - 1];
      SumTelescopes(front, d);
      assert Differenced(es)[..|es| - 1] == Differenced(front);
      if es[|es| - 1].seconds * SECOND <= d && |front| > 0 {
        assert front[|front| - 1].seconds * SECOND <= d;
      }
    }
  }

  // ---- Splitting sums ----

  lemma {:induction false} SumSplits(ls: seq<Leap>, a: int, b: int, c: int)
    requires a <= b + 1 && b <= c
    ensures SumWithin(ls, a, c) == SumWithin(ls, a, b) + SumWithin(ls, b + 1, c)
  {
    if |ls| > 0 { SumSplits(ls[..|ls| - 1], a, b, c); }
  }

  predicate NoneNegative(ls: seq<Leap>) {
    forall i :: 0 <= i < |ls| ==> ls[i].change >= 0
  }

  /** No leap that changes the offset lies in lo..hi. */
  predicate Quiet(ls: seq<Leap>, lo: int, hi: int) {
    forall i :: 0 <= i < |ls| && lo <= ls[i].at <= hi ==> ls[i].change == 0
  }

  lemma {:induction false} SumIsZeroIffQuiet(ls: seq<Leap>, lo: int, hi: int)
    requires NoneNegative(ls)
    ensures SumWithin(ls, lo, hi) >= 0
    ensures SumWithin(ls, lo, hi) == 0 <==> Quiet(ls, lo, hi)
  {
    if |ls| > 0 {
      var front := ls[..|ls| - 1];
      SumIsZeroIffQuiet(front, lo, hi);
      assert forall i :: 0 <= i < |front| ==> front[i] == ls[i];
    }
  }

  // ---- Inverses ----

  /**
   tai2utc inverts "UTC plus cumulative offset" exactly when no leap lies between the UTC instant and
   the instant that many seconds later.
   */
  lemma InvertsCumulativeOffsetIff(g: Grain, u: int, seconds: int, epoch: int)
    requires NoneNegative(g.leaps) && NTP_EPOCH <= u
    requires seconds * SECOND + epoch == u + SumWithin(g.leaps, NTP_EPOCH, u) * SECOND
    ensures g.Tai2Utc(seconds, epoch) == Ok(u) <==>
              Quiet(g.leaps, u + 1, u + SumWithin(g.leaps, NTP_EPOCH, u) * SECOND)
  {
    var c := SumWithin(g.leaps, NTP_EPOCH, u);
    SumIsZeroIffQuiet(g.leaps, NTP_EPOCH, u);
    SumSplits(g.leaps, NTP_EPOCH, u, u + c * SECOND);
    SumIsZeroIffQuiet(g.leaps, u + 1, u + c * SECOND);
  }

  /**
   The round trip from a whole-second UTC instant: tai2utc also takes off the leaps before the epoch,
   which utc2tai never added, and any leap between the UTC instant and the TAI instant.
   */
  lemma RoundTripExact(g: Grain, u: int, epoch: int)
    requires NoneNegative(g.leaps) && NTP_EPOCH <= epoch <= u && (u - epoch) % SECOND == 0
    ensures g.Utc2Tai(u, epoch).Ok?
    ensures var later := u + SumWithin(g.leaps, epoch, u) * SECOND;
            && later >= u
            && g.Tai2Utc(g.Utc2Tai(u, epoch).value, epoch) ==
                 Ok(u - (SumWithin(g.leaps, NTP_EPOCH, epoch - 1) + SumWithin(g.leaps, u + 1, later)) * SECOND)
  {
    var added := SumWithin(g.leaps, epoch, u);
    var later := u + added * SECOND;
    SumIsZeroIffQuiet(g.leaps, epoch, u);
    assert (u - epoch) / SECOND * SECOND == u - epoch;
    SumSplits(g.leaps, NTP_EPOCH, epoch - 1, later);
    SumSplits(g.leaps, epoch, u, later);
  }

  /** So it is off by just the pre-epoch leaps iff no leap is between, and exact iff none is before either. */
  lemma RoundTripIff(g: Grain, u: int, epoch: int)
    requires NoneNegative(g.leaps) && NTP_EPOCH <= epoch <= u && (u - epoch) % SECOND == 0
    ensures g.Utc2Tai(u, epoch).Ok?
    ensures var later := u + SumWithin(g.leaps, epoch, u) * SECOND;
            var back := g.Tai2Utc(g.Utc2Tai(u, epoch).value, epoch);
            && (back == Ok(u - SumWithin(g.leaps, NTP_EPOCH, epoch - 1) * SECOND) <==> Quiet(g.leaps, u + 1, later))
            && (back == Ok(u) <==> Quiet(g.leaps, NTP_EPOCH, epoch - 1) && Quiet(g.leaps, u + 1, later))
  {
    RoundTripExact(g, u, epoch);
    SumIsZeroIffQuiet(g.leaps, NTP_EPOCH, epoch - 1);
    SumIsZeroIffQuiet(g.leaps, u + 1, u + SumWithin(g.leaps, epoch, u) * SECOND);
  }

  // ---- The same over the table that was loaded ----

  /** A leap second table: times in order, offsets that never fall. */
  ghost predicate LeapTable(es: seq<Line>) {
    SortedEntries(es) && forall i :: 0 <= i < |es| ==> OffsetOf(es, i - 1) <= es[i].offset
  }

  lemma TableNeverFalls(es: seq<Line>)
    requires LeapTable(es)
    ensures NoneNegative(Differenced(es))
  {}

  lemma SumIsDifference(es: seq<Line>, lo: int, hi: int)
    requires SortedEntries(es) && NTP_EPOCH <= lo <= hi + 1
    ensures SumWithin(Differenced(es), lo, hi) == TableOffset(es, hi) - TableOffset(es, lo - 1)
  {
    SumSplits(Differenced(es), NTP_EPOCH, lo - 1, hi);
    SumTelescopes(es, lo - 1);
    SumTelescopes(es, hi);
  }

  /** No leap between two instants: the table gives the same offset at both. */
  lemma QuietIffSameOffset(es: seq<Line>, lo: int, hi: int)
    requires LeapTable(es) && NTP_EPOCH <= lo + 1 && lo <= hi
    ensures Quiet(Differenced(es), lo + 1, hi) <==> TableOffset(es, lo) == TableOffset(es, hi)
  {
    TableNeverFalls(es);
    SumIsZeroIffQuiet(Differenced(es), lo + 1, hi);
    SumIsDifference(es, lo + 1, hi);
  }

  lemma OffsetNotNegative(es: seq<Line>, d: int)
    requires LeapTable(es)
    ensures TableOffset(es, d) >= 0
  {
    TableNeverFalls(es);
    SumTelescopes(es, d);
    SumIsZeroIffQuiet(Differenced(es), NTP_EPOCH, d);
  }

  /**
   For every table, such as one that Grain.Load has read: tai2utc inverts "UTC plus the table's
   offset" exactly when the table gives the same offset at the UTC instant and at the instant that
   many seconds later.
   */
  lemma InvertsTableOffsetIff(g: Grain, es: seq<Line>, u: int, later: int, seconds: int, epoch: int)
    requires LeapTable(es) && g.leaps == Differenced(es) && NTP_EPOCH <= u
    requires later == u + TableOffset(es, u) * SECOND && later == seconds * SECOND + epoch
    ensures g.Tai2Utc(seconds, epoch) == Ok(u) <==> TableOffset(es, u) == TableOffset(es, later)
  {
    TableNeverFalls(es);
    SumTelescopes(es, u);
    OffsetNotNegative(es, u);
    InvertsCumulativeOffsetIff(g, u, seconds, epoch);
    QuietIffSameOffset(es, u, later);
  }

  lemma RoundTripFrom(g: Grain, u: int, epoch: int, lost: int, added: int, later: int)
    requires NoneNegative(g.leaps) && NTP_EPOCH <= epoch <= u && (u - epoch) % SECOND == 0
    requires lost == SumWithin(g.leaps, NTP_EPOCH, epoch - 1) && added == SumWithin(g.leaps, epoch, u)
    requires later == u + added * SECOND
    ensures g.Utc2Tai(u, epoch).Ok?
    ensures var back := g.Tai2Utc(g.Utc2Tai(u, epoch).value, epoch);
            && (back == Ok(u - lost * SECOND) <==> Quiet(g.leaps, u + 1, later))
            && (back == Ok(u) <==> Quiet(g.leaps, NTP_EPOCH, epoch - 1) && Quiet(g.leaps, u + 1, later))
  {
    RoundTripIff(g, u, epoch);
  }

  lemma TableSums(es: seq<Line>, u: int, epoch: int, lost: int)
    requires LeapTable(es) && NTP_EPOCH <= epoch <= u && lost == TableOffset(es, epoch - 1)
    ensures var ls := Differenced(es);
            && NoneNegative(ls)
            && SumWithin(ls, NTP_EPOCH, epoch - 1) == lost && (Quiet(ls, NTP_EPOCH, epoch - 1) <==> lost == 0)
            && SumWithin(ls, epoch, u) == TableOffset(es, u) - lost >= 0
  {
    TableNeverFalls(es);
    SumIsDifference(es, epoch, u);
    SumTelescopes(es, epoch - 1);
    SumIsZeroIffQuiet(Differenced(es), NTP_EPOCH, epoch - 1);
    SumIsZeroIffQuiet(Differenced(es), epoch, u);
  }

  /**
   And the round trip of a whole-second UTC instant loses the offset the table had before the epoch
   exactly when the table gives the same offset at u and at the TAI instant computed from it; it
   returns u itself exactly when, besides, that earlier offset was 0.
   */
  lemma TableRoundTripIff(g: Grain, es: seq<Line>, u: int, epoch: int, lost: int, later: int)
    requires LeapTable(es) && g.leaps == Differenced(es)
    requires NTP_EPOCH <= epoch <= u && (u - epoch) % SECOND == 0
    requires lost == TableOffset(es, epoch - 1) && later == u + (TableOffset(es, u) - lost) * SECOND
    ensures g.Utc2Tai(u, epoch).Ok?
    ensures var back := g.Tai2Utc(g.Utc2Tai(u, epoch).value, epoch);
            && (back == Ok(u - lost * SECOND) <==> TableOffset(es, u) == TableOffset(es, later))
            && (back == Ok(u) <==> lost == 0 && TableOffset(es, u) == TableOffset(es, later))
  {
    TableSums(es, u, epoch, lost);
    RoundTripFrom(g, u, epoch, lost, TableOffset(es, u) - lost, later);
    QuietIffSameOffset(es, u, later);
  }

  /** With the real table's first entry (10 s from 1972) the CryoSat epoch itself comes back 10 s early. */
  lemma RoundTripLosesPreEpochLeaps(g: Grain)
    requires g.leaps == [Leap(2_272_060_800 * SECOND, 10)]
    ensures g.Utc2Tai(CS2_EPOCH, CS2_EPOCH) == Ok(0)
    ensures g.Tai2Utc(0, CS2_EPOCH) == Ok(CS2_EPOCH - 10 * SECOND)
  {
    var leap := Leap(2_272_060_800 * SECOND, 10);
    assert g.leaps[..0] == [] && g.leaps[0] == leap;
    SumOfOne(leap, CS2_EPOCH, CS2_EPOCH);
    SumOfOne(leap, NTP_EPOCH, CS2_EPOCH);
  }

  lemma SumOfOne(leap: Leap, lo: int, hi: int)
    ensures SumWithin([leap], lo, hi) == if lo <= leap.at <= hi then leap.change else 0
  {
    assert [leap][..0] == [];
    assert SumWithin([], lo, hi) == 0;
  }
}
