/** Splitting the proceeds of one disposal over the slices that satisfied it. */
module Disposals {
  import opened Decimals
  import opened Calendar
  import opened Lots

  datatype Line = Line(lot: Lot, taken: int, proceeds: int, basis: int, gainLoss: int,
                       period: HoldingPeriod, assetClass: AssetClass, strategy: LotMethod)

  function MakeLine(s: Slice, proceeds: int, disposedAt: Instant, strategy: LotMethod): Line {
    Line(s.lot, s.taken, proceeds, s.basis, proceeds - s.basis, Holding(s.lot.acquiredAt, disposedAt),
         s.lot.assetClass, strategy)
  }

  /** Lines for the slices still to come, when `given` has gone to the earlier ones: pro rata and
      rounded down, except that the last line sweeps up whatever is left. */
  function LinesFrom(slices: seq<Slice>, total: int, proceeds: int, given: int, disposedAt: Instant,
                     strategy: LotMethod): seq<Line>
    requires total > 0
  {
    if slices == [] then []
    else if |slices| == 1 then [MakeLine(slices[0], proceeds - given, disposedAt, strategy)]
    else
      var share := Truncate(slices[0].taken * proceeds, total);
      [MakeLine(slices[0], share, disposedAt, strategy)]
      + LinesFrom(slices[1..], total, proceeds, given + share, disposedAt, strategy)
  }

  function BuildLines(slices: seq<Slice>, proceeds: int, disposedAt: Instant, strategy: LotMethod): seq<Line>
    requires slices != [] ==> Taken(slices) > 0
  {
    if slices == [] then [] else LinesFrom(slices, Taken(slices), proceeds, 0, disposedAt, strategy)
  }

  method AllocateProceeds(slices: seq<Slice>, proceeds: int, disposedAt: Instant, strategy: LotMethod)
    returns (lines: seq<Line>)
    requires slices != [] ==> Taken(slices) > 0
    ensures lines == BuildLines(slices, proceeds, disposedAt, strategy)
  {
    lines := [];
    if slices == [] {
      return;
    }
    var total := Taken(slices);
    var given := 0;
    var i := 0;
    while i < |slices|
      invariant 0 <= i <= |slices|
      invariant lines + LinesFrom(slices[i..], total, proceeds, given, disposedAt, strategy)
                == LinesFrom(slices, total, proceeds, 0, disposedAt, strategy)
    {
      var share;
      assert slices[i..][1..] == slices[i + 1..];
      ghost var before := given;
      if i == |slices| - 1 {
        share := proceeds - given;
        assert LinesFrom(slices[i + 1..], total, proceeds, given, disposedAt, strategy) == [];
      } else {
        share := Truncate(slices[i].taken * proceeds, total);
        given := given + share;
      }
      var line := MakeLine(slices[i], share, disposedAt, strategy);
      assert LinesFrom(slices[i..], total, proceeds, before, disposedAt, strategy)
          == [line] + LinesFrom(slices[i + 1..], total, proceeds, given, disposedAt, strategy);
      lines := lines + [line];
      i := i + 1;
    }
    assert lines + [] == lines;
  }

  function LineProceeds(lines: seq<Line>): int {
    if lines == [] then 0 else lines[0].proceeds + LineProceeds(lines[1..])
  }

  /** Each line keeps its slice, in order: the same lot, quantity and basis, a gain that is the proceeds less the
      basis, long-term only after the anniversary of the lot's own acquisition, and the lot's own class. */
  lemma {:induction false} LinesKeepSlices(slices: seq<Slice>, total: int, proceeds: int, given: int,
                                           disposedAt: Instant, strategy: LotMethod)
    requires total > 0
    ensures var lines := LinesFrom(slices, total, proceeds, given, disposedAt, strategy);
            && |lines| == |slices|
            && (forall i :: 0 <= i < |slices| ==>
                 lines[i] == MakeLine(slices[i], lines[i].proceeds, disposedAt, strategy))
            && (forall i :: 0 <= i < |slices| ==>
                 && lines[i].lot == slices[i].lot && lines[i].taken == slices[i].taken
                 && lines[i].basis == slices[i].basis
                 && lines[i].gainLoss == lines[i].proceeds - slices[i].basis
                 && (lines[i].period.Long?
                     <==> DateLt(Anniversary(slices[i].lot.acquiredAt.date), disposedAt.date))
                 && lines[i].assetClass == slices[i].lot.assetClass && lines[i].strategy == strategy)
  {
    if |slices| > 1 {
      var share := Truncate(slices[0].taken * proceeds, total);
      LinesKeepSlices(slices[1..], total, proceeds, given + share, disposedAt, strategy);
    }
  }

  /** No rounding leaks: the lines add up to the proceeds to the last digit, whatever their sign. */
  lemma {:induction false} ProceedsSumExact(slices: seq<Slice>, total: int, proceeds: int, given: int,
                                            disposedAt: Instant, strategy: LotMethod)
    requires total > 0 && slices != []
    ensures LineProceeds(LinesFrom(slices, total, proceeds, given, disposedAt, strategy)) == proceeds - given
  {
    var lines := LinesFrom(slices, total, proceeds, given, disposedAt, strategy);
    if |slices| > 1 {
      var share := Truncate(slices[0].taken * proceeds, total);
      ProceedsSumExact(slices[1..], total, proceeds, given + share, disposedAt, strategy);
      assert lines[1..] == LinesFrom(slices[1..], total, proceeds, given + share, disposedAt, strategy);
    } else {
      assert lines[1..] == [];
    }
  }

  ghost predicate AllPositive(slices: seq<Slice>) {
    forall i :: 0 <= i < |slices| ==> slices[i].taken > 0
  }

  /** A line's proceeds fall short of its exact pro-rata share by less than a unit and exceed it by at
      most `extra` units. */
  ghost predicate FairLine(line: Line, total: int, proceeds: int, extra: int) {
    line.taken * proceeds - total < line.proceeds * total <= line.taken * proceeds + extra * total
  }

  lemma ShareStep(taken: int, rest: int, total: int, proceeds: int, given: int, k: int)
    requires total > 0 && 0 <= proceeds && 0 < taken
    requires 0 <= (proceeds - given) * total - proceeds * (taken + rest) <= k * total
    ensures var share := Truncate(taken * proceeds, total);
            && 0 <= share
            && taken * proceeds - total < share * total <= taken * proceeds
            && 0 <= (proceeds - (given + share)) * total - proceeds * rest <= (k + 1) * total
  {
    var share := Truncate(taken * proceeds, total);
    TruncateTowardsZero(taken * proceeds, total);
    if share < 0 { ProductAtLeast(-share, total, 1); }
    assert (proceeds - (given + share)) * total == (proceeds - given) * total - share * total;
    assert proceeds * (taken + rest) == taken * proceeds + proceeds * rest;
    assert (k + 1) * total == k * total + total;
  }

  lemma {:induction false} TakenNonNegative(slices: seq<Slice>)
    requires AllPositive(slices)
    ensures Taken(slices) >= 0 && (slices != [] ==> Taken(slices) > 0)
  {
    if slices != [] {
      TakenNonNegative(slices[1..]);
    }
  }

  /** Proceeds that are not negative give no negative line, and every line is fair; only the sweep at
      the end can exceed its share, by less than one unit for each earlier line. */
  lemma {:induction false} LinesFair(slices: seq<Slice>, total: int, proceeds: int, given: int, k: int,
                                     disposedAt: Instant, strategy: LotMethod)
    requires total > 0 && AllPositive(slices) && proceeds >= 0 && k >= 0
    requires 0 <= (proceeds - given) * total - proceeds * Taken(slices) <= k * total
    ensures var lines := LinesFrom(slices, total, proceeds, given, disposedAt, strategy);
            forall i :: 0 <= i < |lines| ==>
              (lines[i].proceeds >= 0
                && FairLine(lines[i], total, proceeds, if i == |lines| - 1 then k + |lines| - 1 else 0))
  {
    var lines := LinesFrom(slices, total, proceeds, given, disposedAt, strategy);
    if slices == [] {
    } else if |slices| == 1 {
      assert Taken(slices) == slices[0].taken + Taken(slices[1..]) == slices[0].taken;
      SweepFair(slices[0].taken, total, proceeds, proceeds - given, k);
    } else {
      var rest := slices[1..];
      var share := Truncate(slices[0].taken * proceeds, total);
      ShareStep(slices[0].taken, Taken(rest), total, proceeds, given, k);
      LinesFair(rest, total, proceeds, given + share, k + 1, disposedAt, strategy);
      LinesKeepSlices(rest, total, proceeds, given + share, disposedAt, strategy);
      var tail := LinesFrom(rest, total, proceeds, given + share, disposedAt, strategy);
      forall i | 0 <= i < |lines|
        ensures lines[i].proceeds >= 0
                && FairLine(lines[i], total, proceeds, if i == |lines| - 1 then k + |lines| - 1 else 0)
      {
        if i > 0 {
          assert lines[i] == tail[i - 1];
        }
      }
    }
  }

  lemma SweepFair(taken: int, total: int, proceeds: int, swept: int, k: int)
    requires total > 0 && proceeds >= 0 && taken > 0
    requires 0 <= swept * total - proceeds * taken <= k * total
    ensures swept >= 0
    ensures taken * proceeds - total < swept * total <= taken * proceeds + k * total
  {
    assert proceeds * taken >= 0;
    if swept < 0 { ProductAtLeast(-swept, total, 1); }
  }

  /** The same, for a whole disposal. */
  lemma ProceedsFair(slices: seq<Slice>, proceeds: int, disposedAt: Instant, strategy: LotMethod)
    requires slices != [] && AllPositive(slices)
    ensures Taken(slices) > 0
    ensures var lines := BuildLines(slices, proceeds, disposedAt, strategy);
            && |lines| == |slices|
            && LineProceeds(lines) == proceeds
            && (proceeds >= 0 ==> forall i :: 0 <= i < |lines| ==>
                  (lines[i].proceeds >= 0
                    && FairLine(lines[i], Taken(slices), proceeds, if i == |lines| - 1 then |lines| - 1 else 0)))
  {
    TakenNonNegative(slices);
    LinesKeepSlices(slices, Taken(slices), proceeds, 0, disposedAt, strategy);
    ProceedsSumExact(slices, Taken(slices), proceeds, 0, disposedAt, strategy);
    if proceeds >= 0 {
      LinesFair(slices, Taken(slices), proceeds, 0, 0, disposedAt, strategy);
    }
  }
}
