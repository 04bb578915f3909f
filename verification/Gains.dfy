/** What every booked disposal says about itself, after any history: its gain, and the loss disallowed. */
module Gains {
  import opened Calendar
  import opened Sequences
  import opened Lots
  import opened Disposals
  import opened Events
  import opened Books
  import opened Guarantees

  /** The gain is the proceeds less the basis, and what is disallowed, if anything, is a loss, whole. */
  predicate GainHonest(row: DisposalRow) {
    && row.gainLoss == row.proceeds - row.basis
    && (row.adjustment.Some? ==> row.proceeds < row.basis && row.adjustment.value == row.basis - row.proceeds)
  }

  /** The event books this row: at its time, with its gain, and a loss disallowed exactly when it is a sale to a
      related party below basis. */
  predicate BooksRow(e: Event, row: DisposalRow) {
    && row.tx == e.id && row.disposedAt == e.occurredAt && row.gainLoss == row.proceeds - row.basis
    && row.adjustment == if e.resolution == Some(DisposalRelatedParty) && row.proceeds < row.basis
                         then Some(row.basis - row.proceeds) else None
  }

  /** The row is about this lot: some of what the wallet had left in it, long-term only if the day of the disposal
      is later than the anniversary of the acquisition. */
  predicate SoldFrom(row: DisposalRow, lot: Lot, wallet: nat, at: Instant) {
    && row.lot == lot.source && lot.wallet == wallet && 0 < row.taken <= lot.remaining
    && row.assetClass == lot.assetClass
    && (row.period.Long? <==> DateLt(Anniversary(lot.acquiredAt.date), at.date))
  }

  ghost predicate AnyRow(e: Event, lots: seq<Lot>, row: DisposalRow) {
    BooksRow(e, row) && exists i :: 0 <= i < |lots| && SoldFrom(row, lots[i], e.wallet, e.occurredAt)
  }

  lemma LineBooked(e: Event, slices: seq<Slice>, strategy: LotMethod, i: nat)
    requires slices != [] && Taken(slices) > 0 && i < |slices|
    ensures var lines := BuildLines(slices, ProceedsOf(e), e.occurredAt, strategy);
            && |lines| == |slices|
            && BooksRow(e, DisposalOf(e, lines[i])) && DisposalOf(e, lines[i]).strategy == strategy
            && DisposalOf(e, lines[i]).lot == slices[i].lot.source && DisposalOf(e, lines[i]).taken == slices[i].taken
            && DisposalOf(e, lines[i]).basis == slices[i].basis
            && DisposalOf(e, lines[i]).assetClass == slices[i].lot.assetClass
            && (DisposalOf(e, lines[i]).period.Long?
                <==> DateLt(Anniversary(slices[i].lot.acquiredAt.date), e.occurredAt.date))
  {
    LinesKeepSlices(slices, Taken(slices), ProceedsOf(e), 0, e.occurredAt, strategy);
  }

  lemma SliceFromLot(b: Books, e: Event, pool: Pool, strategy: LotMethod, slices: seq<Slice>, i: nat)
    requires Select(b.lots, e.wallet, pool, strategy, e.amount) == Covered(slices) && i < |slices|
    ensures slices[i].lot in b.lots && slices[i].lot.wallet == e.wallet
            && 0 < slices[i].taken <= slices[i].lot.remaining
  {
    var found, open := Filter(b.lots, InPool(e.wallet, pool)), OpenLots(b.lots, e.wallet, pool);
    SortMembers(found, OrderKey(Fifo));
    SortMembers(open, OrderKey(strategy));
    ConsumePrefix(OrderLots(strategy, open), e.amount);
    assert slices[i].lot == OrderLots(strategy, open)[i];
    assert slices[i].lot in open;
  }

  lemma SliceBooks(b: Books, e: Event, pool: Pool, strategy: LotMethod, slices: seq<Slice>, i: nat)
    requires Select(b.lots, e.wallet, pool, strategy, e.amount) == Covered(slices) && i < |slices|
    requires Taken(slices) > 0
    ensures var lines := BuildLines(slices, ProceedsOf(e), e.occurredAt, strategy);
            |lines| == |slices| && AnyRow(e, b.lots, DisposalOf(e, lines[i]))
            && DisposalOf(e, lines[i]).strategy == strategy
  {
    LineBooked(e, slices, strategy, i);
    SliceFromLot(b, e, pool, strategy, slices, i);
    var n :| 0 <= n < |b.lots| && b.lots[n] == slices[i].lot;
    var lines := BuildLines(slices, ProceedsOf(e), e.occurredAt, strategy);
    assert SoldFrom(DisposalOf(e, lines[i]), b.lots[n], e.wallet, e.occurredAt);
  }

  lemma OneRowEach(b: Books, e: Event, strategy: LotMethod, slices: seq<Slice>)
    requires slices != [] ==> Taken(slices) > 0
    ensures var lines := BuildLines(slices, ProceedsOf(e), e.occurredAt, strategy);
            && |lines| == |slices|
            && PostDisposal(b, e, slices, strategy).disposals == b.disposals + DisposalRows(e, lines)
  {
    if slices != [] {
      LinesKeepSlices(slices, Taken(slices), ProceedsOf(e), 0, e.occurredAt, strategy);
    }
  }

  lemma PostedRow(b: Books, e: Event, pool: Pool, strategy: LotMethod, slices: seq<Slice>, k: nat)
    requires Select(b.lots, e.wallet, pool, strategy, e.amount) == Covered(slices)
    requires slices != [] ==> Taken(slices) > 0
    requires |b.disposals| <= k < |PostDisposal(b, e, slices, strategy).disposals|
    ensures var row := PostDisposal(b, e, slices, strategy).disposals[k];
            AnyRow(e, b.lots, row) && row.strategy == strategy
  {
    OneRowEach(b, e, strategy, slices);
    var i := k - |b.disposals|;
    assert PostDisposal(b, e, slices, strategy).disposals[k]
        == DisposalOf(e, BuildLines(slices, ProceedsOf(e), e.occurredAt, strategy)[i]);
    SliceBooks(b, e, pool, strategy, slices, i);
  }

  /** Every row a disposal adds is booked by the event, on a lot of its wallet, under the wallet's method. */
  lemma DisposalBooks(reg: Registry, b: Books, e: Event, k: nat)
    requires |b.disposals| <= k < |ApplyDispose(reg, b, e).books.disposals|
    ensures var row := ApplyDispose(reg, b, e).books.disposals[k];
            AnyRow(e, b.lots, row) && row.strategy == MethodFor(reg, e)
  {
    var pool, strategy := CanonicalPool(reg, e.token.value), MethodFor(reg, e);
    SelectCovers(b.lots, e.wallet, pool, strategy, e.amount);
    match Select(b.lots, e.wallet, pool, strategy, e.amount) {
      case Insufficient(_) =>
      case Covered(slices) =>
        assert ApplyDispose(reg, b, e) == Posted(PostDisposal(b, e, slices, strategy));
        PostedRow(b, e, pool, strategy, slices, k);
    }
  }

  lemma DisposalKeepsRows(reg: Registry, b: Books, e: Event)
    ensures b.disposals <= ApplyDispose(reg, b, e).books.disposals
  {
  }

  lemma OnlyDisposalsDispose(reg: Registry, b: Books, e: Event)
    requires TreatmentOf(e) != Dispose && Apply(reg, b, e).Posted?
    ensures Apply(reg, b, e).books.disposals == b.disposals
  {
    match TreatmentOf(e) {
      case Acquire => assert ApplyAcquire(reg, b, e).books.disposals == b.disposals;
      case Relocate => RelocationDisposesNothing(reg, b, e);
      case GiveAway => assert ApplyGift(reg, b, e).books.disposals == b.disposals;
      case _ =>
    }
  }

  lemma RelocationDisposesNothing(reg: Registry, b: Books, e: Event)
    requires ApplyRelocation(reg, b, e).Posted?
    ensures ApplyRelocation(reg, b, e).books.disposals == b.disposals
  {
  }

  lemma ApplyBooks(reg: Registry, b: Books, e: Event)
    requires Apply(reg, b, e).Posted?
    ensures b.disposals <= Apply(reg, b, e).books.disposals
    ensures forall k :: |b.disposals| <= k < |Apply(reg, b, e).books.disposals| ==>
              TreatmentOf(e) == Dispose && BooksRow(e, Apply(reg, b, e).books.disposals[k])
  {
    if TreatmentOf(e) == Dispose {
      DisposalKeepsRows(reg, b, e);
      forall k | |b.disposals| <= k < |Apply(reg, b, e).books.disposals|
        ensures BooksRow(e, Apply(reg, b, e).books.disposals[k])
      {
        DisposalBooks(reg, b, e, k);
      }
    } else {
      OnlyDisposalsDispose(reg, b, e);
    }
  }

  /** One of the events sells, and books the row. */
  ghost predicate Booked(events: seq<Event>, row: DisposalRow) {
    exists e :: e in events && TreatmentOf(e) == Dispose && BooksRow(e, row)
  }

  /** Every disposal a pass adds is booked by one of its events that is a disposal. */
  lemma {:induction false} RunBooks(reg: Registry, b: Books, events: seq<Event>)
    requires Run(reg, b, events).Posted?
    ensures b.disposals <= Run(reg, b, events).books.disposals
    ensures forall k :: |b.disposals| <= k < |Run(reg, b, events).books.disposals| ==>
              Booked(events, Run(reg, b, events).books.disposals[k])
    decreases events
  {
    if events != [] {
      var mid, rows := Apply(reg, b, events[0]).books, Run(reg, b, events).books.disposals;
      ApplyBooks(reg, b, events[0]);
      RunBooks(reg, mid, events[1..]);
      forall k | |b.disposals| <= k < |rows|
        ensures Booked(events, rows[k])
      {
        if k < |mid.disposals| {
          assert rows[k] == mid.disposals[k];
          assert events[0] in events;
        } else {
          assert Booked(events[1..], rows[k]);
          var e :| e in events[1..] && TreatmentOf(e) == Dispose && BooksRow(e, rows[k]);
          assert e in events;
        }
      }
    }
  }

  ghost predicate AllHonest(rows: seq<DisposalRow>) {
    forall row :: row in rows ==> GainHonest(row)
  }

  lemma RunHonest(reg: Registry, b: Books, events: seq<Event>)
    requires AllHonest(b.disposals) && Run(reg, b, events).Posted?
    ensures AllHonest(Run(reg, b, events).books.disposals)
  {
    RunBooks(reg, b, events);
    var rows := Run(reg, b, events).books.disposals;
    forall row | row in rows ensures GainHonest(row) {
      var k :| 0 <= k < |rows| && rows[k] == row;
      if k < |b.disposals| {
        assert row == b.disposals[k];
      } else {
        assert Booked(events, rows[k]);
      }
    }
  }

  /** After any history every disposal's gain is its proceeds less its basis, and a loss is disallowed whole or
      not at all, and never a gain. */
  lemma {:induction false} HistoryHonest(b: Books, steps: seq<Step>)
    requires AllHonest(b.disposals)
    ensures AllHonest(History(b, steps).disposals)
    decreases steps
  {
    if steps != [] {
      match steps[0] {
        case Pass(reg, events) =>
          if Run(reg, b, events).Posted? {
            RunHonest(reg, b, events);
          }
        case Rebuilding(reg, wallet) =>
          if Rebuild(reg, b, wallet).Posted? {
            RunHonest(reg, Wipe(reg, b, wallet), WalletEvents(reg, wallet));
          }
      }
      HistoryHonest(After(b, steps[0]), steps[1..]);
    }
  }
}
