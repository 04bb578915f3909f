/** What a rebuild does to a wallet that relocations reach: which lots come back, and where its rows come from. */
module Rebuilding {
  import opened Sequences
  import opened Lots
  import opened Events
  import opened Books
  import opened Conservation
  import opened Guarantees
  import opened Flows
  import opened Scopes
  import opened Replay
  import opened Passes
  import opened Repeats

  // ---- Which lots come back ----

  /** The event opens a lot of its own. */
  predicate Opens(reg: Registry, e: Event) {
    && TreatmentOf(e) == Acquire && AcquiredValue(reg, e).Some? && e.token.Some?
    && EntityFor(reg.assignments, e.wallet, e.occurredAt.date).Some?
  }

  lemma OthersAddNoLot(reg: Registry, b: Books, e: Event, id: nat)
    requires TreatmentOf(e) != Acquire && Apply(reg, b, e).Posted?
    ensures HasLot(Apply(reg, b, e).books, id) ==> HasLot(b, id)
  {
    ApplyDescends(reg, b, e);
    match TreatmentOf(e) {
      case Dispose => DisposalAddsNoLot(reg, b, e);
      case Relocate => RelocationAddsNoLot(reg, b, e);
      case GiveAway => GiftAddsNoLot(reg, b, e);
      case _ =>
    }
    SameLotMarks(b, Apply(reg, b, e).books, id);
  }

  /** A lot appears only with the event that opens it. */
  lemma NewLotIsOpened(reg: Registry, b: Books, e: Event, id: nat)
    requires Apply(reg, b, e).Posted? && !HasLot(b, id) && HasLot(Apply(reg, b, e).books, id)
    ensures e.id == id && Opens(reg, e)
  {
    if TreatmentOf(e) != Acquire {
      OthersAddNoLot(reg, b, e, id);
    } else if e.id != id {
      AcquireMarks(reg, b, e, id);
    }
  }

  lemma {:induction false} NewLotsAreOpened(reg: Registry, b: Books, events: seq<Event>, id: nat)
    requires Run(reg, b, events).Posted? && !HasLot(b, id) && HasLot(Run(reg, b, events).books, id)
    ensures exists e :: e in events && e.id == id && Opens(reg, e)
    decreases events
  {
    assert events != [];
    var e, mid := events[0], Apply(reg, b, events[0]).books;
    if HasLot(mid, id) {
      NewLotIsOpened(reg, b, e, id);
      assert e in events;
    } else {
      NewLotsAreOpened(reg, mid, events[1..], id);
      var later :| later in events[1..] && later.id == id && Opens(reg, later);
      assert later in events;
    }
  }

  lemma LotsOutlast(before: Books, after: Books, id: nat)
    requires KeepsSources(before.lots, after.lots) && HasLot(before, id)
    ensures HasLot(after, id)
  {
    var i :| 0 <= i < |before.lots| && before.lots[i].source == id;
    assert after.lots[i].source == id;
  }

  lemma OpeningLeavesLot(reg: Registry, b: Books, e: Event)
    requires Opens(reg, e) && Apply(reg, b, e).Posted?
    ensures HasLot(Apply(reg, b, e).books, e.id)
  {
    var next := Apply(reg, b, e).books;
    if !HasLot(b, e.id) {
      assert next.lots[|b.lots|].source == e.id;
    }
  }

  lemma {:induction false} OpenedLotsStay(reg: Registry, b: Books, events: seq<Event>, e: Event)
    requires Run(reg, b, events).Posted? && e in events && Opens(reg, e)
    ensures HasLot(Run(reg, b, events).books, e.id)
    decreases events
  {
    var mid := Apply(reg, b, events[0]).books;
    if events[0] == e {
      OpeningLeavesLot(reg, b, e);
      RunSettles(reg, mid, events[1..]);
      LotsOutlast(mid, Run(reg, b, events).books, e.id);
    } else {
      OpenedLotsStay(reg, mid, events[1..], e);
    }
  }

  lemma WipedIsGone(reg: Registry, b: Books, wallet: nat, lot: Lot)
    requires DistinctSources(b.lots) && lot in b.lots && lot.wallet == wallet
    ensures !HasLot(Wipe(reg, b, wallet), lot.source)
  {
    var wiped := Wipe(reg, b, wallet);
    forall i | 0 <= i < |wiped.lots| ensures wiped.lots[i].source != lot.source {
      assert wiped.lots[i] in b.lots && wiped.lots[i].wallet != wallet;
      var j :| 0 <= j < |b.lots| && b.lots[j] == wiped.lots[i];
      var k :| 0 <= k < |b.lots| && b.lots[k] == lot;
    }
  }

  /** A rebuild that goes through loses no lot exactly when every lot the wallet holds was opened by an event of
      the wallet's own: what a relocation brought in from elsewhere is wiped and not brought back. */
  lemma LotsComeBackIff(reg: Registry, b: Books, wallet: nat)
    requires DistinctSources(b.lots) && Rebuild(reg, b, wallet).Posted?
    ensures (forall lot :: lot in b.lots ==> HasLot(Rebuild(reg, b, wallet).books, lot.source))
            <==> forall lot :: lot in b.lots && lot.wallet == wallet ==>
                   exists e :: e in WalletEvents(reg, wallet) && e.id == lot.source && Opens(reg, e)
  {
    var wiped, events, next := Wipe(reg, b, wallet), WalletEvents(reg, wallet), Rebuild(reg, b, wallet).books;
    forall lot | lot in b.lots && lot.wallet == wallet
      ensures HasLot(next, lot.source) <==> exists e :: e in events && e.id == lot.source && Opens(reg, e)
    {
      WipedIsGone(reg, b, wallet, lot);
      if HasLot(next, lot.source) {
        NewLotsAreOpened(reg, wiped, events, lot.source);
      }
      if e :| e in events && e.id == lot.source && Opens(reg, e) {
        OpenedLotsStay(reg, wiped, events, e);
      }
    }
    forall lot | lot in b.lots && lot.wallet != wallet ensures HasLot(next, lot.source) {
      assert lot in wiped.lots;
      RunSettles(reg, wiped, events);
      LotsOutlast(wiped, next, lot.source);
    }
  }

  // ---- What a replay gathers ----

  /** Lots stay in the wallet, or come into it; new ones are opened there. */
  ghost predicate Gathers(before: seq<Lot>, after: seq<Lot>, wallet: nat) {
    && KeepsSources(before, after)
    && (forall i :: 0 <= i < |before| ==> after[i].wallet == before[i].wallet || after[i].wallet == wallet)
    && (forall i :: |before| <= i < |after| ==> after[i].wallet == wallet)
  }

  lemma DisposalGathers(reg: Registry, b: Books, e: Event)
    ensures Gathers(b.lots, ApplyDispose(reg, b, e).books.lots, e.wallet)
  {
    if e.token.Some? {
      SelectCovers(b.lots, e.wallet, CanonicalPool(reg, e.token.value), MethodFor(reg, e), e.amount);
    }
  }

  lemma GiftGathers(reg: Registry, b: Books, e: Event)
    ensures Gathers(b.lots, ApplyGift(reg, b, e).books.lots, e.wallet)
  {
  }

  lemma MoveGathers(lots: seq<Lot>, slices: seq<Slice>, to: nat, entity: Option<nat>,
                    acquisition: Option<AcquisitionType>)
    ensures Gathers(lots, Move(lots, slices, to, entity, acquisition), to)
  {
  }

  lemma RelocationGathers(reg: Registry, b: Books, e: Event)
    requires ApplyRelocation(reg, b, e).Posted?
    ensures Gathers(b.lots, ApplyRelocation(reg, b, e).books.lots, e.wallet)
  {
    if !HasRelocation(b, e.id) && SourceEvent(reg, e).Some? && e.token.Some? {
      match Select(b.lots, SourceEvent(reg, e).value.wallet, CanonicalPool(reg, e.token.value), Fifo, e.amount) {
        case Insufficient(_) =>
        case Covered(slices) =>
          MoveGathers(b.lots, slices, e.wallet, EntityFor(reg.assignments, e.wallet, e.occurredAt.date), RetypedAs(e));
      }
    }
  }

  lemma ApplyGathers(reg: Registry, b: Books, e: Event)
    requires Apply(reg, b, e).Posted?
    ensures Gathers(b.lots, Apply(reg, b, e).books.lots, e.wallet)
  {
    match TreatmentOf(e) {
      case Dispose => DisposalGathers(reg, b, e);
      case Relocate => RelocationGathers(reg, b, e);
      case GiveAway => GiftGathers(reg, b, e);
      case _ =>
    }
  }

  /** A row that an event of the wallet adds is about a lot that is in the wallet from then on, and that was
      where the row says it came from. */
  ghost predicate RowGathered(before: seq<Lot>, after: Books, wallet: nat, row: RelocationRow) {
    && LotIn(after, row.lot, wallet)
    && exists k :: 0 <= k < |before| && before[k].source == row.lot && before[k].wallet == row.from
  }

  /** The relocation rows an event adds. */
  ghost predicate RowsGathered(before: Books, after: Books, wallet: nat) {
    && before.relocations <= after.relocations
    && forall i :: |before.relocations| <= i < |after.relocations| ==>
         RowGathered(before.lots, after, wallet, after.relocations[i])
  }

  /** Every lot the slices were cut from is in the wallet now. */
  ghost predicate BroughtTo(before: seq<Lot>, after: seq<Lot>, slices: seq<Slice>, wallet: nat) {
    && |after| == |before|
    && forall k :: 0 <= k < |before| && Touches(slices, before[k].source) ==>
         after[k].source == before[k].source && after[k].wallet == wallet
  }

  lemma SliceGathered(b: Books, next: Books, from: nat, pool: Pool, slices: seq<Slice>, wallet: nat, i: nat,
                      row: RelocationRow)
    requires FromPool(b.lots, from, pool, slices) && BroughtTo(b.lots, next.lots, slices, wallet)
    requires i < |slices| && row.lot == slices[i].lot.source && row.from == from
    ensures RowGathered(b.lots, next, wallet, row)
  {
    assert slices[i].lot in b.lots && LotKey(slices[i].lot) == Key(from, Some(pool));
    var k :| 0 <= k < |b.lots| && b.lots[k] == slices[i].lot;
    assert Touches(slices, b.lots[k].source);
    assert next.lots[k].source == row.lot && next.lots[k].wallet == wallet;
  }

  lemma MovesGathered(b: Books, next: Books, e: Event, from: nat, pool: Pool, slices: seq<Slice>, reason: MoveReason,
                      row: RelocationRow)
    requires FromPool(b.lots, from, pool, slices) && BroughtTo(b.lots, next.lots, slices, e.wallet)
    requires row in RelocationRows(e, slices, from, e.wallet, reason)
    ensures RowGathered(b.lots, next, e.wallet, row)
  {
    var rows := RelocationRows(e, slices, from, e.wallet, reason);
    var j :| 0 <= j < |rows| && rows[j] == row;
    SliceGathered(b, next, from, pool, slices, e.wallet, j, row);
  }

  lemma AppendedRows(before: Books, after: Books, rows: seq<RelocationRow>, wallet: nat)
    requires after.relocations == before.relocations + rows
    requires forall row :: row in rows ==> RowGathered(before.lots, after, wallet, row)
    ensures RowsGathered(before, after, wallet)
  {
    forall i | |before.relocations| <= i < |after.relocations|
      ensures RowGathered(before.lots, after, wallet, after.relocations[i])
    {
      assert after.relocations[i] == rows[i - |before.relocations|];
    }
  }

  lemma NewRowsGathered(b: Books, next: Books, e: Event, from: nat, pool: Pool, slices: seq<Slice>, reason: MoveReason)
    requires FromPool(b.lots, from, pool, slices) && BroughtTo(b.lots, next.lots, slices, e.wallet)
    requires next.relocations == b.relocations + RelocationRows(e, slices, from, e.wallet, reason)
    ensures RowsGathered(b, next, e.wallet)
  {
    var rows := RelocationRows(e, slices, from, e.wallet, reason);
    forall row | row in rows ensures RowGathered(b.lots, next, e.wallet, row) {
      MovesGathered(b, next, e, from, pool, slices, reason, row);
    }
    AppendedRows(b, next, rows, e.wallet);
  }

  lemma PostGiftGathered(b: Books, e: Event, pool: Pool, slices: seq<Slice>)
    requires DistinctSources(b.lots) && FromPool(b.lots, e.wallet, pool, slices)
    ensures RowsGathered(b, PostGift(b, e, slices), e.wallet)
  {
    forall k | 0 <= k < |b.lots| && Touches(slices, b.lots[k].source) ensures b.lots[k].wallet == e.wallet {
      TouchedLotKey(b.lots, e.wallet, pool, slices, k);
    }
    NewRowsGathered(b, PostGift(b, e, slices), e, e.wallet, pool, slices, Gifted);
  }

  lemma PostMoveGathered(reg: Registry, b: Books, e: Event, from: nat, pool: Pool, slices: seq<Slice>)
    requires FromPool(b.lots, from, pool, slices)
    ensures RowsGathered(b, PostMove(reg, b, e, from, slices), e.wallet)
  {
    var next := PostMove(reg, b, e, from, slices);
    NewRowsGathered(b, next, e, from, pool, slices, MoveReasonOf(e));
  }

  lemma FlagGathered(before: Books, b: Books, e: Event, wallet: nat)
    requires RowsGathered(before, b, wallet)
    ensures RowsGathered(before, FlagGift(b, e), wallet)
  {
    var next := FlagGift(b, e);
    forall i | |before.relocations| <= i < |next.relocations|
      ensures RowGathered(before.lots, next, wallet, next.relocations[i])
    {
      assert RowGathered(before.lots, b, wallet, b.relocations[i]);
    }
  }

  lemma GiftRowsGathered(reg: Registry, b: Books, e: Event)
    requires DistinctSources(b.lots)
    ensures RowsGathered(b, ApplyGift(reg, b, e).books, e.wallet)
  {
    if !HasRelocation(b, e.id) && e.token.Some? {
      var pool, strategy := CanonicalPool(reg, e.token.value), MethodFor(reg, e);
      SelectionFromPool(b.lots, e.wallet, pool, strategy, e.amount);
      match Select(b.lots, e.wallet, pool, strategy, e.amount) {
        case Insufficient(_) =>
        case Covered(slices) => PostGiftGathered(b, e, pool, slices);
      }
    }
  }

  lemma RelocationRowsGathered(reg: Registry, b: Books, e: Event)
    requires ApplyRelocation(reg, b, e).Posted?
    ensures RowsGathered(b, ApplyRelocation(reg, b, e).books, e.wallet)
  {
    FlagGathered(b, b, e, e.wallet);
    if !HasRelocation(b, e.id) && SourceEvent(reg, e).Some? && e.token.Some? {
      var from, pool := SourceEvent(reg, e).value.wallet, CanonicalPool(reg, e.token.value);
      SelectionFromPool(b.lots, from, pool, Fifo, e.amount);
      match Select(b.lots, from, pool, Fifo, e.amount) {
        case Insufficient(_) =>
        case Covered(slices) =>
          PostMoveGathered(reg, b, e, from, pool, slices);
          FlagGathered(b, PostMove(reg, b, e, from, slices), e, e.wallet);
      }
    }
  }

  lemma ApplyRowsGathered(reg: Registry, b: Books, e: Event)
    requires DistinctSources(b.lots) && Apply(reg, b, e).Posted?
    ensures RowsGathered(b, Apply(reg, b, e).books, e.wallet)
  {
    match TreatmentOf(e) {
      case Relocate => RelocationRowsGathered(reg, b, e);
      case GiveAway => GiftRowsGathered(reg, b, e);
      case _ =>
    }
  }

  lemma LotInStays(before: Books, after: Books, wallet: nat, id: nat)
    requires Gathers(before.lots, after.lots, wallet) && LotIn(before, id, wallet)
    ensures LotIn(after, id, wallet)
  {
    var i :| 0 <= i < |before.lots| && before.lots[i].source == id && before.lots[i].wallet == wallet;
    assert after.lots[i].source == id && after.lots[i].wallet == wallet;
  }

  /** Since `base`: lots elsewhere were there already, and a relocation row added since is about a lot of the
      wallet's, one of the base's when it came from elsewhere. */
  ghost predicate Gathered(base: Books, b: Books, wallet: nat) {
    && Sound(b) && Gathers(base.lots, b.lots, wallet) && base.relocations <= b.relocations
    && forall i :: |base.relocations| <= i < |b.relocations| ==>
         && LotIn(b, b.relocations[i].lot, wallet)
         && (b.relocations[i].from != wallet ==> HasLot(base, b.relocations[i].lot))
  }

  lemma GatheredStep(reg: Registry, base: Books, b: Books, e: Event, wallet: nat)
    requires Gathered(base, b, wallet) && e.wallet == wallet && Apply(reg, b, e).Posted?
    ensures Gathered(base, Apply(reg, b, e).books, wallet)
  {
    var next := Apply(reg, b, e).books;
    ApplySound(reg, b, e);
    ApplyGathers(reg, b, e);
    ApplyRowsGathered(reg, b, e);
    forall i | |base.relocations| <= i < |next.relocations|
      ensures LotIn(next, next.relocations[i].lot, wallet)
      ensures next.relocations[i].from != wallet ==> HasLot(base, next.relocations[i].lot)
    {
      var row := next.relocations[i];
      if i < |b.relocations| {
        assert row == b.relocations[i];
        LotInStays(b, next, wallet, row.lot);
      } else {
        assert RowGathered(b.lots, next, wallet, row);
        var k :| 0 <= k < |b.lots| && b.lots[k].source == row.lot && b.lots[k].wallet == row.from;
        if row.from != wallet {
          assert base.lots[k].source == row.lot;
        }
      }
    }
  }

  lemma {:induction false} GatheredRun(reg: Registry, base: Books, b: Books, events: seq<Event>, wallet: nat)
    requires Gathered(base, b, wallet) && Run(reg, b, events).Posted?
    requires forall e :: e in events ==> e.wallet == wallet
    ensures Gathered(base, Run(reg, b, events).books, wallet)
    decreases events
  {
    if events != [] {
      assert events[0] in events;
      GatheredStep(reg, base, b, events[0], wallet);
      GatheredRun(reg, base, Apply(reg, b, events[0]).books, events[1..], wallet);
    }
  }
}
