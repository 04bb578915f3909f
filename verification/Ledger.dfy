/** The lot engine as it runs: tables updated in place, row by row, each method proved against what
    module Books says the event does. */
module LedgerClass {
  import opened Sequences
  import opened Lots
  import opened Disposals
  import opened Events
  import opened Books
  import opened Guarantees
  import opened Passes

  // ---- Row by row is all at once ----

  lemma {:induction false} DeductTwice(lots: seq<Lot>, a: seq<Slice>, b: seq<Slice>)
    ensures Deduct(Deduct(lots, a), b) == Deduct(lots, a + b)
  {
    if lots != [] {
      TakeOfAppend(a, b, lots[0].source);
      DeductTwice(lots[1..], a, b);
      assert Deduct(lots, a)[1..] == Deduct(lots[1..], a);
    }
  }

  lemma DeductNext(lots: seq<Lot>, slices: seq<Slice>, i: nat)
    requires i < |slices|
    ensures Deduct(Deduct(lots, slices[..i]), [slices[i]]) == Deduct(lots, slices[..i + 1])
  {
    DeductTwice(lots, slices[..i], [slices[i]]);
    assert slices[..i + 1] == slices[..i] + [slices[i]];
  }

  lemma MoveNext(lots: seq<Lot>, slices: seq<Slice>, i: nat, to: nat, entity: Option<nat>)
    requires i < |slices|
    ensures Move(Move(lots, slices[..i], to, entity, None), [slices[i]], to, entity, None)
            == Move(lots, slices[..i + 1], to, entity, None)
  {
    MoveTwice(lots, slices[..i], [slices[i]], to, entity);
    assert slices[..i + 1] == slices[..i] + [slices[i]];
  }

  lemma TouchesAppend(a: seq<Slice>, b: seq<Slice>, source: nat)
    ensures Touches(a + b, source) <==> Touches(a, source) || Touches(b, source)
  {
    if Touches(a, source) {
      var i :| 0 <= i < |a| && a[i].lot.source == source;
      assert (a + b)[i].lot.source == source;
    }
    if Touches(b, source) {
      var i :| 0 <= i < |b| && b[i].lot.source == source;
      assert (a + b)[|a| + i].lot.source == source;
    }
    if Touches(a + b, source) {
      var i :| 0 <= i < |a + b| && (a + b)[i].lot.source == source;
      assert if i < |a| then a[i].lot.source == source else b[i - |a|].lot.source == source;
    }
  }

  lemma {:induction false} MoveTwice(lots: seq<Lot>, a: seq<Slice>, b: seq<Slice>, to: nat, entity: Option<nat>)
    ensures Move(Move(lots, a, to, entity, None), b, to, entity, None) == Move(lots, a + b, to, entity, None)
  {
    if lots != [] {
      TouchesAppend(a, b, lots[0].source);
      MoveTwice(lots[1..], a, b, to, entity);
      assert Move(lots, a, to, entity, None)[1..] == Move(lots[1..], a, to, entity, None);
    }
  }

  /** Sets the acquisition type of one lot. */
  function Retype(lots: seq<Lot>, source: nat, acquisition: AcquisitionType): (r: seq<Lot>)
    ensures |r| == |lots|
    ensures forall i :: 0 <= i < |lots| ==>
              r[i] == if lots[i].source == source then lots[i].(acquisition := acquisition) else lots[i]
  {
    if lots == [] then []
    else
      var first := if lots[0].source == source then lots[0].(acquisition := acquisition) else lots[0];
      [first] + Retype(lots[1..], source, acquisition)
  }

  function RetypeAll(lots: seq<Lot>, slices: seq<Slice>, acquisition: AcquisitionType): (r: seq<Lot>)
    ensures |r| == |lots|
    ensures forall i :: 0 <= i < |lots| ==>
              r[i] == if Touches(slices, lots[i].source) then lots[i].(acquisition := acquisition) else lots[i]
  {
    if slices == [] then lots
    else
      var last := |slices| - 1;
      TouchesLast(slices, lots);
      Retype(RetypeAll(lots, slices[..last], acquisition), slices[last].lot.source, acquisition)
  }

  lemma TouchesLast(slices: seq<Slice>, lots: seq<Lot>)
    requires slices != []
    ensures forall i :: 0 <= i < |lots| ==> (Touches(slices, lots[i].source)
              <==> Touches(slices[..|slices| - 1], lots[i].source) || slices[|slices| - 1].lot.source == lots[i].source)
  {
    var init, last := slices[..|slices| - 1], slices[|slices| - 1];
    forall i | 0 <= i < |lots|
      ensures Touches(slices, lots[i].source) <==> Touches(init, lots[i].source) || last.lot.source == lots[i].source
    {
      TouchesAppend(init, [last], lots[i].source);
      assert slices == init + [last];
      assert Touches([last], lots[i].source) <==> [last][0].lot.source == lots[i].source;
    }
  }

  lemma MoveThenRetype(lots: seq<Lot>, slices: seq<Slice>, to: nat, entity: Option<nat>, acquisition: AcquisitionType)
    ensures RetypeAll(Move(lots, slices, to, entity, None), slices, acquisition)
            == Move(lots, slices, to, entity, Some(acquisition))
  {
    var moved := Move(lots, slices, to, entity, None);
    assert forall i :: 0 <= i < |lots| ==> moved[i].source == lots[i].source;
  }

  lemma PipelineStep(reg: Registry, b: Books, wallets: seq<nat>, i: nat)
    requires i < |wallets|
    ensures Run(reg, b, PipelineEvents(reg, wallets[i..]))
         == match Run(reg, b, WalletEvents(reg, wallets[i]))
            case Raised => Raised
            case Posted(mid) => Run(reg, mid, PipelineEvents(reg, wallets[i + 1..]))
  {
    assert wallets[i..][1..] == wallets[i + 1..];
    RunAppend(reg, b, WalletEvents(reg, wallets[i]), PipelineEvents(reg, wallets[i + 1..]));
  }

  // ---- The ledger ----

  class Ledger {
    var lots: seq<Lot>
    var disposals: seq<DisposalRow>
    var relocations: seq<RelocationRow>
    var failures: seq<Failure>
    var flagged: set<nat>
    ghost var gifts: seq<GiftRow>

    ghost function View(): Books
      reads this
    {
      Books(lots, disposals, relocations, gifts, failures, flagged)
    }

    constructor ()
      ensures View() == EMPTY
    {
      lots, disposals, relocations, failures, flagged, gifts := [], [], [], [], {}, [];
    }

    method RecordException(e: Event, reason: Reason, unmatched: Option<int>)
      modifies this
      ensures View() == Fail(old(View()), e, reason, unmatched)
    {
      failures := failures + [Failure(e.id, reason, unmatched)];
    }

    method Acquire(reg: Registry, e: Event) returns (ok: bool)
      modifies this
      ensures ok <==> ApplyAcquire(reg, old(View()), e).Posted?
      ensures View() == if ok then ApplyAcquire(reg, old(View()), e).books else old(View())
    {
      ok := true;
      if exists i :: 0 <= i < |lots| && lots[i].source == e.id {
        return;
      }
      var value := AcquiredValue(reg, e);
      var entity := EntityFor(reg.assignments, e.wallet, e.occurredAt.date);
      if value.None? || entity.None? || e.token.None? {
        RecordException(e, MissingBasis, None);
        return;
      }
      if e.amount < 0 {
        ok := false;
        return;
      }
      lots := lots + [NewLot(reg, e, value.value, entity.value, e.token.value)];
    }

    method Dispose(reg: Registry, e: Event)
      modifies this
      ensures View() == ApplyDispose(reg, old(View()), e).books
    {
      if exists i :: 0 <= i < |disposals| && disposals[i].tx == e.id {
        return;
      }
      if e.token.None? {
        RecordException(e, MissingBasis, None);
        return;
      }
      var strategy := MethodFor(reg, e);
      var allocation := SelectLots(reg, e, e.wallet, e.token.value, strategy);
      if allocation.Insufficient? {
        RecordException(e, InsufficientLots, Some(allocation.unmatched));
        return;
      }
      DisposeSlices(e, allocation.slices, strategy);
    }

    /** The open lots of a wallet's pool, walked in the order of the method. */
    method SelectLots(reg: Registry, e: Event, wallet: nat, token: nat, strategy: LotMethod)
      returns (allocation: Allocation)
      ensures allocation == Select(lots, wallet, CanonicalPool(reg, token), strategy, e.amount)
      ensures allocation.Covered? && allocation.slices != [] ==> Taken(allocation.slices) > 0
    {
      var open := OpenLots(lots, wallet, CanonicalPool(reg, token));
      allocation := ConsumeLots(strategy, open, e.amount);
      SelectCovers(lots, wallet, CanonicalPool(reg, token), strategy, e.amount);
    }

    method DisposeSlices(e: Event, slices: seq<Slice>, strategy: LotMethod)
      requires slices != [] ==> Taken(slices) > 0
      modifies this
      ensures View() == PostDisposal(old(View()), e, slices, strategy)
    {
      var lines := AllocateProceeds(slices, ProceedsOf(e), e.occurredAt, strategy);
      if slices != [] {
        LinesKeepSlices(slices, Taken(slices), ProceedsOf(e), 0, e.occurredAt, strategy);
      }
      PostLines(e, slices, lines);
    }

    /** Decrements each lot and inserts its disposal, line by line. */
    method PostLines(e: Event, ghost slices: seq<Slice>, lines: seq<Line>)
      requires |lines| == |slices|
      requires forall i :: 0 <= i < |slices| ==>
                 Slice(lines[i].lot, lines[i].taken, lines[i].basis) == slices[i]
      modifies this`lots, this`disposals
      ensures View() == old(View()).(lots := Deduct(old(lots), slices),
                                     disposals := old(disposals) + DisposalRows(e, lines))
    {
      NothingDeducted(lots);
      ghost var rows := DisposalRows(e, lines);
      var i := 0;
      while i < |lines|
        invariant 0 <= i <= |lines|
        invariant lots == Deduct(old(lots), slices[..i])
        invariant disposals == old(disposals) + rows[..i]
      {
        var line := lines[i];
        DeductNext(old(lots), slices, i);
        AppendNext(old(disposals), rows, i);
        lots := Deduct(lots, [Slice(line.lot, line.taken, line.basis)]);
        disposals := disposals + [DisposalOf(e, line)];
        i := i + 1;
      }
      assert slices[..i] == slices && rows[..i] == rows;
    }

    method GiftOut(reg: Registry, e: Event)
      modifies this
      ensures View() == ApplyGift(reg, old(View()), e).books
    {
      if exists i :: 0 <= i < |relocations| && relocations[i].tx == e.id {
        return;
      }
      if e.token.None? {
        RecordException(e, MissingBasis, None);
        return;
      }
      var allocation := SelectLots(reg, e, e.wallet, e.token.value, MethodFor(reg, e));
      if allocation.Insufficient? {
        RecordException(e, InsufficientLots, Some(allocation.unmatched));
        return;
      }
      PostGiftSlices(e, allocation.slices);
      flagged := flagged + {e.id};
    }

    method PostGiftSlices(e: Event, slices: seq<Slice>)
      modifies this`lots, this`relocations, this`gifts
      ensures View() == PostGift(old(View()), e, slices).(flagged := old(flagged))
    {
      NothingDeducted(lots);
      ghost var moves, given := RelocationRows(e, slices, e.wallet, e.wallet, Gifted), GiftRows(e, slices);
      var i := 0;
      while i < |slices|
        invariant 0 <= i <= |slices|
        invariant lots == Deduct(old(lots), slices[..i])
        invariant relocations == old(relocations) + moves[..i]
        invariant gifts == old(gifts) + given[..i]
      {
        var s := slices[i];
        DeductNext(old(lots), slices, i);
        AppendNext(old(relocations), moves, i);
        AppendNext(old(gifts), given, i);
        lots := Deduct(lots, [s]);
        relocations := relocations + [RelocationRow(s.lot.source, e.wallet, e.wallet, Gifted, e.id, e.occurredAt)];
        gifts := gifts + [GiftRow(s.lot.source, e.id, s.taken, s.basis)];
        i := i + 1;
      }
      assert slices[..i] == slices && moves[..i] == moves && given[..i] == given;
    }

    /** apply_relocation: moves whole lots and records where they went. */
    method MoveSlices(e: Event, from: nat, reason: MoveReason, entity: Option<nat>, slices: seq<Slice>)
      modifies this`lots, this`relocations
      ensures View() == old(View()).(lots := Move(old(lots), slices, e.wallet, entity, None),
                                     relocations := old(relocations) +
                                                    RelocationRows(e, slices, from, e.wallet, reason))
    {
      NothingMoved(lots, e.wallet, entity, None);
      ghost var moves := RelocationRows(e, slices, from, e.wallet, reason);
      var i := 0;
      while i < |slices|
        invariant 0 <= i <= |slices|
        invariant lots == Move(old(lots), slices[..i], e.wallet, entity, None)
        invariant relocations == old(relocations) + moves[..i]
      {
        var s := slices[i];
        MoveNext(old(lots), slices, i, e.wallet, entity);
        AppendNext(old(relocations), moves, i);
        lots := Move(lots, [s], e.wallet, entity, None);
        relocations := relocations + [RelocationRow(s.lot.source, from, e.wallet, reason, e.id, e.occurredAt)];
        i := i + 1;
      }
      assert slices[..i] == slices && moves[..i] == moves;
    }

    method RetypeSlices(slices: seq<Slice>, acquisition: AcquisitionType)
      modifies this`lots
      ensures lots == RetypeAll(old(lots), slices, acquisition)
    {
      var i := 0;
      while i < |slices|
        invariant 0 <= i <= |slices|
        invariant lots == RetypeAll(old(lots), slices[..i], acquisition)
      {
        assert slices[..i + 1][..i] == slices[..i];
        lots := Retype(lots, slices[i].lot.source, acquisition);
        i := i + 1;
      }
      assert slices[..i] == slices;
    }

    method Relocate(reg: Registry, e: Event) returns (ok: bool)
      modifies this
      ensures ok <==> ApplyRelocation(reg, old(View()), e).Posted?
      ensures View() == if ok then ApplyRelocation(reg, old(View()), e).books else old(View())
    {
      ok := true;
      if exists i :: 0 <= i < |relocations| && relocations[i].tx == e.id {
        return;
      }
      var outflow := SourceEvent(reg, e);
      if outflow.None? {
        RecordException(e, MissingBasis, None);
        return;
      }
      if e.token.Some? {
        var from := outflow.value.wallet;
        var allocation := SelectLots(reg, e, from, e.token.value, Fifo);
        if allocation.Insufficient? {
          ok := false;
          return;
        }
        var entity := EntityFor(reg.assignments, e.wallet, e.occurredAt.date);
        MoveSlices(e, from, MoveReasonOf(e), entity, allocation.slices);
        var acquisition := RetypedAs(e);
        if acquisition.Some? {
          RetypeSlices(allocation.slices, acquisition.value);
          MoveThenRetype(old(lots), allocation.slices, e.wallet, entity, acquisition.value);
        }
        assert View() == PostMove(reg, old(View()), e, from, allocation.slices);
      }
      if e.resolution == Some(RelocateGift) {
        flagged := flagged + {e.id};
      }
    }

    method ApplyEvent(reg: Registry, e: Event) returns (ok: bool)
      modifies this
      ensures ok <==> Apply(reg, old(View()), e).Posted?
      ensures View() == if ok then Apply(reg, old(View()), e).books else old(View())
    {
      ok := true;
      match TreatmentOf(e) {
        case Nothing | Wait =>
        case Acquire => ok := Acquire(reg, e);
        case Dispose => Dispose(reg, e);
        case Relocate => ok := Relocate(reg, e);
        case GiveAway => GiftOut(reg, e);
        case Lend => flagged := flagged + {e.id};
      }
    }

    /** Applies events in order; the first one that throws takes the whole transaction with it. */
    method ApplyAll(reg: Registry, events: seq<Event>) returns (ok: bool)
      modifies this
      ensures ok <==> Run(reg, old(View()), events).Posted?
      ensures View() == if ok then Run(reg, old(View()), events).books else old(View())
    {
      var lots0, disposals0, relocations0, failures0, flagged0 := lots, disposals, relocations, failures, flagged;
      ghost var gifts0 := gifts;
      var i := 0;
      while i < |events|
        invariant 0 <= i <= |events|
        invariant Run(reg, old(View()), events) == Run(reg, View(), events[i..])
      {
        assert events[i..][1..] == events[i + 1..];
        ok := ApplyEvent(reg, events[i]);
        if !ok {
          lots, disposals, relocations, failures, flagged := lots0, disposals0, relocations0, failures0, flagged0;
          gifts := gifts0;
          return;
        }
        i := i + 1;
      }
      ok := true;
    }

    method ProcessWallet(reg: Registry, wallet: nat) returns (ok: bool)
      modifies this
      ensures ok <==> Run(reg, old(View()), WalletEvents(reg, wallet)).Posted?
      ensures View() == if ok then Run(reg, old(View()), WalletEvents(reg, wallet)).books else old(View())
    {
      ok := ApplyAll(reg, WalletEvents(reg, wallet));
    }

    /** Wallet by wallet, until one throws. */
    method ProcessWallets(reg: Registry, wallets: seq<nat>) returns (ok: bool)
      modifies this
      ensures ok <==> Run(reg, old(View()), PipelineEvents(reg, wallets)).Posted?
      ensures ok ==> View() == Run(reg, old(View()), PipelineEvents(reg, wallets)).books
    {
      ghost var target := Run(reg, View(), PipelineEvents(reg, wallets));
      var i := 0;
      while i < |wallets|
        invariant 0 <= i <= |wallets|
        invariant target == Run(reg, View(), PipelineEvents(reg, wallets[i..]))
      {
        PipelineStep(reg, View(), wallets, i);
        ok := ProcessWallet(reg, wallets[i]);
        if !ok {
          return;
        }
        i := i + 1;
      }
      assert target == Posted(View()) by { assert wallets[i..] == []; }
      ok := true;
    }

    /** The pipeline: all the wallets in one transaction. */
    method RunPipeline(reg: Registry, wallets: seq<nat>) returns (ok: bool)
      modifies this
      ensures ok <==> Run(reg, old(View()), PipelineEvents(reg, wallets)).Posted?
      ensures View() == if ok then Run(reg, old(View()), PipelineEvents(reg, wallets)).books else old(View())
    {
      var lots0, disposals0, relocations0, failures0, flagged0 := lots, disposals, relocations, failures, flagged;
      ghost var gifts0 := gifts;
      ok := ProcessWallets(reg, wallets);
      if !ok {
        lots, disposals, relocations, failures, flagged := lots0, disposals0, relocations0, failures0, flagged0;
        gifts := gifts0;
      }
    }

    method WipeWallet(reg: Registry, wallet: nat)
      modifies this
      ensures View() == Wipe(reg, old(View()), wallet)
    {
      ghost var before := View();
      var ids := set lot | lot in lots && lot.wallet == wallet :: lot.source;
      forall id: nat ensures id in ids <==> LotIn(before, id, wallet) {
        if LotIn(before, id, wallet) {
          var i :| 0 <= i < |lots| && lots[i].source == id && lots[i].wallet == wallet;
          assert lots[i] in lots;
        }
      }
      FilterSame(disposals, (row: DisposalRow) => row.lot !in ids, OnOtherLot(before, wallet));
      FilterSame(relocations, (row: RelocationRow) => row.lot !in ids, MovesOtherLot(before, wallet));
      FilterSame(gifts, (row: GiftRow) => row.lot !in ids, GivesOtherLot(before, wallet));
      disposals := Filter(disposals, (row: DisposalRow) => row.lot !in ids);
      relocations := Filter(relocations, (row: RelocationRow) => row.lot !in ids);
      gifts := Filter(gifts, (row: GiftRow) => row.lot !in ids);
      failures := Filter(failures, FailedElsewhere(reg, wallet));
      lots := Filter(lots, HeldElsewhere(wallet));
    }

    method RebuildWallet(reg: Registry, wallet: nat) returns (ok: bool)
      modifies this
      ensures ok <==> Rebuild(reg, old(View()), wallet).Posted?
      ensures View() == if ok then Rebuild(reg, old(View()), wallet).books else old(View())
    {
      var lots0, disposals0, relocations0, failures0, flagged0 := lots, disposals, relocations, failures, flagged;
      ghost var gifts0 := gifts;
      WipeWallet(reg, wallet);
      ok := ApplyAll(reg, WalletEvents(reg, wallet));
      if !ok {
        lots, disposals, relocations, failures, flagged := lots0, disposals0, relocations0, failures0, flagged0;
        gifts := gifts0;
      }
    }
  }
}
