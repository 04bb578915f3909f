/** When applying the same events a second time changes something. */
module Repeats {
  import opened Calendar
  import opened Sequences
  import opened Lots
  import opened Disposals
  import opened Events
  import opened Books
  import opened Guarantees
  import opened Replay
  import opened Passes

  /** The row that keeps an event from being applied again. */
  predicate HasMark(b: Books, e: Event) {
    match TreatmentOf(e)
    case Acquire => HasLot(b, e.id)
    case Dispose => HasDisposal(b, e.id)
    case Relocate | GiveAway => HasRelocation(b, e.id)
    case _ => false
  }

  /** An event that fails leaves no mark, and is one that only a mark can settle. */
  lemma FailureLeavesNoMark(reg: Registry, b: Books, e: Event)
    requires Apply(reg, b, e).Posted? && Apply(reg, b, e).books.failures != b.failures
    ensures !HasMark(Apply(reg, b, e).books, e)
    ensures forall later :: Settled(reg, later, e) ==> HasMark(later, e)
  {
    match TreatmentOf(e) {
      case Dispose => FailsForMore(reg, b, e);
      case GiveAway => FailsForMore(reg, b, e);
      case Relocate => assert SourceEvent(reg, e).None?;
      case _ =>
    }
  }

  /** Selling or giving nothing never fails. */
  lemma FailsForMore(reg: Registry, b: Books, e: Event)
    requires e.token.Some? && e.amount <= 0
             ==> Select(b.lots, e.wallet, CanonicalPool(reg, e.token.value), MethodFor(reg, e), e.amount).Insufficient?
    ensures e.token.Some? ==> e.amount > 0
  {
    if e.token.Some? && e.amount <= 0 {
      EmptySelection(b.lots, e.wallet, CanonicalPool(reg, e.token.value), MethodFor(reg, e), e.amount);
    }
  }

  // ---- Events leave marks of their own only ----

  ghost predicate NoMoreMarks(before: Books, after: Books, id: nat) {
    && (HasLot(after, id) ==> HasLot(before, id))
    && (HasDisposal(after, id) ==> HasDisposal(before, id))
    && (HasRelocation(after, id) ==> HasRelocation(before, id))
  }

  lemma SameLotMarks(before: Books, after: Books, id: nat)
    requires |after.lots| == |before.lots| && KeepsSources(before.lots, after.lots)
    ensures HasLot(after, id) ==> HasLot(before, id)
  {
    if HasLot(after, id) {
      var i :| 0 <= i < |after.lots| && after.lots[i].source == id;
      assert before.lots[i].source == id;
    }
  }

  lemma NewDisposalMarks(before: Books, after: Books, rows: seq<DisposalRow>, tx: nat, id: nat)
    requires after.disposals == before.disposals + rows && id != tx
    requires forall i :: 0 <= i < |rows| ==> rows[i].tx == tx
    ensures HasDisposal(after, id) ==> HasDisposal(before, id)
  {
    forall k | |before.disposals| <= k < |after.disposals| ensures after.disposals[k].tx == tx {
      assert after.disposals[k] == rows[k - |before.disposals|];
    }
    if HasDisposal(after, id) {
      var i :| 0 <= i < |after.disposals| && after.disposals[i].tx == id;
      assert before.disposals[i].tx == id;
    }
  }

  lemma NewRelocationMarks(before: Books, after: Books, rows: seq<RelocationRow>, tx: nat, id: nat)
    requires after.relocations == before.relocations + rows && id != tx
    requires forall i :: 0 <= i < |rows| ==> rows[i].tx == tx
    ensures HasRelocation(after, id) ==> HasRelocation(before, id)
  {
    forall k | |before.relocations| <= k < |after.relocations| ensures after.relocations[k].tx == tx {
      assert after.relocations[k] == rows[k - |before.relocations|];
    }
    if HasRelocation(after, id) {
      var i :| 0 <= i < |after.relocations| && after.relocations[i].tx == id;
      assert before.relocations[i].tx == id;
    }
  }

  lemma AcquireMarks(reg: Registry, b: Books, e: Event, id: nat)
    requires ApplyAcquire(reg, b, e).Posted? && id != e.id
    ensures NoMoreMarks(b, ApplyAcquire(reg, b, e).books, id)
  {
    var next := ApplyAcquire(reg, b, e).books;
    if HasLot(next, id) {
      var i :| 0 <= i < |next.lots| && next.lots[i].source == id;
      assert i < |b.lots| && b.lots[i] == next.lots[i];
    }
  }

  lemma DisposeMarks(reg: Registry, b: Books, e: Event, id: nat)
    requires id != e.id
    ensures NoMoreMarks(b, ApplyDispose(reg, b, e).books, id)
  {
    var next := ApplyDispose(reg, b, e).books;
    if !HasDisposal(b, e.id) && e.token.Some? {
      var pool, strategy := CanonicalPool(reg, e.token.value), MethodFor(reg, e);
      SelectCovers(b.lots, e.wallet, pool, strategy, e.amount);
      match Select(b.lots, e.wallet, pool, strategy, e.amount) {
        case Insufficient(_) =>
        case Covered(slices) =>
          SameLotMarks(b, next, id);
          var rows := DisposalRows(e, BuildLines(slices, ProceedsOf(e), e.occurredAt, strategy));
          NewDisposalMarks(b, next, rows, e.id, id);
      }
    }
  }

  lemma GiftMarks(reg: Registry, b: Books, e: Event, id: nat)
    requires id != e.id
    ensures NoMoreMarks(b, ApplyGift(reg, b, e).books, id)
  {
    var next := ApplyGift(reg, b, e).books;
    if !HasRelocation(b, e.id) && e.token.Some? {
      match Select(b.lots, e.wallet, CanonicalPool(reg, e.token.value), MethodFor(reg, e), e.amount) {
        case Insufficient(_) =>
        case Covered(slices) =>
          SameLotMarks(b, next, id);
          NewRelocationMarks(b, next, RelocationRows(e, slices, e.wallet, e.wallet, Gifted), e.id, id);
      }
    }
  }

  lemma RelocationMarks(reg: Registry, b: Books, e: Event, id: nat)
    requires ApplyRelocation(reg, b, e).Posted? && id != e.id
    ensures NoMoreMarks(b, ApplyRelocation(reg, b, e).books, id)
  {
    var next := ApplyRelocation(reg, b, e).books;
    if !HasRelocation(b, e.id) && SourceEvent(reg, e).Some? && e.token.Some? {
      var from := SourceEvent(reg, e).value.wallet;
      match Select(b.lots, from, CanonicalPool(reg, e.token.value), Fifo, e.amount) {
        case Insufficient(_) =>
        case Covered(slices) =>
          SameLotMarks(b, next, id);
          NewRelocationMarks(b, next, RelocationRows(e, slices, from, e.wallet, MoveReasonOf(e)), e.id, id);
      }
    }
  }

  lemma OthersLeaveNoMark(reg: Registry, b: Books, other: Event, e: Event)
    requires Apply(reg, b, other).Posted? && other.id != e.id && !HasMark(b, e)
    ensures !HasMark(Apply(reg, b, other).books, e)
  {
    match TreatmentOf(other) {
      case Acquire => AcquireMarks(reg, b, other, e.id);
      case Dispose => DisposeMarks(reg, b, other, e.id);
      case Relocate => RelocationMarks(reg, b, other, e.id);
      case GiveAway => GiftMarks(reg, b, other, e.id);
      case _ =>
    }
  }

  lemma {:induction false} RunLeavesNoMark(reg: Registry, b: Books, events: seq<Event>, e: Event)
    requires Run(reg, b, events).Posted? && !HasMark(b, e)
    requires forall other :: other in events ==> other.id != e.id
    ensures !HasMark(Run(reg, b, events).books, e)
    decreases events
  {
    if events != [] {
      assert events[0] in events;
      OthersLeaveNoMark(reg, b, events[0], e);
      RunLeavesNoMark(reg, Apply(reg, b, events[0]).books, events[1..], e);
    }
  }

  // ---- Failures and repetition ----

  /** A pass that records a failure ends with one of its events unsettled. */
  lemma {:induction false} FailureStaysUnsettled(reg: Registry, b: Books, events: seq<Event>)
    requires DistinctIds(events) && Run(reg, b, events).Posted?
    requires Run(reg, b, events).books.failures != b.failures
    ensures exists e :: e in events && !Settled(reg, Run(reg, b, events).books, e)
    decreases events
  {
    var e, mid := events[0], Apply(reg, b, events[0]).books;
    if mid.failures != b.failures {
      FailureLeavesNoMark(reg, b, e);
      forall other | other in events[1..] ensures other.id != e.id {
        var j :| 0 <= j < |events[1..]| && events[1..][j] == other;
        assert events[j + 1] == other;
      }
      RunLeavesNoMark(reg, mid, events[1..], e);
      assert e in events;
    } else {
      FailureStaysUnsettled(reg, mid, events[1..]);
      var later :| later in events[1..] && !Settled(reg, Run(reg, mid, events[1..]).books, later);
      assert later in events;
    }
  }

  /** A second pass over the same events changes nothing at all exactly when the first recorded no failure. */
  lemma SecondPassIsIdleIff(reg: Registry, b: Books, events: seq<Event>)
    requires DistinctIds(events) && Run(reg, b, events).Posted?
    ensures Run(reg, Run(reg, b, events).books, events) == Run(reg, b, events)
            <==> Run(reg, b, events).books.failures == b.failures
  {
    var mid := Run(reg, b, events).books;
    if mid.failures == b.failures {
      SecondPassIsIdle(reg, b, events);
    } else if Run(reg, mid, events) == Posted(mid) {
      RunSettles(reg, mid, events);
      FailureStaysUnsettled(reg, b, events);
    }
  }

  // ---- A sale entered before its purchase ----

  const DAY := Instant(Date(2026, 1, 1), 0)
  const SALE := Event(1, 1, 1, DAY, 1, 0, TransferOut, "", Some(7), 5, Some(50), None, None)
  const PURCHASE := Event(2, 1, 2, DAY, 2, 0, TransferIn, "", Some(7), 5, Some(40), None, None)
  const TABLES := Registry(map[], {}, map[], [Assignment(1, 9, Date(2025, 1, 1), None)], {}, [SALE, PURCHASE])
  const BOUGHT := Lot(2, 1, 7, None, 9, DAY, Buy, Fungible, 5, 5, 40)
  const FAILED := Failure(1, InsufficientLots, Some(5))

  lemma FirstTime()
    ensures Run(TABLES, EMPTY, [SALE, PURCHASE]) == Posted(EMPTY.(lots := [BOUGHT], failures := [FAILED]))
  {
    var failed := EMPTY.(failures := [FAILED]);
    assert Apply(TABLES, EMPTY, SALE) == Posted(failed) by {
      assert OpenLots([], 1, Token(7)) == [];
    }
    assert Apply(TABLES, failed, PURCHASE) == Posted(failed.(lots := [BOUGHT])) by {
      assert !HasLot(failed, 2);
    }
    assert [SALE, PURCHASE][1..] == [PURCHASE] && [PURCHASE][1..] == [];
    assert Run(TABLES, failed, [PURCHASE]) == Run(TABLES, failed.(lots := [BOUGHT]), []);
  }

  /** The first pass books the purchase and fails on the sale; the second sells what the first bought. */
  lemma SecondTimeSells()
    ensures Run(TABLES, EMPTY, [SALE, PURCHASE]).Posted?
    ensures var first := Run(TABLES, EMPTY, [SALE, PURCHASE]).books;
            && first.lots == [BOUGHT] && first.failures == [FAILED]
            && Run(TABLES, first, [SALE, PURCHASE]).Posted?
            && Run(TABLES, first, [SALE, PURCHASE]).books.lots == [BOUGHT.(remaining := 0)]
  {
    FirstTime();
    var first := EMPTY.(lots := [BOUGHT], failures := [FAILED]);
    var slice := Slice(BOUGHT, 5, SliceBasis(BOUGHT, 5));
    AllOfFive(slice);
    assert TakeOf([slice], 2) == 5 by {
      assert [slice][1..] == [] && TakeOf([], 2) == 0;
    }
    assert Deduct([BOUGHT], [slice]) == [BOUGHT.(remaining := 0)];
    assert !HasDisposal(first, 1);
    var second := Apply(TABLES, first, SALE).books;
    assert second.lots == [BOUGHT.(remaining := 0)];
    assert HasLot(second, 2) by {
      assert second.lots[0].source == 2;
    }
    assert Apply(TABLES, second, PURCHASE) == Posted(second);
    assert [SALE, PURCHASE][1..] == [PURCHASE] && [PURCHASE][1..] == [];
    assert Run(TABLES, second, [PURCHASE]) == Run(TABLES, second, []);
  }

  lemma AllOfFive(slice: Slice)
    requires slice == Slice(BOUGHT, 5, SliceBasis(BOUGHT, 5))
    ensures Select([BOUGHT], 1, Token(7), Fifo, 5) == Covered([slice])
  {
    assert [BOUGHT][1..] == [];
    assert OpenLots([BOUGHT], 1, Token(7)) == [BOUGHT];
    assert OrderLots(Fifo, [BOUGHT]) == [BOUGHT];
    assert Consume([BOUGHT], 5) == Covered([slice]) by {
      assert Consume([], 0) == Covered([]);
    }
  }
}
