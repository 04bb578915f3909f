/** What a reader of the books may rely on after any history of passes and rebuilds. */
module Guarantees {
  import opened Decimals
  import opened Sequences
  import opened Lots
  import opened Disposals
  import opened Rounding
  import opened Events
  import opened Books
  import opened Conservation

  // ---- Rebuilding keeps the accounts in order ----

  lemma {:induction false} KeptDisposalCuts(b: Books, wallet: nat, rows: seq<DisposalRow>, lot: nat)
    ensures forall c :: c in DisposalCuts(Filter(rows, OnOtherLot(b, wallet))) ==>
              c in DisposalCuts(rows) && !LotIn(b, c.lot, wallet)
    ensures !LotIn(b, lot, wallet) ==>
              CutQuantity(DisposalCuts(Filter(rows, OnOtherLot(b, wallet))), lot)
                == CutQuantity(DisposalCuts(rows), lot)
  {
    if rows != [] {
      KeptDisposalCuts(b, wallet, rows[1..], lot);
    }
  }

  lemma {:induction false} KeptGiftCuts(b: Books, wallet: nat, rows: seq<GiftRow>, lot: nat)
    ensures forall c :: c in GiftCuts(Filter(rows, GivesOtherLot(b, wallet))) ==>
              c in GiftCuts(rows) && !LotIn(b, c.lot, wallet)
    ensures !LotIn(b, lot, wallet) ==>
              CutQuantity(GiftCuts(Filter(rows, GivesOtherLot(b, wallet))), lot) == CutQuantity(GiftCuts(rows), lot)
  {
    if rows != [] {
      KeptGiftCuts(b, wallet, rows[1..], lot);
    }
  }

  lemma WipeSound(reg: Registry, b: Books, wallet: nat)
    requires Sound(b)
    ensures Sound(Wipe(reg, b, wallet))
  {
    var next := Wipe(reg, b, wallet);
    FilterDistinct(b.lots, HeldElsewhere(wallet), Origin());
    forall i | 0 <= i < |next.lots|
      ensures LotSound(next.lots[i], Cuts(next))
    {
      var lot := next.lots[i];
      assert lot in b.lots && lot.wallet != wallet;
      var k :| 0 <= k < |b.lots| && b.lots[k] == lot;
      assert LotSound(b.lots[k], Cuts(b));
      KeptDisposalCuts(b, wallet, b.disposals, lot.source);
      KeptGiftCuts(b, wallet, b.gifts, lot.source);
      CutsAppend(DisposalCuts(b.disposals), GiftCuts(b.gifts), lot.source);
      CutsAppend(DisposalCuts(next.disposals), GiftCuts(next.gifts), lot.source);
    }
    forall i | 0 <= i < |Cuts(next)|
      ensures HasSource(next.lots, Cuts(next)[i].lot)
      ensures forall k :: 0 <= k < |next.lots| ==> CutFair(next.lots[k], Cuts(next)[i])
    {
      WipedCut(reg, b, wallet, Cuts(next)[i]);
    }
  }

  lemma WipedCut(reg: Registry, b: Books, wallet: nat, c: Cut)
    requires Sound(b) && c in Cuts(Wipe(reg, b, wallet))
    ensures HasSource(Wipe(reg, b, wallet).lots, c.lot)
    ensures forall k :: 0 <= k < |Wipe(reg, b, wallet).lots| ==> CutFair(Wipe(reg, b, wallet).lots[k], c)
  {
    var next := Wipe(reg, b, wallet);
    KeptDisposalCuts(b, wallet, b.disposals, c.lot);
    KeptGiftCuts(b, wallet, b.gifts, c.lot);
    assert c in Cuts(b) && !LotIn(b, c.lot, wallet);
    var i :| 0 <= i < |Cuts(b)| && Cuts(b)[i] == c;
    assert HasSource(b.lots, Cuts(b)[i].lot);
    var k :| 0 <= k < |b.lots| && b.lots[k].source == c.lot;
    assert b.lots[k] in next.lots;
    forall k | 0 <= k < |next.lots| ensures CutFair(next.lots[k], c) {
      assert next.lots[k] in b.lots;
      var j :| 0 <= j < |b.lots| && b.lots[j] == next.lots[k];
      assert CutFair(b.lots[j], Cuts(b)[i]);
    }
  }

  // ---- Histories ----

  /** A pass over some events or the rebuild of a wallet, each with the registry as it stood at the time:
      events may be reclassified between steps. */
  datatype Step = Pass(reg: Registry, events: seq<Event>) | Rebuilding(reg: Registry, wallet: nat)

  /** A step that throws loses its transaction and leaves the books as they were. */
  function After(b: Books, step: Step): Books {
    match (match step
           case Pass(reg, events) => Run(reg, b, events)
           case Rebuilding(reg, wallet) => Rebuild(reg, b, wallet))
    case Posted(next) => next
    case Raised => b
  }

  function History(b: Books, steps: seq<Step>): Books
    decreases steps
  {
    if steps == [] then b else History(After(b, steps[0]), steps[1..])
  }

  lemma EmptySound()
    ensures Sound(EMPTY)
  {
  }

  lemma AfterSound(b: Books, step: Step)
    requires Sound(b)
    ensures Sound(After(b, step))
  {
    match step {
      case Pass(reg, events) => RunSound(reg, b, events);
      case Rebuilding(reg, wallet) =>
        WipeSound(reg, b, wallet);
        RunSound(reg, Wipe(reg, b, wallet), WalletEvents(reg, wallet));
    }
  }

  /** Every lot of every reachable state stays within its bounds and accounts for its whole quantity. */
  lemma {:induction false} HistorySound(b: Books, steps: seq<Step>)
    requires Sound(b)
    ensures Sound(History(b, steps))
    decreases steps
  {
    if steps != [] {
      AfterSound(b, steps[0]);
      HistorySound(After(b, steps[0]), steps[1..]);
    }
  }

  // ---- Conservation by pool ----

  function PoolSources(lots: seq<Lot>, pool: Pool): set<nat> {
    set lot | lot in lots && PoolOf(lot) == pool :: lot.source
  }

  function QuantityIn(lots: seq<Lot>, sources: set<nat>): int {
    if lots == [] then 0
    else (if lots[0].source in sources then lots[0].quantity else 0) + QuantityIn(lots[1..], sources)
  }

  function RemainingIn(lots: seq<Lot>, sources: set<nat>): int {
    if lots == [] then 0
    else (if lots[0].source in sources then lots[0].remaining else 0) + RemainingIn(lots[1..], sources)
  }

  function CutIn(cuts: seq<Cut>, sources: set<nat>): int {
    if cuts == [] then 0 else (if cuts[0].lot in sources then cuts[0].taken else 0) + CutIn(cuts[1..], sources)
  }

  function CutFrom(lots: seq<Lot>, cuts: seq<Cut>, sources: set<nat>): int {
    if lots == [] then 0
    else
      var here := if lots[0].source in sources then CutQuantity(cuts, lots[0].source) else 0;
      here + CutFrom(lots[1..], cuts, sources)
  }

  lemma {:induction false} CutFromStep(lots: seq<Lot>, cuts: seq<Cut>, sources: set<nat>)
    requires cuts != [] && DistinctSources(lots)
    ensures CutFrom(lots, cuts, sources) == CutFrom(lots, cuts[1..], sources)
              + if cuts[0].lot in sources && HasSource(lots, cuts[0].lot) then cuts[0].taken else 0
  {
    if lots != [] {
      CutFromStep(lots[1..], cuts, sources);
      assert HasSource(lots, cuts[0].lot) <==> lots[0].source == cuts[0].lot || HasSource(lots[1..], cuts[0].lot) by {
        if HasSource(lots, cuts[0].lot) {
          var k :| 0 <= k < |lots| && lots[k].source == cuts[0].lot;
          if k > 0 { assert lots[1..][k - 1].source == cuts[0].lot; }
        }
        if HasSource(lots[1..], cuts[0].lot) {
          var k :| 0 <= k < |lots[1..]| && lots[1..][k].source == cuts[0].lot;
          assert lots[k + 1].source == cuts[0].lot;
        }
      }
    }
  }

  lemma {:induction false} CutFromNothing(lots: seq<Lot>, sources: set<nat>)
    ensures CutFrom(lots, [], sources) == 0
  {
    if lots != [] {
      CutFromNothing(lots[1..], sources);
    }
  }

  /** Adding up by lot and adding up by cut is the same. */
  lemma {:induction false} CutSwap(lots: seq<Lot>, cuts: seq<Cut>, sources: set<nat>)
    requires DistinctSources(lots) && CutsKnown(lots, cuts)
    ensures CutFrom(lots, cuts, sources) == CutIn(cuts, sources)
  {
    if cuts == [] {
      CutFromNothing(lots, sources);
    } else {
      assert HasSource(lots, cuts[0].lot);
      forall i | 0 <= i < |cuts[1..]| ensures HasSource(lots, cuts[1..][i].lot) {
        assert cuts[1..][i] == cuts[i + 1];
      }
      CutFromStep(lots, cuts, sources);
      CutSwap(lots, cuts[1..], sources);
    }
  }

  lemma {:induction false} AccountsAddUp(lots: seq<Lot>, cuts: seq<Cut>, sources: set<nat>)
    requires forall i :: 0 <= i < |lots| ==> LotSound(lots[i], cuts)
    ensures QuantityIn(lots, sources) == RemainingIn(lots, sources) + CutFrom(lots, cuts, sources)
  {
    if lots != [] {
      assert LotSound(lots[0], cuts);
      forall i | 0 <= i < |lots[1..]| ensures LotSound(lots[1..][i], cuts) {
        assert lots[1..][i] == lots[i + 1];
      }
      AccountsAddUp(lots[1..], cuts, sources);
    }
  }

  lemma {:induction false} CutInAppend(a: seq<Cut>, b: seq<Cut>, sources: set<nat>)
    ensures CutIn(a + b, sources) == CutIn(a, sources) + CutIn(b, sources)
  {
    if a == [] {
      assert a + b == b;
    } else {
      CutInAppend(a[1..], b, sources);
      assert (a + b)[1..] == a[1..] + b;
    }
  }

  /** Conservation: after any history, and summed per canonical pool over all wallets, what was acquired
      is what remains plus what was disposed of plus what was given away. */
  lemma PoolConserved(steps: seq<Step>, pool: Pool)
    ensures var b := History(EMPTY, steps); var sources := PoolSources(b.lots, pool);
            QuantityIn(b.lots, sources) == RemainingIn(b.lots, sources)
              + CutIn(DisposalCuts(b.disposals), sources) + CutIn(GiftCuts(b.gifts), sources)
  {
    EmptySound();
    HistorySound(EMPTY, steps);
    var b := History(EMPTY, steps);
    var sources := PoolSources(b.lots, pool);
    AccountsAddUp(b.lots, Cuts(b), sources);
    CutSwap(b.lots, Cuts(b), sources);
    CutInAppend(DisposalCuts(b.disposals), GiftCuts(b.gifts), sources);
  }

  /** Rounding, over any history: the basis booked against a lot by n slices is within n half-units of its
      basis pro rata to the quantity they consumed. */
  lemma BasisDrift(steps: seq<Step>, i: nat)
    requires i < |History(EMPTY, steps).lots|
    ensures var b := History(EMPTY, steps); var lot := b.lots[i]; var cuts := Cuts(b);
            && CutQuantity(cuts, lot.source) == lot.quantity - lot.remaining
            && Abs(Error2(lot.basis, lot.quantity, CutQuantity(cuts, lot.source), CutBasis(cuts, lot.source)))
                 <= CutCount(cuts, lot.source) * lot.quantity
  {
    EmptySound();
    HistorySound(EMPTY, steps);
    var b := History(EMPTY, steps);
    assert LotSound(b.lots[i], Cuts(b));
    BookedDrift(b.lots[i], Cuts(b));
  }

  // ---- A disposal or gift takes exactly its amount, or nothing ----

  lemma {:induction false} AvailableDeducted(lots: seq<Lot>, slices: seq<Slice>, sources: set<nat>)
    requires forall i :: 0 <= i < |lots| ==> lots[i].source in sources
    ensures Available(Deduct(lots, slices)) == Available(lots) - CutFrom(lots, SliceCuts(slices), sources)
  {
    if lots != [] {
      SliceCutsTake(slices, lots[0].source);
      forall i | 0 <= i < |lots[1..]| ensures lots[1..][i].source in sources {
        assert lots[1..][i] == lots[i + 1];
      }
      AvailableDeducted(lots[1..], slices, sources);
      assert Deduct(lots, slices)[1..] == Deduct(lots[1..], slices);
    }
  }

  lemma {:induction false} SliceCutsIn(slices: seq<Slice>, sources: set<nat>)
    requires forall i :: 0 <= i < |slices| ==> slices[i].lot.source in sources
    ensures CutIn(SliceCuts(slices), sources) == Taken(slices)
  {
    if slices != [] {
      forall i | 0 <= i < |slices[1..]| ensures slices[1..][i].lot.source in sources {
        assert slices[1..][i] == slices[i + 1];
      }
      SliceCutsIn(slices[1..], sources);
    }
  }

  lemma DeductTakes(lots: seq<Lot>, wallet: nat, pool: Pool, slices: seq<Slice>)
    requires DistinctSources(lots) && Cutting(lots, wallet, pool, slices)
    ensures Available(Deduct(lots, slices)) == Available(lots) - Taken(slices)
  {
    var sources := set lot | lot in lots :: lot.source;
    forall i | 0 <= i < |lots| ensures lots[i].source in sources {
      assert lots[i] in lots;
    }
    SliceCutsAt(slices);
    forall i | 0 <= i < |SliceCuts(slices)| ensures HasSource(lots, SliceCuts(slices)[i].lot) {
      var k :| 0 <= k < |lots| && lots[k] == slices[i].lot;
    }
    AvailableDeducted(lots, slices, sources);
    CutSwap(lots, SliceCuts(slices), sources);
    SliceCutsIn(slices, sources);
  }

  /** A disposal either leaves every lot as it is, or takes exactly the event's amount out of them and
      records cuts of exactly that amount. */
  lemma DisposeAllOrNothing(reg: Registry, b: Books, e: Event)
    requires Sound(b) && ApplyDispose(reg, b, e).Posted?
    ensures var next := ApplyDispose(reg, b, e).books;
            || (next.lots == b.lots && next.disposals == b.disposals)
            || (Available(next.lots) == Available(b.lots) - e.amount
                && exists slices ::
                     && Taken(slices) == e.amount
                     && DisposalCuts(next.disposals) == DisposalCuts(b.disposals) + SliceCuts(slices))
  {
    if !HasDisposal(b, e.id) && e.token.Some? {
      var pool, strategy := CanonicalPool(reg, e.token.value), MethodFor(reg, e);
      SelectionCuts(b.lots, e.wallet, pool, strategy, e.amount);
      SelectCovers(b.lots, e.wallet, pool, strategy, e.amount);
      match Select(b.lots, e.wallet, pool, strategy, e.amount) {
        case Insufficient(_) =>
        case Covered(slices) =>
          if slices == [] {
            NothingDeducted(b.lots);
          } else {
            DeductTakes(b.lots, e.wallet, pool, slices);
            var lines := BuildLines(slices, ProceedsOf(e), e.occurredAt, strategy);
            LinesKeepSlices(slices, Taken(slices), ProceedsOf(e), 0, e.occurredAt, strategy);
            DisposalRowsCut(e, lines, slices);
            DisposalCutsAppend(b.disposals, DisposalRows(e, lines));
          }
      }
    }
  }

  lemma {:induction false} NothingDeducted(lots: seq<Lot>)
    ensures Deduct(lots, []) == lots
  {
    if lots != [] {
      NothingDeducted(lots[1..]);
    }
  }

  lemma GiftAllOrNothing(reg: Registry, b: Books, e: Event)
    requires Sound(b) && ApplyGift(reg, b, e).Posted?
    ensures var next := ApplyGift(reg, b, e).books;
            || (next.lots == b.lots && next.gifts == b.gifts)
            || (Available(next.lots) == Available(b.lots) - e.amount
                && exists slices ::
                     Taken(slices) == e.amount && GiftCuts(next.gifts) == GiftCuts(b.gifts) + SliceCuts(slices))
  {
    if !HasRelocation(b, e.id) && e.token.Some? {
      var pool, strategy := CanonicalPool(reg, e.token.value), MethodFor(reg, e);
      SelectionCuts(b.lots, e.wallet, pool, strategy, e.amount);
      SelectCovers(b.lots, e.wallet, pool, strategy, e.amount);
      match Select(b.lots, e.wallet, pool, strategy, e.amount) {
        case Insufficient(_) =>
        case Covered(slices) =>
          if slices == [] {
            NothingDeducted(b.lots);
          } else {
            DeductTakes(b.lots, e.wallet, pool, slices);
            GiftRowsCut(e, slices);
            GiftCutsAppend(b.gifts, GiftRows(e, slices));
          }
      }
    }
  }

  // ---- What never changes about a lot ----

  /** The later table still lists the earlier lots, in order, with the same origin, quantity, basis and
      acquisition time, and with no more remaining. */
  ghost predicate Descends(before: seq<Lot>, after: seq<Lot>) {
    && |before| <= |after|
    && forall i :: 0 <= i < |before| ==>
         after[i] == before[i].(wallet := after[i].wallet, entity := after[i].entity,
                                acquisition := after[i].acquisition, remaining := after[i].remaining)
         && after[i].remaining <= before[i].remaining
  }

  lemma TakeOfNonNegative(slices: seq<Slice>, source: nat)
    requires AllPositive(slices)
    ensures TakeOf(slices, source) >= 0
  {
  }

  lemma SelectionOnlyReduces(lots: seq<Lot>, wallet: nat, pool: Pool, strategy: LotMethod, quantity: int)
    ensures var a := Select(lots, wallet, pool, strategy, quantity);
            a.Covered? ==> Descends(lots, Deduct(lots, a.slices))
  {
    SelectCovers(lots, wallet, pool, strategy, quantity);
    var a := Select(lots, wallet, pool, strategy, quantity);
    if a.Covered? {
      forall i | 0 <= i < |lots| ensures TakeOf(a.slices, lots[i].source) >= 0 {
        TakeOfNonNegative(a.slices, lots[i].source);
      }
    }
  }

  lemma MoveOnlyMoves(lots: seq<Lot>, slices: seq<Slice>, to: nat, entity: Option<nat>,
                      acquisition: Option<AcquisitionType>)
    ensures Descends(lots, Move(lots, slices, to, entity, acquisition))
  {
  }

  lemma MoveDescends(reg: Registry, b: Books, e: Event)
    ensures ApplyRelocation(reg, b, e).Posted? ==> Descends(b.lots, ApplyRelocation(reg, b, e).books.lots)
  {
    if !HasRelocation(b, e.id) && SourceEvent(reg, e).Some? && e.token.Some? {
      match Select(b.lots, SourceEvent(reg, e).value.wallet, CanonicalPool(reg, e.token.value), Fifo, e.amount) {
        case Insufficient(_) =>
        case Covered(slices) =>
          MoveOnlyMoves(b.lots, slices, e.wallet, EntityFor(reg.assignments, e.wallet, e.occurredAt.date),
            RetypedAs(e));
      }
    }
  }

  lemma GiftDescends(reg: Registry, b: Books, e: Event)
    ensures ApplyGift(reg, b, e).Posted? && Descends(b.lots, ApplyGift(reg, b, e).books.lots)
  {
    if e.token.Some? {
      SelectionOnlyReduces(b.lots, e.wallet, CanonicalPool(reg, e.token.value), MethodFor(reg, e), e.amount);
    }
  }

  lemma DisposeDescends(reg: Registry, b: Books, e: Event)
    ensures ApplyDispose(reg, b, e).Posted? && Descends(b.lots, ApplyDispose(reg, b, e).books.lots)
  {
    if e.token.Some? {
      SelectionOnlyReduces(b.lots, e.wallet, CanonicalPool(reg, e.token.value), MethodFor(reg, e), e.amount);
    }
  }

  lemma ApplyDescends(reg: Registry, b: Books, e: Event)
    ensures Apply(reg, b, e).Posted? ==> Descends(b.lots, Apply(reg, b, e).books.lots)
  {
    match TreatmentOf(e) {
      case Acquire =>
        if ApplyAcquire(reg, b, e).Posted? && ApplyAcquire(reg, b, e).books.lots != b.lots {
          var lots := ApplyAcquire(reg, b, e).books.lots;
          assert lots == b.lots + [lots[|b.lots|]];
        }
      case Dispose => DisposeDescends(reg, b, e);
      case Relocate => MoveDescends(reg, b, e);
      case GiveAway => GiftDescends(reg, b, e);
      case _ =>
    }
  }

  /** Over any pass a lot keeps its quantity, basis and acquisition time wherever it is moved, so moves
      carry holding periods with them. */
  lemma {:induction false} RunDescends(reg: Registry, b: Books, events: seq<Event>)
    ensures Run(reg, b, events).Posted? ==> Descends(b.lots, Run(reg, b, events).books.lots)
    decreases events
  {
    if events != [] {
      ApplyDescends(reg, b, events[0]);
      match Apply(reg, b, events[0]) {
        case Raised =>
        case Posted(next) => RunDescends(reg, next, events[1..]);
      }
    }
  }

  // ---- Relocation ----

  function Held(slices: seq<Slice>): int {
    if slices == [] then 0 else slices[0].lot.remaining + Held(slices[1..])
  }

  lemma {:induction false} HeldOverTaken(slices: seq<Slice>)
    requires slices != []
    requires forall i :: 0 <= i < |slices| ==> 0 < slices[i].taken <= slices[i].lot.remaining
    requires forall i :: 0 <= i < |slices| - 1 ==> slices[i].taken == slices[i].lot.remaining
    ensures Taken(slices) <= Held(slices) < Taken(slices) + slices[|slices| - 1].lot.remaining
  {
    if |slices| == 1 {
      assert slices[1..] == [];
    } else {
      HeldOverTaken(slices[1..]);
    }
  }

  /** A relocation moves whole lots: the shortest prefix, oldest first, of the source pool that covers the
      event's amount.  What moves is at least the amount, and exceeds it by less than the last lot holds;
      everything else stays exactly as it was. */
  lemma RelocationMovesShortestPrefix(reg: Registry, b: Books, e: Event, outflow: Event, token: nat)
    requires Sound(b) && !HasRelocation(b, e.id) && e.amount > 0
    requires SourceEvent(reg, e) == Some(outflow) && e.token == Some(token)
    ensures var open := OpenLots(b.lots, outflow.wallet, CanonicalPool(reg, token));
            && (ApplyRelocation(reg, b, e).Raised? <==> Available(open) < e.amount)
            && (ApplyRelocation(reg, b, e).Posted? ==>
                 exists slices :: Prefix(slices, open, e.amount)
                   && ApplyRelocation(reg, b, e).books.lots
                      == Move(b.lots, slices, e.wallet, EntityFor(reg.assignments, e.wallet, e.occurredAt.date),
                              RetypedAs(e)))
  {
    var pool := CanonicalPool(reg, token);
    var open := OpenLots(b.lots, outflow.wallet, pool);
    FifoAgain(b.lots, outflow.wallet, pool);
    ConsumeExact(open, e.amount);
    match Select(b.lots, outflow.wallet, pool, Fifo, e.amount) {
      case Insufficient(_) =>
      case Covered(slices) => FifoPrefix(b, outflow.wallet, pool, e.amount, slices);
    }
  }

  /** Open lots come in FIFO order already. */
  lemma FifoAgain(lots: seq<Lot>, wallet: nat, pool: Pool)
    ensures OrderLots(Fifo, OpenLots(lots, wallet, pool)) == OpenLots(lots, wallet, pool)
  {
    OrderKeyTotal(Fifo);
    SortSorted(Filter(lots, InPool(wallet, pool)), OrderKey(Fifo));
    SortOfSorted(OpenLots(lots, wallet, pool), OrderKey(Fifo));
  }

  lemma FifoPrefix(b: Books, wallet: nat, pool: Pool, amount: int, slices: seq<Slice>)
    requires amount > 0 && Select(b.lots, wallet, pool, Fifo, amount) == Covered(slices)
    ensures Prefix(slices, OpenLots(b.lots, wallet, pool), amount)
  {
    var open := OpenLots(b.lots, wallet, pool);
    FifoAgain(b.lots, wallet, pool);
    ConsumeExact(open, amount);
    ConsumePrefix(open, amount);
    HeldOverTaken(slices);
  }

  ghost predicate Prefix(slices: seq<Slice>, open: seq<Lot>, amount: int) {
    && 0 < |slices| <= |open|
    && (forall i :: 0 <= i < |slices| ==> slices[i].lot == open[i])
    && amount <= Held(slices) < amount + slices[|slices| - 1].lot.remaining
  }
}
