/** What a run does to the balance of a pool, event by event, and where its lots come from. */
module Flows {
  import opened Decimals
  import opened Sequences
  import opened Lots
  import opened Events
  import opened Books
  import opened Conservation
  import opened Guarantees
  import opened Scopes

  function OfPool(pool: Pool): Lot -> bool {
    (lot: Lot) => PoolOf(lot) == pool
  }

  /** What remains in a canonical pool over all wallets. */
  function Balance(lots: seq<Lot>, pool: Pool): int {
    Available(Filter(lots, OfPool(pool)))
  }

  predicate InPoolOf(reg: Registry, e: Event, pool: Pool) {
    e.token.Some? && CanonicalPool(reg, e.token.value) == pool
  }

  /** The quantity an event brings into the pool when it is applied to these books: its amount, if it opens a lot. */
  function BroughtIn(reg: Registry, b: Books, e: Event, pool: Pool): int {
    if TreatmentOf(e) == Acquire && InPoolOf(reg, e, pool) && !HasLot(b, e.id) && AcquiredValue(reg, e).Some?
       && EntityFor(reg.assignments, e.wallet, e.occurredAt.date).Some?
    then e.amount else 0
  }

  /** The quantity it takes out: its amount, if it is a disposal or gift not yet booked and the wallet covers it. */
  function TakenOut(reg: Registry, b: Books, e: Event, pool: Pool): int {
    if ((TreatmentOf(e) == Dispose && !HasDisposal(b, e.id)) || (TreatmentOf(e) == GiveAway && !HasRelocation(b, e.id)))
       && InPoolOf(reg, e, pool) && Select(b.lots, e.wallet, pool, MethodFor(reg, e), e.amount).Covered?
    then Max(e.amount, 0) else 0
  }

  lemma DeductBalance(lots: seq<Lot>, wallet: nat, from: Pool, slices: seq<Slice>, pool: Pool)
    requires DistinctSources(lots) && Cutting(lots, wallet, from, slices)
    ensures Balance(Deduct(lots, slices), pool) == Balance(lots, pool) - (if pool == from then Taken(slices) else 0)
  {
    var held := Filter(lots, OfPool(pool));
    FilterDeduct(lots, slices, OfPool(pool));
    FilterDistinct(lots, OfPool(pool), Origin());
    if pool == from {
      DeductTakes(held, wallet, from, slices);
    } else {
      forall lot | lot in held ensures !Touches(slices, lot.source) {
        if Touches(slices, lot.source) {
          var i :| 0 <= i < |slices| && slices[i].lot.source == lot.source;
          SameSourceSameLot(lots, slices[i].lot, lot);
        }
      }
      DeductElsewhere(held, slices);
    }
  }

  lemma SameSourceSameLot(lots: seq<Lot>, a: Lot, b: Lot)
    requires DistinctSources(lots) && a in lots && b in lots && a.source == b.source
    ensures a == b
  {
    var i :| 0 <= i < |lots| && lots[i] == a;
    var j :| 0 <= j < |lots| && lots[j] == b;
    assert i == j;
  }

  lemma {:induction false} MoveBalance(lots: seq<Lot>, slices: seq<Slice>, to: nat, entity: Option<nat>,
                                       acquisition: Option<AcquisitionType>, pool: Pool)
    ensures Balance(Move(lots, slices, to, entity, acquisition), pool) == Balance(lots, pool)
  {
    if lots != [] {
      MoveBalance(lots[1..], slices, to, entity, acquisition, pool);
      assert Move(lots, slices, to, entity, acquisition)[1..] == Move(lots[1..], slices, to, entity, acquisition);
    }
  }

  lemma {:induction false} AvailableAppend(a: seq<Lot>, b: seq<Lot>)
    ensures Available(a + b) == Available(a) + Available(b)
  {
    if a == [] {
      assert a + b == b;
    } else {
      assert (a + b)[0] == a[0] && (a + b)[1..] == a[1..] + b;
      AvailableAppend(a[1..], b);
    }
  }

  lemma AcquireFlows(reg: Registry, b: Books, e: Event, pool: Pool)
    requires TreatmentOf(e) == Acquire && ApplyAcquire(reg, b, e).Posted?
    ensures Balance(ApplyAcquire(reg, b, e).books.lots, pool) == Balance(b.lots, pool) + BroughtIn(reg, b, e, pool)
  {
    var lots := ApplyAcquire(reg, b, e).books.lots;
    if lots != b.lots {
      var lot := lots[|b.lots|];
      assert lots == b.lots + [lot];
      FilterAppend(b.lots, [lot], OfPool(pool));
      AvailableAppend(Filter(b.lots, OfPool(pool)), Filter([lot], OfPool(pool)));
      assert [lot][1..] == [];
    }
  }

  lemma DisposeFlows(reg: Registry, b: Books, e: Event, pool: Pool)
    requires Sound(b) && TreatmentOf(e) == Dispose
    ensures Balance(ApplyDispose(reg, b, e).books.lots, pool) == Balance(b.lots, pool) - TakenOut(reg, b, e, pool)
  {
    if e.token.Some? && !HasDisposal(b, e.id) {
      var from := CanonicalPool(reg, e.token.value);
      SelectionCuts(b.lots, e.wallet, from, MethodFor(reg, e), e.amount);
      match Select(b.lots, e.wallet, from, MethodFor(reg, e), e.amount) {
        case Insufficient(_) =>
        case Covered(slices) => DeductBalance(b.lots, e.wallet, from, slices, pool);
      }
    }
  }

  lemma GiftFlows(reg: Registry, b: Books, e: Event, pool: Pool)
    requires Sound(b) && TreatmentOf(e) == GiveAway
    ensures Balance(ApplyGift(reg, b, e).books.lots, pool) == Balance(b.lots, pool) - TakenOut(reg, b, e, pool)
  {
    if e.token.Some? && !HasRelocation(b, e.id) {
      var from := CanonicalPool(reg, e.token.value);
      SelectionCuts(b.lots, e.wallet, from, MethodFor(reg, e), e.amount);
      match Select(b.lots, e.wallet, from, MethodFor(reg, e), e.amount) {
        case Insufficient(_) =>
        case Covered(slices) => DeductBalance(b.lots, e.wallet, from, slices, pool);
      }
    }
  }

  lemma RelocationFlows(reg: Registry, b: Books, e: Event, pool: Pool)
    requires ApplyRelocation(reg, b, e).Posted?
    ensures Balance(ApplyRelocation(reg, b, e).books.lots, pool) == Balance(b.lots, pool)
  {
    if !HasRelocation(b, e.id) && SourceEvent(reg, e).Some? && e.token.Some? {
      match Select(b.lots, SourceEvent(reg, e).value.wallet, CanonicalPool(reg, e.token.value), Fifo, e.amount) {
        case Insufficient(_) =>
        case Covered(slices) =>
          MoveBalance(b.lots, slices, e.wallet, EntityFor(reg.assignments, e.wallet, e.occurredAt.date), RetypedAs(e),
            pool);
      }
    }
  }

  /** One event moves the balance of a pool by what it brings in less what it takes out. */
  lemma ApplyFlows(reg: Registry, b: Books, e: Event, pool: Pool)
    requires Sound(b) && Apply(reg, b, e).Posted?
    ensures Balance(Apply(reg, b, e).books.lots, pool)
            == Balance(b.lots, pool) + BroughtIn(reg, b, e, pool) - TakenOut(reg, b, e, pool)
  {
    match TreatmentOf(e) {
      case Acquire => AcquireFlows(reg, b, e, pool);
      case Dispose => DisposeFlows(reg, b, e, pool);
      case GiveAway => GiftFlows(reg, b, e, pool);
      case Relocate => RelocationFlows(reg, b, e, pool);
      case _ =>
    }
  }

  function NetFlow(reg: Registry, b: Books, events: seq<Event>, pool: Pool): int
    requires Run(reg, b, events).Posted?
    decreases events
  {
    if events == [] then 0
    else BroughtIn(reg, b, events[0], pool) - TakenOut(reg, b, events[0], pool)
         + NetFlow(reg, Apply(reg, b, events[0]).books, events[1..], pool)
  }

  /** Conservation in the events' own amounts: over any run, relocations included, a pool's balance moves by
      the amounts of the acquisitions that opened lots less those of the disposals and gifts that were covered. */
  lemma {:induction false} RunConserves(reg: Registry, b: Books, events: seq<Event>, pool: Pool)
    requires Sound(b) && Run(reg, b, events).Posted?
    ensures Balance(Run(reg, b, events).books.lots, pool) == Balance(b.lots, pool) + NetFlow(reg, b, events, pool)
    decreases events
  {
    if events != [] {
      ApplyFlows(reg, b, events[0], pool);
      ApplySound(reg, b, events[0]);
      RunConserves(reg, Apply(reg, b, events[0]).books, events[1..], pool);
    }
  }

  // ---- Where lots come from ----

  /** The lot has the quantity, the value, the time and the pool of the acquisition that opened it. */
  ghost predicate OpenedBy(reg: Registry, lot: Lot, e: Event) {
    && e.id == lot.source && TreatmentOf(e) == Acquire && InPoolOf(reg, e, PoolOf(lot))
    && lot.quantity == e.amount && AcquiredValue(reg, e) == Some(lot.basis) && lot.acquiredAt == e.occurredAt
  }

  lemma DisposalAddsNoLot(reg: Registry, b: Books, e: Event)
    ensures |ApplyDispose(reg, b, e).books.lots| == |b.lots|
  {
    if e.token.Some? {
      SelectCovers(b.lots, e.wallet, CanonicalPool(reg, e.token.value), MethodFor(reg, e), e.amount);
    }
  }

  lemma GiftAddsNoLot(reg: Registry, b: Books, e: Event)
    ensures |ApplyGift(reg, b, e).books.lots| == |b.lots|
  {
  }

  lemma RelocationAddsNoLot(reg: Registry, b: Books, e: Event)
    requires ApplyRelocation(reg, b, e).Posted?
    ensures |ApplyRelocation(reg, b, e).books.lots| == |b.lots|
  {
  }

  lemma ApplyOpens(reg: Registry, b: Books, e: Event)
    requires Apply(reg, b, e).Posted?
    ensures var lots := Apply(reg, b, e).books.lots;
            |lots| == |b.lots| || (|lots| == |b.lots| + 1 && OpenedBy(reg, lots[|b.lots|], e))
  {
    match TreatmentOf(e) {
      case Acquire => AcquisitionOpened(reg, b, e);
      case Dispose => DisposalAddsNoLot(reg, b, e);
      case Relocate => RelocationAddsNoLot(reg, b, e);
      case GiveAway => GiftAddsNoLot(reg, b, e);
      case _ =>
    }
  }

  lemma AcquisitionOpened(reg: Registry, b: Books, e: Event)
    requires TreatmentOf(e) == Acquire && ApplyAcquire(reg, b, e).Posted?
    ensures var lots := ApplyAcquire(reg, b, e).books.lots;
            |lots| == |b.lots| || (|lots| == |b.lots| + 1 && OpenedBy(reg, lots[|b.lots|], e))
  {
  }

  /** A new lot is whole, in the event's wallet, and owned by whoever owned that wallet on the day. */
  lemma OpensWhole(reg: Registry, b: Books, e: Event)
    requires Apply(reg, b, e).Posted? && |Apply(reg, b, e).books.lots| > |b.lots|
    ensures var lot := Apply(reg, b, e).books.lots[|b.lots|];
            && lot.remaining == lot.quantity && lot.wallet == e.wallet
            && EntityFor(reg.assignments, e.wallet, e.occurredAt.date) == Some(lot.entity)
  {
    ApplyOpens(reg, b, e);
  }

  /** Every lot a run adds still shows, at its end, the acquisition among the run's events that opened it. */
  lemma {:induction false} RunLotsOpened(reg: Registry, b: Books, events: seq<Event>, i: nat)
    requires Run(reg, b, events).Posted?
    requires |b.lots| <= i < |Run(reg, b, events).books.lots|
    ensures exists e :: e in events && OpenedBy(reg, Run(reg, b, events).books.lots[i], e)
    decreases events
  {
    var next := Apply(reg, b, events[0]).books;
    ApplyOpens(reg, b, events[0]);
    if i < |next.lots| {
      RunDescends(reg, next, events[1..]);
      assert events[0] in events && OpenedBy(reg, Run(reg, b, events).books.lots[i], events[0]);
    } else {
      RunLotsOpened(reg, next, events[1..], i);
      var e :| e in events[1..] && OpenedBy(reg, Run(reg, next, events[1..]).books.lots[i], e);
      assert e in events;
    }
  }

  // ---- Where lots go ----

  function SourcesOf(slices: seq<Slice>): (sources: seq<nat>)
    ensures |sources| == |slices| && forall i :: 0 <= i < |slices| ==> sources[i] == slices[i].lot.source
  {
    if slices == [] then [] else [slices[0].lot.source] + SourcesOf(slices[1..])
  }

  lemma TouchedIsListed(slices: seq<Slice>, source: nat)
    ensures Touches(slices, source) <==> source in SourcesOf(slices)
  {
    if source in SourcesOf(slices) {
      var i :| 0 <= i < |slices| && SourcesOf(slices)[i] == source;
    }
  }

  /** A lot of the pool in the source wallet becomes one of the destination wallet, and of its owner if it has
      one, with all that remained of it. */
  predicate Arrives(reg: Registry, e: Event, from: nat, pool: Pool, was: Lot, now: Lot) {
    && was.wallet == from && PoolOf(was) == pool && now.wallet == e.wallet && now.remaining == was.remaining
    && now.entity == (match EntityFor(reg.assignments, e.wallet, e.occurredAt.date)
                      case Some(x) => x
                      case None => was.entity)
    && now.acquisition == (match RetypedAs(e) case Some(a) => a case None => was.acquisition)
  }

  lemma LotArrives(reg: Registry, b: Books, e: Event, from: nat, pool: Pool, slices: seq<Slice>, i: nat)
    requires DistinctSources(b.lots) && Cutting(b.lots, from, pool, slices) && i < |b.lots|
    ensures var next := PostMove(reg, b, e, from, slices).lots;
            |next| == |b.lots| &&
            if b.lots[i].source in SourcesOf(slices) then Arrives(reg, e, from, pool, b.lots[i], next[i])
            else next[i] == b.lots[i]
  {
    TouchedIsListed(slices, b.lots[i].source);
    if b.lots[i].source in SourcesOf(slices) {
      var j :| 0 <= j < |slices| && SourcesOf(slices)[j] == b.lots[i].source;
      SameSourceSameLot(b.lots, slices[j].lot, b.lots[i]);
    }
  }

  /** A posted relocation takes whole lots of the one pool from the source wallet to the event's wallet, logs
      one move for each, and leaves every other lot as it was. */
  lemma RelocationArrives(reg: Registry, b: Books, e: Event, outflow: Event, token: nat) returns (moved: seq<nat>)
    requires Sound(b) && !HasRelocation(b, e.id) && ApplyRelocation(reg, b, e).Posted?
    requires SourceEvent(reg, e) == Some(outflow) && e.token == Some(token)
    ensures var next := ApplyRelocation(reg, b, e).books;
            && |next.lots| == |b.lots| && |next.relocations| == |b.relocations| + |moved|
            && (forall k :: 0 <= k < |moved| ==>
                  next.relocations[|b.relocations| + k]
                    == RelocationRow(moved[k], outflow.wallet, e.wallet, MoveReasonOf(e), e.id, e.occurredAt))
            && (forall i :: 0 <= i < |b.lots| ==>
                  if b.lots[i].source in moved then
                    Arrives(reg, e, outflow.wallet, CanonicalPool(reg, token), b.lots[i], next.lots[i])
                  else next.lots[i] == b.lots[i])
  {
    var pool := CanonicalPool(reg, token);
    SelectionCuts(b.lots, outflow.wallet, pool, Fifo, e.amount);
    var slices := Select(b.lots, outflow.wallet, pool, Fifo, e.amount).slices;
    moved := SourcesOf(slices);
    var next := PostMove(reg, b, e, outflow.wallet, slices);
    assert ApplyRelocation(reg, b, e).books == FlagGift(next, e);
    forall i | 0 <= i < |b.lots|
      ensures if b.lots[i].source in moved then Arrives(reg, e, outflow.wallet, pool, b.lots[i], next.lots[i])
              else next.lots[i] == b.lots[i]
    {
      LotArrives(reg, b, e, outflow.wallet, pool, slices, i);
    }
  }
}
