/** Why the two orders are the right ones: HIFO gives up the most basis any selection could, and FIFO
    never lets a short-term lot go before a long-term one. */
module Selection {
  import opened Decimals
  import opened Calendar
  import opened Sequences
  import opened Lots

  /** An arbitrary selection: how much to take from each lot, by the lot's source event. */
  type Choice = map<nat, int>

  function Chosen(choice: Choice, source: nat): int {
    if source in choice then choice[source] else 0
  }

  predicate Feasible(lots: seq<Lot>, choice: Choice) {
    forall lot :: lot in lots ==> 0 <= Chosen(choice, lot.source) <= lot.remaining
  }

  function ChosenTotal(lots: seq<Lot>, choice: Choice): int {
    if lots == [] then 0 else Chosen(choice, lots[0].source) + ChosenTotal(lots[1..], choice)
  }

  /** The basis a selection gives up, before any rounding. */
  function ChosenBasis(lots: seq<Lot>, choice: Choice): real {
    if lots == [] then 0.0
    else Cost(UnitBasis(lots[0]), Chosen(choice, lots[0].source)) + ChosenBasis(lots[1..], choice)
  }

  function ExactBasis(slices: seq<Slice>): real {
    if slices == [] then 0.0
    else Cost(UnitBasis(slices[0].lot), slices[0].taken) + ExactBasis(slices[1..])
  }

  // ---- Greedy selection in the abstract: units on offer at a price ----

  datatype Offer = Offer(price: real, units: int)

  function Offers(lots: seq<Lot>): (offers: seq<Offer>)
    ensures |offers| == |lots|
    ensures forall i :: 0 <= i < |lots| ==> offers[i] == Offer(UnitBasis(lots[i]), lots[i].remaining)
  {
    if lots == [] then [] else [Offer(UnitBasis(lots[0]), lots[0].remaining)] + Offers(lots[1..])
  }

  function Cost(price: real, units: int): real {
    price * units as real
  }

  lemma CostSplit(price: real, a: int, b: int)
    ensures Cost(price, a + b) == Cost(price, a) + Cost(price, b)
  {
  }

  lemma CostMonotone(low: real, high: real, units: int)
    requires low <= high && 0 <= units
    ensures Cost(low, units) <= Cost(high, units)
  {
  }

  function TotalUnits(offers: seq<Offer>): int {
    if offers == [] then 0 else offers[0].units + TotalUnits(offers[1..])
  }

  /** The cost of taking a quantity from the front. */
  function Walk(offers: seq<Offer>, quantity: int): real {
    if offers == [] then 0.0
    else var take := Min(offers[0].units, quantity); Cost(offers[0].price, take) + Walk(offers[1..], quantity - take)
  }

  function Picked(offers: seq<Offer>, picks: seq<int>): real
    requires |picks| == |offers|
  {
    if offers == [] then 0.0 else Cost(offers[0].price, picks[0]) + Picked(offers[1..], picks[1..])
  }

  function PickedUnits(picks: seq<int>): int {
    if picks == [] then 0 else picks[0] + PickedUnits(picks[1..])
  }

  ghost predicate NonNegative(offers: seq<Offer>) {
    forall i :: 0 <= i < |offers| ==> offers[i].units >= 0
  }

  lemma {:induction false} TotalUnitsNonNegative(offers: seq<Offer>)
    requires NonNegative(offers)
    ensures TotalUnits(offers) >= 0
  {
    if offers != [] {
      TotalUnitsNonNegative(offers[1..]);
    }
  }

  /** Asking for d more costs at most d times the dearest unit on offer. */
  lemma {:induction false} WalkMargin(offers: seq<Offer>, quantity: int, d: int, price: real)
    requires NonNegative(offers) && 0 <= quantity && 0 <= d && quantity + d <= TotalUnits(offers)
    requires forall i :: 0 <= i < |offers| ==> offers[i].price <= price
    ensures Walk(offers, quantity + d) <= Walk(offers, quantity) + Cost(price, d)
  {
    if offers != [] {
      var head := offers[0];
      var less, more := Min(head.units, quantity), Min(head.units, quantity + d);
      TotalUnitsNonNegative(offers[1..]);
      WalkMargin(offers[1..], quantity - less, d - (more - less), price);
      CostSplit(head.price, less, more - less);
      CostMonotone(head.price, price, more - less);
      CostSplit(price, more - less, d - (more - less));
    }
  }

  /** Along offers in descending price no other pick of as many units costs more: exchange the head's
      surplus for units of the tail, which are no dearer. */
  lemma {:induction false} WalkBest(offers: seq<Offer>, picks: seq<int>)
    requires |picks| == |offers| && NonNegative(offers)
    requires forall i :: 0 <= i < |offers| ==> 0 <= picks[i] <= offers[i].units
    requires forall i, j :: 0 <= i < j < |offers| ==> offers[i].price >= offers[j].price
    ensures 0 <= PickedUnits(picks) <= TotalUnits(offers)
    ensures Picked(offers, picks) <= Walk(offers, PickedUnits(picks))
  {
    if offers != [] {
      var head, tail, quantity := offers[0], offers[1..], PickedUnits(picks);
      WalkBest(tail, picks[1..]);
      var take := Min(head.units, quantity);
      WalkMargin(tail, quantity - take, take - picks[0], head.price);
      CostSplit(head.price, picks[0], take - picks[0]);
    }
  }

  function Picks(lots: seq<Lot>, choice: Choice): (picks: seq<int>)
    ensures |picks| == |lots|
    ensures forall i :: 0 <= i < |lots| ==> picks[i] == Chosen(choice, lots[i].source)
  {
    if lots == [] then [] else [Chosen(choice, lots[0].source)] + Picks(lots[1..], choice)
  }

  lemma {:induction false} ChoiceIsPick(lots: seq<Lot>, choice: Choice)
    ensures ChosenTotal(lots, choice) == PickedUnits(Picks(lots, choice))
    ensures ChosenBasis(lots, choice) == Picked(Offers(lots), Picks(lots, choice))
  {
    if lots != [] {
      ChoiceIsPick(lots[1..], choice);
      assert Offers(lots)[1..] == Offers(lots[1..]) && Picks(lots, choice)[1..] == Picks(lots[1..], choice);
    }
  }

  /** The walk over lots is the walk over their offers. */
  lemma {:induction false} ConsumeIsWalk(ordered: seq<Lot>, quantity: int)
    requires AllOpen(ordered) && 0 <= quantity && Consume(ordered, quantity).Covered?
    ensures ExactBasis(Consume(ordered, quantity).slices) == Walk(Offers(ordered), quantity)
  {
    if ordered != [] {
      var tail := ordered[1..];
      assert Open(ordered[0]);
      assert Offers(ordered)[1..] == Offers(tail);
      var take := Min(ordered[0].remaining, quantity);
      assert quantity == 0 ==> take == 0 && Consume(tail, 0) == Covered([]);
      ConsumeIsWalk(tail, quantity - take);
      if quantity > 0 {
        var slices := Consume(ordered, quantity).slices;
        assert slices[1..] == Consume(tail, quantity - take).slices;
      }
    }
  }

  lemma {:induction false} ChosenInsert(lot: Lot, lots: seq<Lot>, le: (Lot, Lot) -> bool, choice: Choice)
    ensures ChosenTotal(Insert(lot, lots, le), choice) == Chosen(choice, lot.source) + ChosenTotal(lots, choice)
    ensures ChosenBasis(Insert(lot, lots, le), choice)
            == Cost(UnitBasis(lot), Chosen(choice, lot.source)) + ChosenBasis(lots, choice)
  {
    if lots == [] {
    } else if le(lot, lots[0]) {
      assert ([lot] + lots)[1..] == lots;
    } else {
      ChosenInsert(lot, lots[1..], le, choice);
    }
  }

  /** What a selection takes and gives up does not depend on how the lots are listed. */
  lemma {:induction false} ChosenSort(lots: seq<Lot>, le: (Lot, Lot) -> bool, choice: Choice)
    ensures ChosenTotal(Sort(lots, le), choice) == ChosenTotal(lots, choice)
    ensures ChosenBasis(Sort(lots, le), choice) == ChosenBasis(lots, choice)
  {
    if lots != [] {
      ChosenSort(lots[1..], le, choice);
      ChosenInsert(lots[0], Sort(lots[1..], le), le, choice);
    }
  }

  /** HIFO is optimal: over any open pool, every feasible selection of the same quantity gives up at most
      the exact basis that the greedy walk in HIFO order gives up. */
  lemma HifoOptimal(pool: seq<Lot>, choice: Choice)
    requires AllOpen(pool) && Feasible(pool, choice)
    ensures AllOpen(OrderLots(Hifo, pool))
    ensures Consume(OrderLots(Hifo, pool), ChosenTotal(pool, choice)).Covered?
    ensures ChosenBasis(pool, choice) <= ExactBasis(Consume(OrderLots(Hifo, pool), ChosenTotal(pool, choice)).slices)
  {
    var ordered := OrderLots(Hifo, pool);
    SortMembers(pool, OrderKey(Hifo));
    OrderKeyTotal(Hifo);
    SortSorted(pool, OrderKey(Hifo));
    forall i, j | 0 <= i < j < |ordered| ensures UnitBasis(ordered[i]) >= UnitBasis(ordered[j]) {
      assert OrderKey(Hifo)(ordered[i], ordered[j]);
    }
    forall i | 0 <= i < |ordered| ensures Open(ordered[i])
      && 0 <= Chosen(choice, ordered[i].source) <= ordered[i].remaining {
      assert ordered[i] in pool;
    }
    var quantity := ChosenTotal(pool, choice);
    ChosenSort(pool, OrderKey(Hifo), choice);
    ChoiceIsPick(ordered, choice);
    WalkBest(Offers(ordered), Picks(ordered, choice));
    OffersTotal(ordered);
    ConsumeExact(ordered, quantity);
    ConsumeIsWalk(ordered, quantity);
  }

  lemma {:induction false} OffersTotal(lots: seq<Lot>)
    ensures TotalUnits(Offers(lots)) == Available(lots)
  {
    if lots != [] {
      OffersTotal(lots[1..]);
      assert Offers(lots)[1..] == Offers(lots[1..]);
    }
  }

  /** FIFO lists every long-term slice before every short-term one. */
  lemma FifoLongFirst(pool: seq<Lot>, quantity: int, disposedAt: Instant)
    requires AllOpen(pool) && forall lot :: lot in pool ==> ValidDate(lot.acquiredAt.date)
    ensures AllOpen(OrderLots(Fifo, pool))
    ensures Consume(OrderLots(Fifo, pool), quantity).Covered? ==>
              var ss := Consume(OrderLots(Fifo, pool), quantity).slices;
              forall i, j :: 0 <= i < j < |ss| && Holding(ss[j].lot.acquiredAt, disposedAt).Long?
                ==> Holding(ss[i].lot.acquiredAt, disposedAt).Long?
  {
    var ordered := OrderLots(Fifo, pool);
    SortMembers(pool, OrderKey(Fifo));
    OrderKeyTotal(Fifo);
    SortSorted(pool, OrderKey(Fifo));
    if Consume(ordered, quantity).Covered? {
      var ss := Consume(ordered, quantity).slices;
      ConsumePrefix(ordered, quantity);
      forall i, j | 0 <= i < j < |ss| && Holding(ss[j].lot.acquiredAt, disposedAt).Long?
        ensures Holding(ss[i].lot.acquiredAt, disposedAt).Long?
      {
        assert OrderKey(Fifo)(ordered[i], ordered[j]);
        assert ordered[i] in pool && ordered[j] in pool;
        HoldingMonotone(ordered[i].acquiredAt, ordered[j].acquiredAt, disposedAt);
      }
    }
  }
}
