/** Tax lots, the orders in which they are consumed, and the greedy walk that consumes them. */
module Lots {
  import opened Decimals
  import opened Calendar
  import opened Sequences

  datatype AcquisitionType = Buy | Mint | Reward | Gift | CapContribution

  datatype AssetClass = Fungible | Collectible

  datatype LotMethod = Fifo | Hifo

  /** The canonical pool of a token: its logical asset when it has one, otherwise the token alone. */
  datatype Pool = Logical(asset: nat) | Token(token: nat)

  /** A row of tax_lots.  A lot is named by the event that opened it (that column is unique), and the
      table lists lots in the order of their ids, which is the order of their creation. */
  datatype Lot = Lot(source: nat, wallet: nat, token: nat, logical: Option<nat>, entity: nat,
                     acquiredAt: Instant, acquisition: AcquisitionType, assetClass: AssetClass,
                     quantity: int, remaining: int, basis: int)

  function PoolOf(lot: Lot): Pool {
    match lot.logical
    case Some(asset) => Logical(asset)
    case None => Token(lot.token)
  }

  predicate Open(lot: Lot) {
    0 < lot.remaining <= lot.quantity
  }

  predicate AllOpen(lots: seq<Lot>) {
    forall lot :: lot in lots ==> Open(lot)
  }

  ghost predicate DistinctSources(lots: seq<Lot>) {
    forall i, j :: 0 <= i < j < |lots| ==> lots[i].source != lots[j].source
  }

  function UnitBasis(lot: Lot): real {
    if lot.quantity == 0 then 0.0 else lot.basis as real / lot.quantity as real
  }

  /** The sort keys: oldest first, or dearest first and oldest among equally dear ones. */
  predicate Precedes(strategy: LotMethod, a: Lot, b: Lot) {
    match strategy
    case Fifo => InstantLe(a.acquiredAt, b.acquiredAt)
    case Hifo => UnitBasis(a) > UnitBasis(b) || (UnitBasis(a) == UnitBasis(b) && InstantLe(a.acquiredAt, b.acquiredAt))
  }

  function OrderKey(strategy: LotMethod): (Lot, Lot) -> bool {
    (a, b) => Precedes(strategy, a, b)
  }

  /** Ties fall to the lot id, that is to the position in the table, because the sort is stable. */
  function OrderLots(strategy: LotMethod, lots: seq<Lot>): seq<Lot> {
    Sort(lots, OrderKey(strategy))
  }

  lemma OrderKeyTotal(strategy: LotMethod)
    ensures TotalPreorder(OrderKey(strategy))
  {
  }

  // ---- Consumption ----

  datatype Slice = Slice(lot: Lot, taken: int, basis: int)

  datatype Allocation = Covered(slices: seq<Slice>) | Insufficient(unmatched: int)

  /** The basis that leaves a lot with `taken` of its quantity. */
  function SliceBasis(lot: Lot, taken: int): int
    requires lot.quantity > 0
  {
    HalfEven(lot.basis * taken, lot.quantity)
  }

  function Prepend(first: seq<Slice>, rest: Allocation): Allocation {
    match rest
    case Covered(slices) => Covered(first + slices)
    case Insufficient(u) => Insufficient(u)
  }

  /** Walks lots that are already in order and takes from each what is still outstanding. */
  function Consume(ordered: seq<Lot>, quantity: int): Allocation
    requires AllOpen(ordered)
  {
    if quantity <= 0 then Covered([])
    else if ordered == [] then Insufficient(quantity)
    else
      var lot := ordered[0];
      assert Open(lot);
      var take := Min(lot.remaining, quantity);
      Prepend([Slice(lot, take, SliceBasis(lot, take))], Consume(ordered[1..], quantity - take))
  }

  /** One step of the walk, with what earlier steps took put in front. */
  lemma ConsumeStep(ordered: seq<Lot>, i: nat, outstanding: int, slices: seq<Slice>, take: int)
    requires AllOpen(ordered) && i < |ordered| && outstanding > 0 && take == Min(ordered[i].remaining, outstanding)
    ensures Open(ordered[i])
    ensures Prepend(slices, Consume(ordered[i..], outstanding))
         == Prepend(slices + [Slice(ordered[i], take, SliceBasis(ordered[i], take))],
                    Consume(ordered[i + 1..], outstanding - take))
  {
    assert Open(ordered[i..][0]);
    assert ordered[i..][1..] == ordered[i + 1..];
    var one := [Slice(ordered[i], take, SliceBasis(ordered[i], take))];
    var rest := Consume(ordered[i + 1..], outstanding - take);
    assert rest.Covered? ==> slices + (one + rest.slices) == (slices + one) + rest.slices;
  }

  /** The loop over the ordered lots, with its two ways of computing a slice's basis. */
  method WalkLots(ordered: seq<Lot>, quantity: int) returns (allocation: Allocation)
    requires AllOpen(ordered)
    ensures allocation == Consume(ordered, quantity)
  {
    var slices: seq<Slice> := [];
    var outstanding := quantity;
    var i := 0;
    while i < |ordered| && outstanding > 0
      invariant 0 <= i <= |ordered|
      invariant Consume(ordered, quantity) == Prepend(slices, Consume(ordered[i..], outstanding))
    {
      var lot := ordered[i];
      var take := Min(lot.remaining, outstanding);
      ConsumeStep(ordered, i, outstanding, slices, take);
      var basis := BasisOf(lot, take);
      slices := slices + [Slice(lot, take, basis)];
      outstanding := outstanding - take;
      i := i + 1;
    }
    WalkOver(ordered[i..], outstanding, slices);
    allocation := if outstanding > 0 then Insufficient(outstanding) else Covered(slices);
  }

  method BasisOf(lot: Lot, take: int) returns (basis: int)
    requires lot.quantity > 0
    ensures basis == SliceBasis(lot, take)
  {
    if take == lot.remaining {
      basis := HalfEven(lot.basis * lot.remaining, lot.quantity);
    } else {
      basis := HalfEven(lot.basis * take, lot.quantity);
    }
  }

  method ConsumeLots(strategy: LotMethod, lots: seq<Lot>, quantity: int) returns (allocation: Allocation)
    requires AllOpen(lots)
    ensures AllOpen(OrderLots(strategy, lots))
    ensures allocation == Consume(OrderLots(strategy, lots), quantity)
  {
    SortMembers(lots, OrderKey(strategy));
    allocation := WalkLots(OrderLots(strategy, lots), quantity);
  }

  lemma WalkOver(rest: seq<Lot>, outstanding: int, slices: seq<Slice>)
    requires AllOpen(rest) && (rest == [] || outstanding <= 0)
    ensures Prepend(slices, Consume(rest, outstanding))
         == if outstanding > 0 then Insufficient(outstanding) else Covered(slices)
  {
    assert slices + [] == slices;
  }

  function Taken(slices: seq<Slice>): int {
    if slices == [] then 0 else slices[0].taken + Taken(slices[1..])
  }

  function Available(lots: seq<Lot>): int {
    if lots == [] then 0 else lots[0].remaining + Available(lots[1..])
  }

  lemma {:induction false} AvailableInsert(lot: Lot, lots: seq<Lot>, le: (Lot, Lot) -> bool)
    ensures Available(Insert(lot, lots, le)) == lot.remaining + Available(lots)
  {
    if lots != [] && !le(lot, lots[0]) {
      AvailableInsert(lot, lots[1..], le);
    } else {
      assert ([lot] + lots)[1..] == lots;
    }
  }

  lemma {:induction false} AvailableSort(lots: seq<Lot>, le: (Lot, Lot) -> bool)
    ensures Available(Sort(lots, le)) == Available(lots)
  {
    if lots != [] {
      AvailableSort(lots[1..], le);
      AvailableInsert(lots[0], Sort(lots[1..], le), le);
    }
  }

  /** What the slices take from the lot opened by `source`. */
  function TakeOf(slices: seq<Slice>, source: nat): int {
    if slices == [] then 0
    else (if slices[0].lot.source == source then slices[0].taken else 0) + TakeOf(slices[1..], source)
  }

  predicate Touches(slices: seq<Slice>, source: nat) {
    exists i :: 0 <= i < |slices| && slices[i].lot.source == source
  }

  /** A disposal is covered exactly when the pool holds enough, and then takes the whole quantity and
      nothing else; otherwise the shortfall reported is the exact one. */
  lemma {:induction false} ConsumeExact(ordered: seq<Lot>, quantity: int)
    requires AllOpen(ordered)
    ensures Available(ordered) >= 0
    ensures Consume(ordered, quantity).Covered? <==> quantity <= Available(ordered)
    ensures Consume(ordered, quantity).Covered? ==> Taken(Consume(ordered, quantity).slices) == Max(quantity, 0)
    ensures Consume(ordered, quantity).Insufficient? ==>
              Consume(ordered, quantity).unmatched == quantity - Available(ordered)
  {
    if ordered != [] {
      assert Open(ordered[0]);
      ConsumeExact(ordered[1..], quantity - Min(ordered[0].remaining, quantity));
      ConsumeExact(ordered[1..], quantity);
    }
  }

  /** The slices are the shortest sufficient prefix of the order: each lot but the last is exhausted,
      every slice takes something, and carries the rounded pro-rata basis of what it takes. */
  lemma {:induction false} ConsumePrefix(ordered: seq<Lot>, quantity: int)
    requires AllOpen(ordered) && Consume(ordered, quantity).Covered?
    ensures var ss := Consume(ordered, quantity).slices;
            && |ss| <= |ordered|
            && (ss == [] <==> quantity <= 0)
            && (forall i :: 0 <= i < |ss| ==> ss[i].lot == ordered[i] && 0 < ss[i].taken <= ordered[i].remaining)
            && (forall i :: 0 <= i < |ss| ==>
                 ss[i].lot.quantity > 0 && ss[i].basis == SliceBasis(ss[i].lot, ss[i].taken))
            && (forall i :: 0 <= i < |ss| - 1 ==> ss[i].taken == ordered[i].remaining)
  {
    if quantity > 0 {
      assert Open(ordered[0]);
      var take := Min(ordered[0].remaining, quantity);
      ConsumePrefix(ordered[1..], quantity - take);
      var rest := Consume(ordered[1..], quantity - take).slices;
      assert Consume(ordered, quantity).slices[1..] == rest;
    }
  }

  lemma {:induction false} TakeOfAppend(a: seq<Slice>, b: seq<Slice>, source: nat)
    ensures TakeOf(a + b, source) == TakeOf(a, source) + TakeOf(b, source)
  {
    if a == [] {
      assert a + b == b;
    } else {
      TakeOfAppend(a[1..], b, source);
      assert (a + b)[1..] == a[1..] + b;
    }
  }

  lemma {:induction false} TakeOfUntouched(slices: seq<Slice>, source: nat)
    requires !Touches(slices, source)
    ensures TakeOf(slices, source) == 0
  {
    if slices != [] {
      assert slices[0].lot.source != source;
      forall i | 0 <= i < |slices[1..]| ensures slices[1..][i].lot.source != source {
        assert slices[1..][i] == slices[i + 1];
      }
      TakeOfUntouched(slices[1..], source);
    }
  }

  /** Among distinct lots each is cut at most once, so what a lot gives up is its one slice. */
  lemma {:induction false} TakeOfSlice(slices: seq<Slice>, i: nat)
    requires i < |slices|
    requires forall j, k :: 0 <= j < k < |slices| ==> slices[j].lot.source != slices[k].lot.source
    ensures TakeOf(slices, slices[i].lot.source) == slices[i].taken
  {
    if i == 0 {
      forall k | 0 <= k < |slices[1..]| ensures slices[1..][k].lot.source != slices[0].lot.source {
        assert slices[1..][k] == slices[k + 1];
      }
      TakeOfUntouched(slices[1..], slices[0].lot.source);
    } else {
      TakeOfSlice(slices[1..], i - 1);
    }
  }

  /** No lot is ever asked for more than it has left, whatever the order of the walk. */
  lemma ConsumeWithinRemaining(ordered: seq<Lot>, quantity: int, i: nat)
    requires AllOpen(ordered) && DistinctSources(ordered) && Consume(ordered, quantity).Covered?
    requires i < |ordered|
    ensures 0 <= TakeOf(Consume(ordered, quantity).slices, ordered[i].source) <= ordered[i].remaining
  {
    var ss := Consume(ordered, quantity).slices;
    ConsumePrefix(ordered, quantity);
    if i < |ss| {
      TakeOfSlice(ss, i);
    } else {
      assert Open(ordered[i]);
      TakeOfUntouched(ss, ordered[i].source);
    }
  }
}
