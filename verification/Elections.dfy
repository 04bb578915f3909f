/** Who owns a wallet on a day, which lots a sale may take, and in which order the owner's election makes it. */
module Elections {
  import opened Decimals
  import opened Calendar
  import opened Sequences
  import opened Lots
  import opened Selection
  import opened Events
  import opened Books
  import opened Conservation

  // ---- Ownership ----

  /** A date as the number YYYYMMDD. */
  function Iso(d: Date): int {
    d.year * 10000 + d.month * 100 + d.day
  }

  lemma IsoOrders(a: Date, b: Date)
    requires ValidDate(a) && ValidDate(b)
    ensures DateLe(a, b) <==> Iso(a) <= Iso(b)
  {
  }

  ghost predicate ValidDates(assignments: seq<Assignment>) {
    forall a :: a in assignments ==>
      ValidDate(a.effectiveFrom) && (a.effectiveTo.Some? ==> ValidDate(a.effectiveTo.value))
  }

  /** From its first day to its last, both included, if it has a last. */
  predicate Holds(a: Assignment, wallet: nat, day: Date) {
    && a.wallet == wallet && Iso(a.effectiveFrom) <= Iso(day)
    && (a.effectiveTo.None? || Iso(day) <= Iso(a.effectiveTo.value))
  }

  /** The owner is the entity of the first assignment that holds on the day, and there is none if none does. */
  lemma {:induction false} OwnerIff(assignments: seq<Assignment>, wallet: nat, day: Date, entity: nat)
    requires ValidDate(day) && ValidDates(assignments)
    ensures EntityFor(assignments, wallet, day) == Some(entity)
            <==> exists i: nat :: FirstHeld(assignments, wallet, day, i) && assignments[i].entity == entity
    ensures EntityFor(assignments, wallet, day).None? <==> forall a :: a in assignments ==> !Holds(a, wallet, day)
  {
    if assignments != [] {
      var first, rest := assignments[0], assignments[1..];
      assert first in assignments && forall a :: a in rest ==> a in assignments;
      IsoOrders(first.effectiveFrom, day);
      if first.effectiveTo.Some? { IsoOrders(day, first.effectiveTo.value); }
      assert InForce(first, wallet, day) <==> Holds(first, wallet, day);
      OwnerIff(rest, wallet, day, entity);
      if Holds(first, wallet, day) {
        assert FirstHeld(assignments, wallet, day, 0);
      } else {
        forall i: nat {
          OwnerOfRest(assignments, wallet, day, i);
        }
        if i: nat :| FirstHeld(rest, wallet, day, i) && rest[i].entity == entity {
          assert FirstHeld(assignments, wallet, day, i + 1);
        }
      }
    }
  }

  /** The assignment at i is the first that holds. */
  ghost predicate FirstHeld(assignments: seq<Assignment>, wallet: nat, day: Date, i: nat) {
    i < |assignments| && Holds(assignments[i], wallet, day)
    && forall j :: 0 <= j < i ==> !Holds(assignments[j], wallet, day)
  }

  lemma OwnerOfRest(assignments: seq<Assignment>, wallet: nat, day: Date, i: nat)
    requires assignments != [] && !Holds(assignments[0], wallet, day)
    ensures FirstHeld(assignments, wallet, day, i) <==> i > 0 && FirstHeld(assignments[1..], wallet, day, i - 1)
  {
    var rest := assignments[1..];
    assert forall j :: 0 < j < |assignments| ==> assignments[j] == rest[j - 1];
    assert forall j :: 0 <= j < |rest| ==> rest[j] == assignments[j + 1];
  }

  // ---- What may be sold ----

  /** Something is left of it, the wallet holds it, and it is of the token's asset, or of the very token if the token
      has no asset. */
  predicate Sellable(reg: Registry, lot: Lot, wallet: nat, token: nat) {
    && 0 < lot.remaining <= lot.quantity && lot.wallet == wallet
    && if token in reg.membership then lot.logical == Some(reg.membership[token])
       else lot.logical.None? && lot.token == token
  }

  lemma SellableIff(reg: Registry, lots: seq<Lot>, wallet: nat, token: nat)
    ensures forall lot :: lot in OpenLots(lots, wallet, CanonicalPool(reg, token))
                          <==> lot in lots && Sellable(reg, lot, wallet, token)
  {
    SortMembers(Filter(lots, InPool(wallet, CanonicalPool(reg, token))), OrderKey(Fifo));
  }

  // ---- The election ----

  /** The wallet's owner that day has elected specific identification. */
  ghost predicate Elected(reg: Registry, e: Event) {
    exists entity :: EntityFor(reg.assignments, e.wallet, e.occurredAt.date) == Some(entity)
                     && entity in reg.hifoEntities
  }

  /** The event parts with something: a sale not booked yet, or a gift. */
  predicate Parts(b: Books, e: Event) {
    e.token.Some? && ((TreatmentOf(e) == Dispose && !HasDisposal(b, e.id))
                      || (TreatmentOf(e) == GiveAway && !HasRelocation(b, e.id)))
  }

  // ---- What is booked for it ----

  function BookedBasis(slices: seq<Slice>): int {
    if slices == [] then 0 else slices[0].basis + BookedBasis(slices[1..])
  }

  lemma Positive(x: real, y: real)
    requires x > 0.0 && y > 0.0
    ensures x * y > 0.0
  {
  }

  lemma Distribute(x: real, y: real, q: real)
    ensures (x - y) * q == x * q - y * q
  {
  }

  lemma DivideOut(x: real, q: real)
    requires q > 0.0 && -q <= 2.0 * (x * q) <= q
    ensures -0.5 <= x <= 0.5
  {
    if x > 0.5 {
      Positive(x - 0.5, q);
      Distribute(x, 0.5, q);
    } else if x < -0.5 {
      Positive(-0.5 - x, q);
      Distribute(-0.5, x, q);
    }
  }

  lemma IntProduct(a: int, b: int)
    ensures (a * b) as real == a as real * b as real
  {
  }

  lemma ToReals(num: int, product: int, q: int)
    requires -q <= 2 * (num - product) <= q
    ensures -(q as real) <= 2.0 * (num as real - product as real) <= q as real
  {
  }

  lemma NearReal(num: real, booked: real, q: real, exact: real)
    requires q > 0.0 && exact * q == num && -q <= 2.0 * (num - booked * q) <= q
    ensures -0.5 <= exact - booked <= 0.5
  {
    var x := exact - booked;
    assert x * q == num - booked * q by { Distribute(exact, booked, q); }
    DivideOut(x, q);
  }

  lemma ExactTimes(lot: Lot, taken: int)
    requires lot.quantity > 0
    ensures Cost(UnitBasis(lot), taken) * lot.quantity as real == (lot.basis * taken) as real
  {
    IntProduct(lot.basis, taken);
    assert UnitBasis(lot) * lot.quantity as real == lot.basis as real;
  }

  lemma BookedTimes(lot: Lot, taken: int)
    requires lot.quantity > 0
    ensures var q := lot.quantity as real;
            -q <= 2.0 * ((lot.basis * taken) as real - SliceBasis(lot, taken) as real * q) <= q
  {
    HalfEvenNearest(lot.basis * taken, lot.quantity);
    IntProduct(SliceBasis(lot, taken), lot.quantity);
    ToReals(lot.basis * taken, SliceBasis(lot, taken) * lot.quantity, lot.quantity);
  }

  /** What a slice books is within half a unit of the exact basis of what it takes. */
  lemma SliceNearExact(slice: Slice)
    requires slice.lot.quantity > 0 && slice.basis == SliceBasis(slice.lot, slice.taken)
    ensures -0.5 <= Cost(UnitBasis(slice.lot), slice.taken) - slice.basis as real <= 0.5
  {
    ExactTimes(slice.lot, slice.taken);
    BookedTimes(slice.lot, slice.taken);
    NearReal((slice.lot.basis * slice.taken) as real, slice.basis as real, slice.lot.quantity as real,
      Cost(UnitBasis(slice.lot), slice.taken));
  }

  lemma {:induction false} BookedNearExact(slices: seq<Slice>)
    requires forall i :: 0 <= i < |slices| ==>
               slices[i].lot.quantity > 0 && slices[i].basis == SliceBasis(slices[i].lot, slices[i].taken)
    ensures ExactBasis(slices) <= BookedBasis(slices) as real + |slices| as real * 0.5
  {
    if slices != [] {
      SliceNearExact(slices[0]);
      BookedNearExact(slices[1..]);
    }
  }

  lemma BestOfPool(pool: seq<Lot>, choice: Choice) returns (slices: seq<Slice>)
    requires AllOpen(pool) && Feasible(pool, choice)
    ensures AllOpen(OrderLots(Hifo, pool))
    ensures Consume(OrderLots(Hifo, pool), ChosenTotal(pool, choice)) == Covered(slices)
    ensures ChosenBasis(pool, choice) <= ExactBasis(slices)
    ensures ChosenBasis(pool, choice) <= BookedBasis(slices) as real + |slices| as real * 0.5
  {
    HifoOptimal(pool, choice);
    slices := Consume(OrderLots(Hifo, pool), ChosenTotal(pool, choice)).slices;
    ConsumePrefix(OrderLots(Hifo, pool), ChosenTotal(pool, choice));
    BookedNearExact(slices);
  }

  /** Elected, a sale or gift gives up the highest basis there is: no other way to take its amount from the lots that
      may be sold has a higher exact basis, and what is booked falls short of that by half a unit a slice at most. */
  lemma ElectionIsBest(reg: Registry, b: Books, e: Event, choice: Choice) returns (slices: seq<Slice>)
    requires Parts(b, e) && Elected(reg, e)
    requires var pool := OpenLots(b.lots, e.wallet, CanonicalPool(reg, e.token.value));
             Feasible(pool, choice) && ChosenTotal(pool, choice) == e.amount
    ensures Apply(reg, b, e).Posted? && Apply(reg, b, e).books.lots == Deduct(b.lots, slices)
    ensures var best := ChosenBasis(OpenLots(b.lots, e.wallet, CanonicalPool(reg, e.token.value)), choice);
            best <= ExactBasis(slices) && best <= BookedBasis(slices) as real + |slices| as real * 0.5
  {
    slices := BestOfPool(OpenLots(b.lots, e.wallet, CanonicalPool(reg, e.token.value)), choice);
    assert Select(b.lots, e.wallet, CanonicalPool(reg, e.token.value), MethodFor(reg, e), e.amount) == Covered(slices);
  }

  lemma UsedUp(ordered: seq<Lot>, amount: int, i: nat, j: nat)
    requires AllOpen(ordered) && DistinctSources(ordered) && Consume(ordered, amount).Covered?
    requires i < j < |Consume(ordered, amount).slices|
    ensures i < |ordered| && TakeOf(Consume(ordered, amount).slices, ordered[i].source) == ordered[i].remaining
  {
    ConsumePrefix(ordered, amount);
    TakeOfSlice(Consume(ordered, amount).slices, i);
  }

  /** The open lots of a pool in the order of a method. */
  function Queue(lots: seq<Lot>, wallet: nat, pool: Pool, strategy: LotMethod): seq<Lot> {
    OrderLots(strategy, OpenLots(lots, wallet, pool))
  }

  lemma QueueInOrder(lots: seq<Lot>, wallet: nat, pool: Pool, strategy: LotMethod)
    requires DistinctSources(lots)
    ensures var queue := Queue(lots, wallet, pool, strategy);
            && AllOpen(queue) && DistinctSources(queue) && Sorted(queue, OrderKey(strategy))
            && forall lot :: lot in queue <==> lot in OpenLots(lots, wallet, pool)
  {
    var found, open := Filter(lots, InPool(wallet, pool)), OpenLots(lots, wallet, pool);
    SortMembers(open, OrderKey(strategy));
    OrderKeyTotal(strategy);
    SortSorted(open, OrderKey(strategy));
    FilterDistinct(lots, InPool(wallet, pool), Origin());
    SortDistinct(found, OrderKey(Fifo), Origin());
    SortDistinct(open, OrderKey(strategy), Origin());
  }

  lemma PlacedBefore(queue: seq<Lot>, strategy: LotMethod, i: nat, j: nat)
    requires Sorted(queue, OrderKey(strategy)) && i < |queue| && j < |queue|
    requires !Precedes(strategy, queue[j], queue[i])
    ensures i < j
  {
    assert !OrderKey(strategy)(queue[j], queue[i]);
  }

  /** A lot is touched only when every one that goes strictly before it is used up. */
  lemma FirstUsedUp(lots: seq<Lot>, wallet: nat, pool: Pool, strategy: LotMethod, amount: int, p: Lot, q: Lot)
    requires DistinctSources(lots) && Select(lots, wallet, pool, strategy, amount).Covered?
    requires p in OpenLots(lots, wallet, pool) && !Precedes(strategy, q, p)
    requires exists s :: s in Select(lots, wallet, pool, strategy, amount).slices && s.lot == q
    ensures TakeOf(Select(lots, wallet, pool, strategy, amount).slices, p.source) == p.remaining
  {
    QueueInOrder(lots, wallet, pool, strategy);
    var queue := Queue(lots, wallet, pool, strategy);
    var slices := Consume(queue, amount).slices;
    ConsumePrefix(queue, amount);
    var j :| 0 <= j < |slices| && slices[j].lot == q;
    var i :| 0 <= i < |queue| && queue[i] == p;
    PlacedBefore(queue, strategy, i, j);
    UsedUp(queue, amount, i, j);
  }

  lemma CutInOrder(b: Books, wallet: nat, pool: Pool, strategy: LotMethod, amount: int, slices: seq<Slice>, i: nat,
                   j: nat)
    requires DistinctSources(b.lots) && Select(b.lots, wallet, pool, strategy, amount) == Covered(slices)
    requires i < |b.lots| && b.lots[i] in OpenLots(b.lots, wallet, pool)
    requires j < |b.lots| && !Precedes(strategy, b.lots[j], b.lots[i])
    ensures var next := Deduct(b.lots, slices);
            next[j].remaining != b.lots[j].remaining ==> next[i].remaining == 0
  {
    if Touches(slices, b.lots[j].source) {
      var k :| 0 <= k < |slices| && slices[k].lot.source == b.lots[j].source;
      SelectionCuts(b.lots, wallet, pool, strategy, amount);
      SameLot(b.lots, slices[k].lot, j);
      assert slices[k] in slices;
      FirstUsedUp(b.lots, wallet, pool, strategy, amount, b.lots[i], b.lots[j]);
    } else {
      TakeOfUntouched(slices, b.lots[j].source);
    }
  }

  lemma PartsInOrder(reg: Registry, b: Books, e: Event, i: nat, j: nat)
    requires DistinctSources(b.lots) && Parts(b, e) && Apply(reg, b, e).Posted?
    requires i < |b.lots| && Sellable(reg, b.lots[i], e.wallet, e.token.value)
    requires j < |b.lots| && !Precedes(MethodFor(reg, e), b.lots[j], b.lots[i])
    ensures var next := Apply(reg, b, e).books.lots;
            |next| == |b.lots| && (next[j].remaining != b.lots[j].remaining ==> next[i].remaining == 0)
  {
    var pool, strategy := CanonicalPool(reg, e.token.value), MethodFor(reg, e);
    SellableIff(reg, b.lots, e.wallet, e.token.value);
    SelectCovers(b.lots, e.wallet, pool, strategy, e.amount);
    match Select(b.lots, e.wallet, pool, strategy, e.amount) {
      case Insufficient(_) =>
      case Covered(slices) => CutInOrder(b, e.wallet, pool, strategy, e.amount, slices, i, j);
    }
  }

  /** Not elected, a sale or gift takes from a lot only when every older one it may take from is used up. */
  lemma OtherwiseOldestFirst(reg: Registry, b: Books, e: Event, i: nat, j: nat)
    requires DistinctSources(b.lots) && Parts(b, e) && !Elected(reg, e) && Apply(reg, b, e).Posted?
    requires i < |b.lots| && Sellable(reg, b.lots[i], e.wallet, e.token.value)
    requires j < |b.lots| && !InstantLe(b.lots[j].acquiredAt, b.lots[i].acquiredAt)
    ensures var next := Apply(reg, b, e).books.lots;
            |next| == |b.lots| && (next[j].remaining != b.lots[j].remaining ==> next[i].remaining == 0)
  {
    PartsInOrder(reg, b, e, i, j);
  }

  /** Elected, it takes from a lot only when every dearer one is used up, and of equally dear ones every older one. */
  lemma ElectedDearestFirst(reg: Registry, b: Books, e: Event, i: nat, j: nat)
    requires DistinctSources(b.lots) && Parts(b, e) && Elected(reg, e) && Apply(reg, b, e).Posted?
    requires i < |b.lots| && Sellable(reg, b.lots[i], e.wallet, e.token.value) && j < |b.lots|
    requires || UnitBasis(b.lots[i]) > UnitBasis(b.lots[j])
             || (UnitBasis(b.lots[i]) == UnitBasis(b.lots[j])
                 && !InstantLe(b.lots[j].acquiredAt, b.lots[i].acquiredAt))
    ensures var next := Apply(reg, b, e).books.lots;
            |next| == |b.lots| && (next[j].remaining != b.lots[j].remaining ==> next[i].remaining == 0)
  {
    PartsInOrder(reg, b, e, i, j);
  }

  lemma SameLot(lots: seq<Lot>, lot: Lot, j: nat)
    requires DistinctSources(lots) && lot in lots && j < |lots| && lots[j].source == lot.source
    ensures lots[j] == lot
  {
    var i :| 0 <= i < |lots| && lots[i] == lot;
    assert i == j;
  }
}
