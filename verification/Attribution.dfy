/** Whose income a year's rows count as, when lots have moved since. */
module Attribution {
  import opened Calendar
  import opened Sequences
  import opened Lots
  import opened Disposals
  import opened Events
  import opened Books
  import opened Guarantees
  import opened Flows
  import opened Gains
  import opened Forms

  // ---- Disposals: by whoever holds the lot now ----

  /** The rows a step of a run has added. */
  function Added(b: Books, next: Books): seq<DisposalRow> {
    if |b.disposals| <= |next.disposals| then next.disposals[|b.disposals|..] else []
  }

  function HoldersOf(lots: seq<Lot>, rows: seq<DisposalRow>): (r: seq<Option<nat>>)
    ensures |r| == |rows| && forall i :: 0 <= i < |rows| ==> r[i] == EntityOf(lots, rows[i].lot)
  {
    if rows == [] then [] else [EntityOf(lots, rows[0].lot)] + HoldersOf(lots, rows[1..])
  }

  /** Who held the lot of each disposal that a pass adds, when it was disposed of. */
  function Sellers(reg: Registry, b: Books, events: seq<Event>): seq<Option<nat>>
    decreases events
  {
    if events == [] then []
    else match Apply(reg, b, events[0])
      case Raised => []
      case Posted(next) => HoldersOf(b.lots, Added(b, next)) + Sellers(reg, next, events[1..])
  }

  /** What an entity's own disposals net in a year. */
  function SoldNet(rows: seq<DisposalRow>, sellers: seq<Option<nat>>, entity: nat, year: int): int
    requires |sellers| == |rows|
  {
    if rows == [] then 0
    else
      (if sellers[0] == Some(entity) then YearNet(rows[0], year) else 0)
      + SoldNet(rows[1..], sellers[1..], entity, year)
  }

  /** What it nets on rows of the entity's now that another sold, or the other way round. */
  function MovedNet(lots: seq<Lot>, rows: seq<DisposalRow>, sellers: seq<Option<nat>>, entity: nat, year: int,
                    arrived: bool): int
    requires |sellers| == |rows|
  {
    if rows == [] then 0
    else
      var held, sold := EntityOf(lots, rows[0].lot) == Some(entity), sellers[0] == Some(entity);
      (if held != sold && held == arrived then YearNet(rows[0], year) else 0)
      + MovedNet(lots, rows[1..], sellers[1..], entity, year, arrived)
  }

  lemma {:induction false} ReportedSplit(lots: seq<Lot>, rows: seq<DisposalRow>, coverage: Coverage,
                                         sellers: seq<Option<nat>>, entity: nat, year: int)
    requires |sellers| == |rows|
    ensures SumNet(FetchRows(lots, rows, coverage, entity, year)) == SoldNet(rows, sellers, entity, year)
              + MovedNet(lots, rows, sellers, entity, year, true) - MovedNet(lots, rows, sellers, entity, year, false)
  {
    if rows != [] {
      FetchStep(lots, rows, coverage, entity, year);
      ReportedSplit(lots, rows[1..], coverage, sellers[1..], entity, year);
    }
  }

  /** The total of an entity's Schedule D is what its own disposals net exactly when the disposals it has got with
      lots since, and those that have left it with lots since, net the same. */
  lemma ReportedIsSoldIff(lots: seq<Lot>, rows: seq<DisposalRow>, coverage: Coverage, sellers: seq<Option<nat>>,
                          entity: nat, year: int)
    requires |sellers| == |rows|
    ensures BuildScheduleD(BuildForm(FetchRows(lots, rows, coverage, entity, year))).total
              == SoldNet(rows, sellers, entity, year)
            <==> MovedNet(lots, rows, sellers, entity, year, true) == MovedNet(lots, rows, sellers, entity, year, false)
  {
    ScheduleDAddsUp(FetchRows(lots, rows, coverage, entity, year));
    ReportedSplit(lots, rows, coverage, sellers, entity, year);
  }

  /** No event of the pass gives a lot to another entity once it has a disposal in the year. */
  ghost predicate SoldLotsStay(reg: Registry, b: Books, events: seq<Event>, year: int)
    decreases events
  {
    events != [] && Apply(reg, b, events[0]).Posted? ==>
      var next := Apply(reg, b, events[0]).books;
      && (forall row :: row in b.disposals && row.disposedAt.date.year == year ==>
            EntityOf(next.lots, row.lot) == EntityOf(b.lots, row.lot))
      && SoldLotsStay(reg, next, events[1..], year)
  }

  /** The year's disposals are with those who made them. */
  ghost predicate WithSellers(b: Books, sellers: seq<Option<nat>>, year: int) {
    && |sellers| == |b.disposals|
    && forall i :: 0 <= i < |sellers| && b.disposals[i].disposedAt.date.year == year ==>
         EntityOf(b.lots, b.disposals[i].lot) == sellers[i]
  }

  lemma {:induction false} DeductKeepsEntity(lots: seq<Lot>, slices: seq<Slice>, source: nat)
    ensures EntityOf(Deduct(lots, slices), source) == EntityOf(lots, source)
  {
    if lots != [] {
      DeductKeepsEntity(lots[1..], slices, source);
      assert Deduct(lots, slices)[1..] == Deduct(lots[1..], slices);
    }
  }

  /** A disposal books rows, and changes nobody's holdings. */
  lemma DisposalKeepsHolders(reg: Registry, b: Books, e: Event, source: nat)
    ensures var next := ApplyDispose(reg, b, e).books;
            b.disposals <= next.disposals && EntityOf(next.lots, source) == EntityOf(b.lots, source)
  {
    if !HasDisposal(b, e.id) && e.token.Some? {
      var pool, strategy := CanonicalPool(reg, e.token.value), MethodFor(reg, e);
      SelectCovers(b.lots, e.wallet, pool, strategy, e.amount);
      match Select(b.lots, e.wallet, pool, strategy, e.amount) {
        case Insufficient(_) =>
        case Covered(slices) => DeductKeepsEntity(b.lots, slices, source);
      }
    }
  }

  /** Rows appended with the entities that hold their lots, over lots that have not changed hands. */
  lemma AppendedWithSellers(b: Books, next: Books, sellers: seq<Option<nat>>, year: int)
    requires WithSellers(b, sellers, year) && b.disposals <= next.disposals
    requires forall i :: 0 <= i < |next.disposals| && next.disposals[i].disposedAt.date.year == year ==>
               EntityOf(next.lots, next.disposals[i].lot) == EntityOf(b.lots, next.disposals[i].lot)
    ensures WithSellers(next, sellers + HoldersOf(b.lots, Added(b, next)), year)
  {
    var all := sellers + HoldersOf(b.lots, Added(b, next));
    forall i | 0 <= i < |all| && next.disposals[i].disposedAt.date.year == year
      ensures EntityOf(next.lots, next.disposals[i].lot) == all[i]
    {
      if i < |sellers| {
        assert next.disposals[i] == b.disposals[i];
      } else {
        var j := i - |sellers|;
        assert Added(b, next)[j] == next.disposals[i];
        assert all[i] == HoldersOf(b.lots, Added(b, next))[j];
      }
    }
  }

  lemma StepWithSellers(reg: Registry, b: Books, sellers: seq<Option<nat>>, e: Event, year: int)
    requires WithSellers(b, sellers, year) && Apply(reg, b, e).Posted?
    requires forall row :: row in b.disposals && row.disposedAt.date.year == year ==>
               EntityOf(Apply(reg, b, e).books.lots, row.lot) == EntityOf(b.lots, row.lot)
    ensures var next := Apply(reg, b, e).books; WithSellers(next, sellers + HoldersOf(b.lots, Added(b, next)), year)
  {
    var next := Apply(reg, b, e).books;
    if TreatmentOf(e) == Dispose {
      DisposalKeepsHolders(reg, b, e, 0);
      forall source: nat ensures EntityOf(next.lots, source) == EntityOf(b.lots, source) {
        DisposalKeepsHolders(reg, b, e, source);
      }
    } else {
      OnlyDisposalsDispose(reg, b, e);
      assert forall i :: 0 <= i < |b.disposals| ==> b.disposals[i] in b.disposals;
    }
    AppendedWithSellers(b, next, sellers, year);
  }

  lemma {:induction false} RunWithSellers(reg: Registry, b: Books, sellers: seq<Option<nat>>, events: seq<Event>,
                                          year: int)
    requires WithSellers(b, sellers, year) && Run(reg, b, events).Posted? && SoldLotsStay(reg, b, events, year)
    ensures WithSellers(Run(reg, b, events).books, sellers + Sellers(reg, b, events), year)
    decreases events
  {
    if events == [] {
      assert sellers + [] == sellers;
    } else {
      var next := Apply(reg, b, events[0]).books;
      StayNext(reg, b, events, year);
      StepWithSellers(reg, b, sellers, events[0], year);
      RunWithSellers(reg, next, sellers + HoldersOf(b.lots, Added(b, next)), events[1..], year);
      SellersNext(reg, b, sellers, events);
    }
  }

  lemma StayNext(reg: Registry, b: Books, events: seq<Event>, year: int)
    requires events != [] && Run(reg, b, events).Posted? && SoldLotsStay(reg, b, events, year)
    ensures Apply(reg, b, events[0]).Posted?
    ensures var next := Apply(reg, b, events[0]).books;
            && Run(reg, b, events) == Run(reg, next, events[1..]) && SoldLotsStay(reg, next, events[1..], year)
            && forall row :: row in b.disposals && row.disposedAt.date.year == year ==>
                 EntityOf(next.lots, row.lot) == EntityOf(b.lots, row.lot)
  {
  }

  lemma SellersNext(reg: Registry, b: Books, sellers: seq<Option<nat>>, events: seq<Event>)
    requires events != [] && Apply(reg, b, events[0]).Posted?
    ensures var next := Apply(reg, b, events[0]).books;
            sellers + Sellers(reg, b, events)
              == sellers + HoldersOf(b.lots, Added(b, next)) + Sellers(reg, next, events[1..])
  {
  }

  lemma {:induction false} NothingMovedNets(lots: seq<Lot>, rows: seq<DisposalRow>, sellers: seq<Option<nat>>,
                                            entity: nat, year: int, arrived: bool)
    requires |sellers| == |rows|
    requires forall i :: 0 <= i < |rows| && rows[i].disposedAt.date.year == year ==>
               EntityOf(lots, rows[i].lot) == sellers[i]
    ensures MovedNet(lots, rows, sellers, entity, year, arrived) == 0
  {
    if rows != [] {
      forall i | 0 <= i < |rows[1..]| && rows[1..][i].disposedAt.date.year == year
        ensures EntityOf(lots, rows[1..][i].lot) == sellers[1..][i]
      {
        assert rows[1..][i] == rows[i + 1];
      }
      NothingMovedNets(lots, rows[1..], sellers[1..], entity, year, arrived);
    }
  }

  /** As long as lots stay with their entity once they have been sold from, every entity's total is what its own
      disposals net. */
  lemma StayingLotsAgree(reg: Registry, events: seq<Event>, coverage: Coverage, entity: nat, year: int)
    requires Run(reg, EMPTY, events).Posted? && SoldLotsStay(reg, EMPTY, events, year)
    ensures var b, sellers := Run(reg, EMPTY, events).books, Sellers(reg, EMPTY, events);
            && |sellers| == |b.disposals|
            && BuildScheduleD(BuildForm(FetchRows(b.lots, b.disposals, coverage, entity, year))).total
                 == SoldNet(b.disposals, sellers, entity, year)
  {
    var b, sellers := Run(reg, EMPTY, events).books, Sellers(reg, EMPTY, events);
    RunWithSellers(reg, EMPTY, [], events, year);
    assert [] + sellers == sellers;
    NothingMovedNets(b.lots, b.disposals, sellers, entity, year, true);
    NothingMovedNets(b.lots, b.disposals, sellers, entity, year, false);
    ReportedIsSoldIff(b.lots, b.disposals, coverage, sellers, entity, year);
  }

  // ---- Rewards: by whoever holds the lot, as what it was retyped to ----

  /** The entity in question, or anyone at all. */
  predicate Theirs(who: Option<nat>, entity: nat) {
    who.None? || who.value == entity
  }

  function BasisWhere(lots: seq<Lot>, p: Lot -> bool): int {
    if lots == [] then 0 else (if p(lots[0]) then lots[0].basis else 0) + BasisWhere(lots[1..], p)
  }

  function Counted(who: Option<nat>, year: int): Lot -> bool {
    (lot: Lot) => Theirs(who, lot.entity) && lot.acquisition == Reward && lot.acquiredAt.date.year == year
  }

  /** Reward income of a year: the basis of the lots that are rewards. */
  function RewardIncome(lots: seq<Lot>, who: Option<nat>, year: int): int {
    BasisWhere(lots, Counted(who, year))
  }

  /** A reward of the year, in a wallet that was theirs on the day. */
  predicate EarnsFor(reg: Registry, e: Event, who: Option<nat>, year: int) {
    && e.kind == Rewarded && e.occurredAt.date.year == year
    && match EntityFor(reg.assignments, e.wallet, e.occurredAt.date) case None => false case Some(x) => Theirs(who, x)
  }

  /** The lot was opened by a reward of theirs. */
  function Earned(reg: Registry, who: Option<nat>, year: int): Lot -> bool {
    (lot: Lot) => match FindEvent(reg.events, lot.source) case None => false case Some(e) => EarnsFor(reg, e, who, year)
  }

  /** The value of the rewards of theirs that open lots in a pass. */
  function RewardsBooked(reg: Registry, b: Books, events: seq<Event>, who: Option<nat>, year: int): int
    decreases events
  {
    if events == [] then 0
    else match Apply(reg, b, events[0])
      case Raised => 0
      case Posted(next) =>
        var opens := |next.lots| > |b.lots| && EarnsFor(reg, events[0], who, year);
        (if opens && AcquiredValue(reg, events[0]).Some? then AcquiredValue(reg, events[0]).value else 0)
        + RewardsBooked(reg, next, events[1..], who, year)
  }

  lemma {:induction false} BasisWhereAppend(a: seq<Lot>, b: seq<Lot>, p: Lot -> bool)
    ensures BasisWhere(a + b, p) == BasisWhere(a, p) + BasisWhere(b, p)
  {
    if a == [] {
      assert a + b == b;
    } else {
      BasisWhereAppend(a[1..], b, p);
      assert (a + b)[1..] == a[1..] + b;
    }
  }

  /** What was earned hangs on nothing that a later event changes about a lot. */
  lemma {:induction false} EarnedStays(reg: Registry, before: seq<Lot>, after: seq<Lot>, who: Option<nat>, year: int)
    requires |before| == |after|
    requires forall i :: 0 <= i < |before| ==> after[i].source == before[i].source && after[i].basis == before[i].basis
    ensures BasisWhere(after, Earned(reg, who, year)) == BasisWhere(before, Earned(reg, who, year))
  {
    if before != [] {
      forall i | 0 <= i < |before[1..]|
        ensures after[1..][i].source == before[1..][i].source && after[1..][i].basis == before[1..][i].basis
      {
        assert after[1..][i] == after[i + 1] && before[1..][i] == before[i + 1];
      }
      EarnedStays(reg, before[1..], after[1..], who, year);
    }
  }

  ghost predicate AllRegistered(reg: Registry, events: seq<Event>) {
    forall e :: e in events ==> FindEvent(reg.events, e.id) == Some(e)
  }

  lemma {:induction false} RunEarns(reg: Registry, b: Books, events: seq<Event>, who: Option<nat>, year: int)
    requires Run(reg, b, events).Posted? && AllRegistered(reg, events)
    ensures BasisWhere(Run(reg, b, events).books.lots, Earned(reg, who, year))
         == BasisWhere(b.lots, Earned(reg, who, year)) + RewardsBooked(reg, b, events, who, year)
    decreases events
  {
    if events != [] {
      var e, next := events[0], Apply(reg, b, events[0]).books;
      assert e in events;
      StepEarns(reg, b, e, who, year);
      RunEarns(reg, next, events[1..], who, year);
    }
  }

  lemma StepEarns(reg: Registry, b: Books, e: Event, who: Option<nat>, year: int)
    requires Apply(reg, b, e).Posted? && FindEvent(reg.events, e.id) == Some(e)
    ensures var next := Apply(reg, b, e).books;
            BasisWhere(next.lots, Earned(reg, who, year)) == BasisWhere(b.lots, Earned(reg, who, year))
              + if |next.lots| > |b.lots| && EarnsFor(reg, e, who, year) && AcquiredValue(reg, e).Some?
                then AcquiredValue(reg, e).value else 0
  {
    var next := Apply(reg, b, e).books;
    ApplyDescends(reg, b, e);
    ApplyOpens(reg, b, e);
    var kept := next.lots[..|b.lots|];
    EarnedStays(reg, b.lots, kept, who, year);
    if |next.lots| > |b.lots| {
      var lot := next.lots[|b.lots|];
      assert next.lots == kept + [lot] && [lot][1..] == [];
      BasisWhereAppend(kept, [lot], Earned(reg, who, year));
    } else {
      assert next.lots == kept;
    }
  }

  // ---- What a lot can turn into ----

  /** A lot is of the type its event opened it as, or a contribution or a gift. */
  predicate Typed(reg: Registry, lot: Lot) {
    match FindEvent(reg.events, lot.source)
    case None => false
    case Some(e) =>
      && lot.acquiredAt == e.occurredAt && EntityFor(reg.assignments, e.wallet, e.occurredAt.date).Some?
      && (lot.acquisition == AcquisitionOf(e) || lot.acquisition in {CapContribution, Gift})
  }

  ghost predicate AllTyped(reg: Registry, lots: seq<Lot>) {
    forall i :: 0 <= i < |lots| ==> Typed(reg, lots[i])
  }

  lemma DisposalKeepsTypes(reg: Registry, b: Books, e: Event)
    requires AllTyped(reg, b.lots)
    ensures AllTyped(reg, ApplyDispose(reg, b, e).books.lots)
  {
    if e.token.Some? {
      SelectCovers(b.lots, e.wallet, CanonicalPool(reg, e.token.value), MethodFor(reg, e), e.amount);
    }
  }

  lemma MoveKeepsTypes(reg: Registry, lots: seq<Lot>, slices: seq<Slice>, to: nat, entity: Option<nat>,
                       acquisition: Option<AcquisitionType>)
    requires AllTyped(reg, lots) && (acquisition.Some? ==> acquisition.value in {CapContribution, Gift})
    ensures AllTyped(reg, Move(lots, slices, to, entity, acquisition))
  {
    var moved := Move(lots, slices, to, entity, acquisition);
    forall i | 0 <= i < |moved| ensures Typed(reg, moved[i]) {
      assert Typed(reg, lots[i]) && moved[i] == Moved(lots[i], slices, to, entity, acquisition);
    }
  }

  lemma RelocatedLots(reg: Registry, b: Books, e: Event) returns (slices: seq<Slice>)
    requires ApplyRelocation(reg, b, e).Posted?
    ensures var to := EntityFor(reg.assignments, e.wallet, e.occurredAt.date);
            || ApplyRelocation(reg, b, e).books.lots == b.lots
            || ApplyRelocation(reg, b, e).books.lots == Move(b.lots, slices, e.wallet, to, RetypedAs(e))
  {
    slices := [];
    if SourceEvent(reg, e).Some? && e.token.Some? {
      match Select(b.lots, SourceEvent(reg, e).value.wallet, CanonicalPool(reg, e.token.value), Fifo, e.amount) {
        case Insufficient(_) =>
        case Covered(found) => slices := found;
      }
    }
  }

  lemma RelocationKeepsTypes(reg: Registry, b: Books, e: Event)
    requires AllTyped(reg, b.lots) && ApplyRelocation(reg, b, e).Posted?
    ensures AllTyped(reg, ApplyRelocation(reg, b, e).books.lots)
  {
    var slices := RelocatedLots(reg, b, e);
    MoveKeepsTypes(reg, b.lots, slices, e.wallet, EntityFor(reg.assignments, e.wallet, e.occurredAt.date),
                   RetypedAs(e));
  }

  lemma ApplyTyped(reg: Registry, b: Books, e: Event)
    requires AllTyped(reg, b.lots) && Apply(reg, b, e).Posted? && FindEvent(reg.events, e.id) == Some(e)
    ensures AllTyped(reg, Apply(reg, b, e).books.lots)
  {
    match TreatmentOf(e) {
      case Dispose => DisposalKeepsTypes(reg, b, e);
      case Relocate => RelocationKeepsTypes(reg, b, e);
      case _ =>
    }
  }

  lemma {:induction false} RunTyped(reg: Registry, b: Books, events: seq<Event>)
    requires AllTyped(reg, b.lots) && Run(reg, b, events).Posted? && AllRegistered(reg, events)
    ensures AllTyped(reg, Run(reg, b, events).books.lots)
    decreases events
  {
    if events != [] {
      assert events[0] in events;
      ApplyTyped(reg, b, events[0]);
      RunTyped(reg, Apply(reg, b, events[0]).books, events[1..]);
    }
  }

  // ---- When income is what was earned ----

  /** Earned by them, and no reward of theirs any more: retyped, or another's. */
  function Gone(reg: Registry, who: Option<nat>, year: int): Lot -> bool {
    (lot: Lot) => Earned(reg, who, year)(lot) && (lot.acquisition != Reward || !Theirs(who, lot.entity))
  }

  /** A reward of theirs now that another earned. */
  function Come(reg: Registry, who: Option<nat>, year: int): Lot -> bool {
    (lot: Lot) => Earned(reg, None, year)(lot) && !Earned(reg, who, year)(lot)
                  && lot.acquisition == Reward && Theirs(who, lot.entity)
  }

  /** What counts as a reward was one when it was earned, by someone. */
  lemma CountedWasEarned(reg: Registry, lot: Lot, who: Option<nat>, year: int)
    requires Typed(reg, lot)
    ensures Counted(who, year)(lot)
       <==> Earned(reg, None, year)(lot) && lot.acquisition == Reward && Theirs(who, lot.entity)
    ensures Earned(reg, who, year)(lot) ==> Earned(reg, None, year)(lot)
  {
  }

  lemma {:induction false} IncomeSplit(reg: Registry, lots: seq<Lot>, who: Option<nat>, year: int)
    requires AllTyped(reg, lots)
    ensures RewardIncome(lots, who, year) == BasisWhere(lots, Earned(reg, who, year))
              + BasisWhere(lots, Come(reg, who, year)) - BasisWhere(lots, Gone(reg, who, year))
  {
    if lots != [] {
      assert Typed(reg, lots[0]);
      CountedWasEarned(reg, lots[0], who, year);
      forall i | 0 <= i < |lots[1..]| ensures Typed(reg, lots[1..][i]) {
        assert lots[1..][i] == lots[i + 1];
      }
      IncomeSplit(reg, lots[1..], who, year);
    }
  }

  /** The year's reward income of an entity is the value of its rewards exactly when the rewards that have left it
      since, retyped or with another entity, and those that have come to it are worth the same. */
  lemma IncomeIsEarnedIff(reg: Registry, events: seq<Event>, who: Option<nat>, year: int)
    requires Run(reg, EMPTY, events).Posted? && AllRegistered(reg, events)
    ensures var lots := Run(reg, EMPTY, events).books.lots;
            RewardIncome(lots, who, year) == RewardsBooked(reg, EMPTY, events, who, year)
            <==> BasisWhere(lots, Gone(reg, who, year)) == BasisWhere(lots, Come(reg, who, year))
  {
    RunEarns(reg, EMPTY, events, who, year);
    RunTyped(reg, EMPTY, events);
    IncomeSplit(reg, Run(reg, EMPTY, events).books.lots, who, year);
  }

  lemma {:induction false} NoBasis(lots: seq<Lot>, p: Lot -> bool)
    requires forall lot :: lot in lots ==> !p(lot)
    ensures BasisWhere(lots, p) == 0
  {
    if lots != [] {
      assert lots[0] in lots;
      NoBasis(lots[1..], p);
    }
  }

  lemma {:induction false} BasisVanishes(lots: seq<Lot>, p: Lot -> bool)
    requires forall lot :: lot in lots && p(lot) ==> lot.basis >= 0
    ensures BasisWhere(lots, p) >= 0
    ensures BasisWhere(lots, p) == 0 <==> forall lot :: lot in lots && p(lot) ==> lot.basis == 0
  {
    if lots != [] {
      assert lots[0] in lots;
      BasisVanishes(lots[1..], p);
      assert forall lot :: lot in lots <==> lot == lots[0] || lot in lots[1..];
    }
  }

  /** Over everyone, with no reward of negative value: a year's income is the value of its rewards exactly when no
      reward that was worth anything has been moved as a contribution or a gift. */
  lemma EveryonesIncomeIff(reg: Registry, events: seq<Event>, year: int)
    requires Run(reg, EMPTY, events).Posted? && AllRegistered(reg, events)
    requires forall lot :: lot in Run(reg, EMPTY, events).books.lots && Earned(reg, None, year)(lot) ==> lot.basis >= 0
    ensures var lots := Run(reg, EMPTY, events).books.lots;
            RewardIncome(lots, None, year) == RewardsBooked(reg, EMPTY, events, None, year)
            <==> forall lot :: lot in lots && Earned(reg, None, year)(lot) && lot.acquisition in {CapContribution, Gift}
                   ==> lot.basis == 0
  {
    var lots := Run(reg, EMPTY, events).books.lots;
    RunTyped(reg, EMPTY, events);
    IncomeIsEarnedIff(reg, events, None, year);
    NoBasis(lots, Come(reg, None, year));
    BasisVanishes(lots, Gone(reg, None, year));
    forall lot | lot in lots && Earned(reg, None, year)(lot)
      ensures Gone(reg, None, year)(lot) <==> lot.acquisition in {CapContribution, Gift}
    {
      var i :| 0 <= i < |lots| && lots[i] == lot;
      assert Typed(reg, lots[i]);
    }
  }

  // ---- A reward, partly sold, and the rest given to another entity ----

  const EARNED_ON := Instant(Date(2025, 6, 1), 0)
  const GIVEN_ON := Instant(Date(2026, 6, 1), 0)
  const EARNING := Event(1, 1, 1, EARNED_ON, 1, 0, Rewarded, "", Some(7), 10, Some(40), None, None)
  const SALE := Event(2, 1, 2, EARNED_ON, 2, 0, TransferOut, "", Some(7), 4, Some(30), None, None)
  const SENT := Event(3, 1, 3, GIVEN_ON, 3, 0, TransferOut, "", Some(7), 6, None, Some(RelocateGift), None)
  const GIVEN := Event(4, 2, 3, GIVEN_ON, 3, 1, TransferIn, "", Some(7), 6, None, Some(RelocateGift), Some(3))
  const STORY := [EARNING, SALE, SENT, GIVEN]
  const OWNED := [Assignment(1, 9, Date(2025, 1, 1), None), Assignment(2, 8, Date(2025, 1, 1), None)]
  const TABLES := Registry(map[], {}, map[], OWNED, {}, STORY)

  const WHOLE := Lot(1, 1, 7, None, 9, EARNED_ON, Reward, Fungible, 10, 10, 40)
  const SOLD_FROM := WHOLE.(remaining := 6)
  const GIVEN_LOT := SOLD_FROM.(wallet := 2, entity := 8, acquisition := Gift)
  const SOLD_ROW := DisposalRow(1, 2, 4, 30, 16, 14, Short, Fungible, Fifo, EARNED_ON, None)
  const MOVED_ROW := RelocationRow(1, 1, 2, Gifted, 4, GIVEN_ON)
  const HELD := EMPTY.(lots := [WHOLE])
  const PARTED := EMPTY.(lots := [SOLD_FROM], disposals := [SOLD_ROW])
  const FINAL := EMPTY.(lots := [GIVEN_LOT], disposals := [SOLD_ROW], relocations := [MOVED_ROW], flagged := {4})

  lemma OneLot(lot: Lot, quantity: int)
    requires lot.wallet == 1 && PoolOf(lot) == Token(7) && 0 < quantity <= lot.remaining <= lot.quantity
    ensures Select([lot], 1, Token(7), Fifo, quantity) == Covered([Slice(lot, quantity, SliceBasis(lot, quantity))])
  {
    assert [lot][1..] == [];
    assert OpenLots([lot], 1, Token(7)) == [lot];
    assert OrderLots(Fifo, [lot]) == [lot];
    assert Consume([], 0) == Covered([]);
  }

  lemma RewardOpens()
    ensures Apply(TABLES, EMPTY, EARNING) == Posted(HELD)
  {
    assert EntityFor(OWNED, 1, EARNED_ON.date) == Some(9);
    assert NewLot(TABLES, EARNING, 40, 9, 7) == WHOLE;
    assert [] + [WHOLE] == [WHOLE];
  }

  lemma SaleParts()
    ensures Apply(TABLES, HELD, SALE) == Posted(PARTED)
  {
    var slice := Slice(WHOLE, 4, 16);
    OneLot(WHOLE, 4);
    assert [slice][1..] == [] && [WHOLE][1..] == [];
    assert Taken([slice]) == 4 && TakeOf([slice], 1) == 4 by { assert TakeOf([], 1) == 0; }
    assert Deduct([WHOLE], [slice]) == [SOLD_FROM];
    var lines := BuildLines([slice], 30, EARNED_ON, Fifo);
    assert lines == [MakeLine(slice, 30, EARNED_ON, Fifo)] && lines[1..] == [];
    assert DisposalRows(SALE, lines) == [SOLD_ROW];
    assert MethodFor(TABLES, SALE) == Fifo && !HasDisposal(HELD, 2);
    assert PostDisposal(HELD, SALE, [slice], Fifo) == PARTED;
  }

  lemma GiftSource()
    ensures SourceEvent(TABLES, GIVEN) == Some(SENT) && EntityFor(OWNED, 2, GIVEN_ON.date) == Some(8)
  {
    assert STORY[1..] == [SALE, SENT, GIVEN] && STORY[1..][1..] == [SENT, GIVEN];
    assert FindEvent([SENT, GIVEN], 3) == Some(SENT) && FindEvent([SALE, SENT, GIVEN], 3) == Some(SENT);
    assert OWNED[1..] == [Assignment(2, 8, Date(2025, 1, 1), None)];
  }

  lemma GiftMoves()
    ensures Apply(TABLES, PARTED, GIVEN) == Posted(FINAL)
  {
    var slice := Slice(SOLD_FROM, 6, SliceBasis(SOLD_FROM, 6));
    OneLot(SOLD_FROM, 6);
    GiftSource();
    assert [slice][1..] == [] && [SOLD_FROM][1..] == [];
    assert Touches([slice], 1) by { assert [slice][0].lot.source == 1; }
    assert Move([SOLD_FROM], [slice], 2, Some(8), Some(Gift)) == [GIVEN_LOT];
    assert RelocationRows(GIVEN, [slice], 1, 2, Gifted) == [MOVED_ROW];
    var moved := FINAL.(flagged := {});
    assert PostMove(TABLES, PARTED, GIVEN, 1, [slice]) == moved;
    assert TreatmentOf(GIVEN) == Relocate && !HasRelocation(PARTED, 4);
    assert ApplyRelocation(TABLES, PARTED, GIVEN) == Posted(FlagGift(moved, GIVEN));
  }

  /** The first event of a pass, with the sellers it adds. */
  lemma First(b: Books, e: Event, next: Books, rest: seq<Event>)
    requires Apply(TABLES, b, e) == Posted(next)
    ensures Run(TABLES, b, [e] + rest) == Run(TABLES, next, rest)
    ensures Sellers(TABLES, b, [e] + rest) == HoldersOf(b.lots, Added(b, next)) + Sellers(TABLES, next, rest)
  {
    assert ([e] + rest)[1..] == rest;
  }

  lemma StoryFromGift()
    ensures Run(TABLES, PARTED, [GIVEN]) == Posted(FINAL) && Sellers(TABLES, PARTED, [GIVEN]) == []
  {
    GiftMoves();
    First(PARTED, GIVEN, FINAL, []);
    assert [GIVEN] + [] == [GIVEN];
    assert Run(TABLES, FINAL, []) == Posted(FINAL) && Sellers(TABLES, FINAL, []) == [];
    assert Added(PARTED, FINAL) == [];
  }

  lemma SentIsNothing()
    ensures Apply(TABLES, PARTED, SENT) == Posted(PARTED) && Added(PARTED, PARTED) == []
  {
    assert TreatmentOf(SENT) == Nothing;
  }

  lemma StoryFromSent()
    ensures Run(TABLES, PARTED, [SENT, GIVEN]) == Posted(FINAL) && Sellers(TABLES, PARTED, [SENT, GIVEN]) == []
  {
    StoryFromGift();
    SentIsNothing();
    First(PARTED, SENT, PARTED, [GIVEN]);
    assert [SENT] + [GIVEN] == [SENT, GIVEN];
    assert HoldersOf(PARTED.lots, []) + [] == [];
  }

  lemma StoryFromSale()
    ensures Run(TABLES, HELD, [SALE, SENT, GIVEN]) == Posted(FINAL)
    ensures Sellers(TABLES, HELD, [SALE, SENT, GIVEN]) == [Some(9)]
  {
    SaleParts();
    StoryFromSent();
    First(HELD, SALE, PARTED, [SENT, GIVEN]);
    assert [SALE] + [SENT, GIVEN] == [SALE, SENT, GIVEN];
    assert Added(HELD, PARTED) == [SOLD_ROW];
    assert HoldersOf(HELD.lots, [SOLD_ROW]) == [Some(9)];
  }

  lemma StoryEnds()
    ensures Run(TABLES, EMPTY, STORY) == Posted(FINAL) && Sellers(TABLES, EMPTY, STORY) == [Some(9)]
  {
    RewardOpens();
    StoryFromSale();
    First(EMPTY, EARNING, HELD, [SALE, SENT, GIVEN]);
    assert [EARNING] + [SALE, SENT, GIVEN] == STORY && Added(EMPTY, HELD) == [];
  }

  /** Once the lot has been given away the sale of the year before counts for the new holder, and the reward of the
      year before for no one. */
  lemma GivingRewritesTheYear(coverage: Coverage)
    ensures Run(TABLES, EMPTY, STORY) == Posted(FINAL) && Sellers(TABLES, EMPTY, STORY) == [Some(9)]
    ensures FetchRows(FINAL.lots, FINAL.disposals, coverage, 9, 2025) == []
    ensures SumNet(FetchRows(FINAL.lots, FINAL.disposals, coverage, 8, 2025)) == 14
    ensures RewardIncome(HELD.lots, Some(9), 2025) == 40 && RewardIncome(FINAL.lots, None, 2025) == 0
  {
    StoryEnds();
    assert FINAL.lots[1..] == [] && HELD.lots[1..] == [] && FINAL.disposals[1..] == [];
    var row := AsFormRow(coverage, SOLD_ROW);
    assert FetchRows(FINAL.lots, [], coverage, 8, 2025) == [] == FetchRows(FINAL.lots, [], coverage, 9, 2025);
    assert FetchRows(FINAL.lots, FINAL.disposals, coverage, 8, 2025) == [row] && [row][1..] == [];
    assert BasisWhere([], Counted(Some(9), 2025)) == 0 && BasisWhere([], Counted(None, 2025)) == 0;
  }
}
