/** The part of the books that belongs to a set of pools, and why events of other pools cannot touch it. */
module Scopes {
  import opened Sequences
  import opened Lots
  import opened Events
  import opened Books

  /** Where an event acts: its wallet and the canonical pool of its token. */
  datatype Key = Key(wallet: nat, pool: Option<Pool>)

  /** A set of pools. */
  type Scope = iset<Key>

  function KeyOf(reg: Registry, e: Event): Key {
    Key(e.wallet, match e.token case None => None case Some(t) => Some(CanonicalPool(reg, t)))
  }

  function LotKey(lot: Lot): Key {
    Key(lot.wallet, Some(PoolOf(lot)))
  }

  ghost predicate Inside(reg: Registry, scope: Scope, id: nat) {
    match FindEvent(reg.events, id)
    case None => false
    case Some(e) => KeyOf(reg, e) in scope
  }

  ghost function LotsInside(reg: Registry, scope: Scope): Lot -> bool {
    (lot: Lot) => Inside(reg, scope, lot.source)
  }

  ghost function DisposalsInside(reg: Registry, scope: Scope): DisposalRow -> bool {
    (row: DisposalRow) => Inside(reg, scope, row.tx)
  }

  ghost function RelocationsInside(reg: Registry, scope: Scope): RelocationRow -> bool {
    (row: RelocationRow) => Inside(reg, scope, row.tx)
  }

  ghost function GiftsInside(reg: Registry, scope: Scope): GiftRow -> bool {
    (row: GiftRow) => Inside(reg, scope, row.tx)
  }

  ghost function FailuresInside(reg: Registry, scope: Scope): Failure -> bool {
    (f: Failure) => Inside(reg, scope, f.tx)
  }

  ghost function EventsInside(reg: Registry, scope: Scope): Event -> bool {
    (e: Event) => KeyOf(reg, e) in scope
  }

  /** The books as far as a scope is concerned. */
  ghost function Project(reg: Registry, scope: Scope, b: Books): Books {
    Books(Filter(b.lots, LotsInside(reg, scope)),
          Filter(b.disposals, DisposalsInside(reg, scope)),
          Filter(b.relocations, RelocationsInside(reg, scope)),
          Filter(b.gifts, GiftsInside(reg, scope)),
          Filter(b.failures, FailuresInside(reg, scope)),
          set id | id in b.flagged && Inside(reg, scope, id))
  }

  /** The event is the one the registry has under its id. */
  predicate Registered(reg: Registry, e: Event) {
    FindEvent(reg.events, e.id) == Some(e)
  }

  /** A relocation does not cross the border of the scope. */
  ghost predicate Confined(reg: Registry, scope: Scope, e: Event) {
    TreatmentOf(e) == Relocate && SourceEvent(reg, e).Some? && e.token.Some? ==>
      (KeyOf(reg, e) in scope <==> KeyOf(reg, e).(wallet := SourceEvent(reg, e).value.wallet) in scope)
  }

  /** Lots inside the scope are those its own events opened. */
  ghost predicate Home(reg: Registry, scope: Scope, lots: seq<Lot>) {
    forall lot :: lot in lots ==> (LotKey(lot) in scope <==> Inside(reg, scope, lot.source))
  }

  // ---- Updates and projection ----

  lemma {:induction false} FilterDeduct(lots: seq<Lot>, slices: seq<Slice>, p: Lot -> bool)
    requires forall lot :: p(Reduced(lot, slices)) == p(lot)
    ensures Filter(Deduct(lots, slices), p) == Deduct(Filter(lots, p), slices)
  {
    if lots != [] {
      FilterDeduct(lots[1..], slices, p);
      assert Deduct(lots, slices)[1..] == Deduct(lots[1..], slices);
    }
  }

  lemma {:induction false} DeductElsewhere(lots: seq<Lot>, slices: seq<Slice>)
    requires forall lot :: lot in lots ==> !Touches(slices, lot.source)
    ensures Deduct(lots, slices) == lots
  {
    if lots != [] {
      assert lots[0] in lots;
      TakeOfUntouched(slices, lots[0].source);
      DeductElsewhere(lots[1..], slices);
    }
  }

  lemma {:induction false} FilterMove(lots: seq<Lot>, slices: seq<Slice>, to: nat, entity: Option<nat>,
                                      acquisition: Option<AcquisitionType>, p: Lot -> bool)
    requires forall lot :: p(Moved(lot, slices, to, entity, acquisition)) == p(lot)
    ensures Filter(Move(lots, slices, to, entity, acquisition), p)
            == Move(Filter(lots, p), slices, to, entity, acquisition)
  {
    if lots != [] {
      FilterMove(lots[1..], slices, to, entity, acquisition, p);
      assert Move(lots, slices, to, entity, acquisition)[1..] == Move(lots[1..], slices, to, entity, acquisition);
    }
  }

  lemma {:induction false} MoveElsewhere(lots: seq<Lot>, slices: seq<Slice>, to: nat, entity: Option<nat>,
                                         acquisition: Option<AcquisitionType>)
    requires forall lot :: lot in lots ==> !Touches(slices, lot.source)
    ensures Move(lots, slices, to, entity, acquisition) == lots
  {
    if lots != [] {
      assert lots[0] in lots;
      MoveElsewhere(lots[1..], slices, to, entity, acquisition);
    }
  }

  // ---- Selections see one pool only ----

  lemma PoolProjected(reg: Registry, scope: Scope, lots: seq<Lot>, wallet: nat, pool: Pool)
    requires Home(reg, scope, lots) && Key(wallet, Some(pool)) in scope
    ensures OpenLots(Filter(lots, LotsInside(reg, scope)), wallet, pool) == OpenLots(lots, wallet, pool)
  {
    forall lot | lot in lots && InPool(wallet, pool)(lot) ensures LotsInside(reg, scope)(lot) {
      assert LotKey(lot) == Key(wallet, Some(pool));
    }
    FilterAgain(lots, LotsInside(reg, scope), InPool(wallet, pool));
  }

  /** Every slice comes from a lot of the pool. */
  ghost predicate FromPool(lots: seq<Lot>, wallet: nat, pool: Pool, slices: seq<Slice>) {
    forall i :: 0 <= i < |slices| ==> slices[i].lot in lots && LotKey(slices[i].lot) == Key(wallet, Some(pool))
  }

  lemma SelectionFromPool(lots: seq<Lot>, wallet: nat, pool: Pool, strategy: LotMethod, quantity: int)
    ensures var a := Select(lots, wallet, pool, strategy, quantity);
            a.Covered? ==> FromPool(lots, wallet, pool, a.slices)
  {
    var found := Filter(lots, InPool(wallet, pool));
    var open := OpenLots(lots, wallet, pool);
    SortMembers(found, OrderKey(Fifo));
    SortMembers(open, OrderKey(strategy));
    var ordered := OrderLots(strategy, open);
    if Consume(ordered, quantity).Covered? {
      var slices := Consume(ordered, quantity).slices;
      ConsumePrefix(ordered, quantity);
      forall i | 0 <= i < |slices| ensures slices[i].lot in lots && LotKey(slices[i].lot) == Key(wallet, Some(pool)) {
        assert ordered[i] in open && ordered[i] in found;
      }
    }
  }

  /** A touched lot is inside the scope exactly when the pool is. */
  lemma TouchedSide(reg: Registry, scope: Scope, lots: seq<Lot>, wallet: nat, pool: Pool, slices: seq<Slice>,
                    source: nat)
    requires Home(reg, scope, lots) && FromPool(lots, wallet, pool, slices) && Touches(slices, source)
    ensures Inside(reg, scope, source) <==> Key(wallet, Some(pool)) in scope
  {
  }

  lemma OutsideUntouched(reg: Registry, scope: Scope, lots: seq<Lot>, wallet: nat, pool: Pool, slices: seq<Slice>)
    requires Home(reg, scope, lots) && FromPool(lots, wallet, pool, slices) && Key(wallet, Some(pool)) !in scope
    ensures forall lot :: lot in Filter(lots, LotsInside(reg, scope)) ==> !Touches(slices, lot.source)
  {
    forall lot | lot in Filter(lots, LotsInside(reg, scope)) ensures !Touches(slices, lot.source) {
      if Touches(slices, lot.source) {
        TouchedSide(reg, scope, lots, wallet, pool, slices, lot.source);
      }
    }
  }

  // ---- Events inside the scope act alike on the books and on their projection ----

  lemma HasRowsInside(reg: Registry, scope: Scope, b: Books, id: nat)
    requires Inside(reg, scope, id)
    ensures HasLot(Project(reg, scope, b), id) == HasLot(b, id)
    ensures HasDisposal(Project(reg, scope, b), id) == HasDisposal(b, id)
    ensures HasRelocation(Project(reg, scope, b), id) == HasRelocation(b, id)
  {
    var p := Project(reg, scope, b);
    if HasLot(b, id) {
      var i :| 0 <= i < |b.lots| && b.lots[i].source == id;
      assert b.lots[i] in p.lots;
    }
    if HasDisposal(b, id) {
      var i :| 0 <= i < |b.disposals| && b.disposals[i].tx == id;
      assert b.disposals[i] in p.disposals;
    }
    if HasRelocation(b, id) {
      var i :| 0 <= i < |b.relocations| && b.relocations[i].tx == id;
      assert b.relocations[i] in p.relocations;
    }
    assert forall i :: 0 <= i < |p.lots| ==> p.lots[i] in b.lots;
    assert forall i :: 0 <= i < |p.disposals| ==> p.disposals[i] in b.disposals;
    assert forall i :: 0 <= i < |p.relocations| ==> p.relocations[i] in b.relocations;
  }

  lemma FailProjected(reg: Registry, scope: Scope, b: Books, e: Event, reason: Reason, unmatched: Option<int>)
    ensures Project(reg, scope, Fail(b, e, reason, unmatched))
         == if Inside(reg, scope, e.id)
           then Fail(Project(reg, scope, b), e, reason, unmatched) else Project(reg, scope, b)
  {
    FilterAppend(b.failures, [Failure(e.id, reason, unmatched)], FailuresInside(reg, scope));
  }

  lemma FlagProjected(reg: Registry, scope: Scope, b: Books, id: nat)
    ensures Project(reg, scope, b.(flagged := b.flagged + {id}))
         == if Inside(reg, scope, id) then Project(reg, scope, b).(flagged := Project(reg, scope, b).flagged + {id})
            else Project(reg, scope, b)
  {
    var p, n := Project(reg, scope, b), Project(reg, scope, b.(flagged := b.flagged + {id}));
    if Inside(reg, scope, id) {
      assert n.flagged == p.flagged + {id};
    } else {
      assert n.flagged == p.flagged;
    }
  }

  lemma DisposalRowsProjected(reg: Registry, scope: Scope, before: seq<DisposalRow>, rows: seq<DisposalRow>, id: nat)
    requires forall i :: 0 <= i < |rows| ==> rows[i].tx == id
    ensures Filter(before + rows, DisposalsInside(reg, scope))
         == Filter(before, DisposalsInside(reg, scope)) + if Inside(reg, scope, id) then rows else []
  {
    FilterAppend(before, rows, DisposalsInside(reg, scope));
    if Inside(reg, scope, id) {
      FilterAll(rows, DisposalsInside(reg, scope));
    } else {
      FilterNone(rows, DisposalsInside(reg, scope));
    }
  }

  lemma RelocationRowsProjected(reg: Registry, scope: Scope, before: seq<RelocationRow>, rows: seq<RelocationRow>,
                                id: nat)
    requires forall i :: 0 <= i < |rows| ==> rows[i].tx == id
    ensures Filter(before + rows, RelocationsInside(reg, scope))
         == Filter(before, RelocationsInside(reg, scope)) + if Inside(reg, scope, id) then rows else []
  {
    FilterAppend(before, rows, RelocationsInside(reg, scope));
    if Inside(reg, scope, id) {
      FilterAll(rows, RelocationsInside(reg, scope));
    } else {
      FilterNone(rows, RelocationsInside(reg, scope));
    }
  }

  lemma GiftRowsProjected(reg: Registry, scope: Scope, before: seq<GiftRow>, rows: seq<GiftRow>, id: nat)
    requires forall i :: 0 <= i < |rows| ==> rows[i].tx == id
    ensures Filter(before + rows, GiftsInside(reg, scope))
         == Filter(before, GiftsInside(reg, scope)) + if Inside(reg, scope, id) then rows else []
  {
    FilterAppend(before, rows, GiftsInside(reg, scope));
    if Inside(reg, scope, id) {
      FilterAll(rows, GiftsInside(reg, scope));
    } else {
      FilterNone(rows, GiftsInside(reg, scope));
    }
  }

  /** Deducting a selection from the whole table, seen through the scope. */
  lemma DeductProjected(reg: Registry, scope: Scope, lots: seq<Lot>, wallet: nat, pool: Pool, slices: seq<Slice>)
    requires Home(reg, scope, lots) && FromPool(lots, wallet, pool, slices)
    ensures Filter(Deduct(lots, slices), LotsInside(reg, scope))
         == if Key(wallet, Some(pool)) in scope then Deduct(Filter(lots, LotsInside(reg, scope)), slices)
            else Filter(lots, LotsInside(reg, scope))
  {
    FilterDeduct(lots, slices, LotsInside(reg, scope));
    if Key(wallet, Some(pool)) !in scope {
      OutsideUntouched(reg, scope, lots, wallet, pool, slices);
      DeductElsewhere(Filter(lots, LotsInside(reg, scope)), slices);
    }
  }

  lemma DeductHome(reg: Registry, scope: Scope, lots: seq<Lot>, slices: seq<Slice>)
    requires Home(reg, scope, lots)
    ensures Home(reg, scope, Deduct(lots, slices))
  {
    var next := Deduct(lots, slices);
    forall lot | lot in next ensures LotKey(lot) in scope <==> Inside(reg, scope, lot.source) {
      var i :| 0 <= i < |next| && next[i] == lot;
      assert lots[i] in lots && LotKey(lot) == LotKey(lots[i]);
    }
  }

  lemma MoveProjected(reg: Registry, scope: Scope, lots: seq<Lot>, wallet: nat, pool: Pool, slices: seq<Slice>,
                      to: nat, entity: Option<nat>, acquisition: Option<AcquisitionType>)
    requires Home(reg, scope, lots) && FromPool(lots, wallet, pool, slices)
    ensures Filter(Move(lots, slices, to, entity, acquisition), LotsInside(reg, scope))
         == if Key(wallet, Some(pool)) in scope
           then Move(Filter(lots, LotsInside(reg, scope)), slices, to, entity, acquisition)
            else Filter(lots, LotsInside(reg, scope))
  {
    FilterMove(lots, slices, to, entity, acquisition, LotsInside(reg, scope));
    if Key(wallet, Some(pool)) !in scope {
      OutsideUntouched(reg, scope, lots, wallet, pool, slices);
      MoveElsewhere(Filter(lots, LotsInside(reg, scope)), slices, to, entity, acquisition);
    }
  }

  lemma TouchedLotKey(lots: seq<Lot>, wallet: nat, pool: Pool, slices: seq<Slice>, i: nat)
    requires DistinctSources(lots) && FromPool(lots, wallet, pool, slices)
    requires i < |lots| && Touches(slices, lots[i].source)
    ensures LotKey(lots[i]) == Key(wallet, Some(pool))
  {
    var j :| 0 <= j < |slices| && slices[j].lot.source == lots[i].source;
    var k :| 0 <= k < |lots| && lots[k] == slices[j].lot;
    assert k == i;
  }

  lemma MovedKey(lot: Lot, slices: seq<Slice>, to: nat, entity: Option<nat>, acquisition: Option<AcquisitionType>)
    requires Touches(slices, lot.source)
    ensures LotKey(Moved(lot, slices, to, entity, acquisition)) == LotKey(lot).(wallet := to)
  {
  }

  /** A move that does not cross the border leaves every lot on its side. */
  lemma MoveHome(reg: Registry, scope: Scope, lots: seq<Lot>, wallet: nat, pool: Pool, slices: seq<Slice>,
                 to: nat, entity: Option<nat>, acquisition: Option<AcquisitionType>)
    requires DistinctSources(lots) && Home(reg, scope, lots) && FromPool(lots, wallet, pool, slices)
    requires Key(wallet, Some(pool)) in scope <==> Key(to, Some(pool)) in scope
    ensures Home(reg, scope, Move(lots, slices, to, entity, acquisition))
  {
    var next := Move(lots, slices, to, entity, acquisition);
    forall lot | lot in next ensures LotKey(lot) in scope <==> Inside(reg, scope, lot.source) {
      var i :| 0 <= i < |next| && next[i] == lot;
      assert lots[i] in lots && lot.source == lots[i].source;
      if Touches(slices, lots[i].source) {
        TouchedLotKey(lots, wallet, pool, slices, i);
        MovedKey(lots[i], slices, to, entity, acquisition);
      }
    }
  }
}
