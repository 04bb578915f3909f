/** Replaying events: a pass seen through a scope is the pass of the scope's own events. */
module Replay {
  import opened Sequences
  import opened Lots
  import opened Disposals
  import opened Events
  import opened Books
  import opened Conservation
  import opened Scopes

  // ---- Books whose rows respect the border of a scope ----

  ghost predicate RowHome(reg: Registry, scope: Scope, lots: seq<Lot>, lot: nat, tx: nat) {
    HasSource(lots, lot) && (Inside(reg, scope, tx) <==> Inside(reg, scope, lot))
  }

  ghost predicate Local(reg: Registry, scope: Scope, b: Books) {
    && DistinctSources(b.lots)
    && Home(reg, scope, b.lots)
    && (forall i :: 0 <= i < |b.disposals| ==> RowHome(reg, scope, b.lots, b.disposals[i].lot, b.disposals[i].tx))
    && (forall i :: 0 <= i < |b.relocations| ==> RowHome(reg, scope, b.lots, b.relocations[i].lot, b.relocations[i].tx))
    && (forall i :: 0 <= i < |b.gifts| ==> RowHome(reg, scope, b.lots, b.gifts[i].lot, b.gifts[i].tx))
  }

  /** The later table begins with the earlier one's lots. */
  ghost predicate KeepsSources(before: seq<Lot>, after: seq<Lot>) {
    |before| <= |after| && forall i :: 0 <= i < |before| ==> after[i].source == before[i].source
  }

  lemma RowHomeKept(reg: Registry, scope: Scope, before: seq<Lot>, after: seq<Lot>, lot: nat, tx: nat)
    requires KeepsSources(before, after) && RowHome(reg, scope, before, lot, tx)
    ensures RowHome(reg, scope, after, lot, tx)
  {
    var i :| 0 <= i < |before| && before[i].source == lot;
    assert after[i].source == lot;
  }

  /** Rows already booked stay on their side when the lot table only changes in place or grows. */
  lemma LocalKept(reg: Registry, scope: Scope, b: Books, lots: seq<Lot>)
    requires Local(reg, scope, b) && KeepsSources(b.lots, lots) && DistinctSources(lots) && Home(reg, scope, lots)
    ensures Local(reg, scope, b.(lots := lots))
  {
    forall i | 0 <= i < |b.disposals| ensures RowHome(reg, scope, lots, b.disposals[i].lot, b.disposals[i].tx) {
      RowHomeKept(reg, scope, b.lots, lots, b.disposals[i].lot, b.disposals[i].tx);
    }
    forall i | 0 <= i < |b.relocations| ensures RowHome(reg, scope, lots, b.relocations[i].lot, b.relocations[i].tx) {
      RowHomeKept(reg, scope, b.lots, lots, b.relocations[i].lot, b.relocations[i].tx);
    }
    forall i | 0 <= i < |b.gifts| ensures RowHome(reg, scope, lots, b.gifts[i].lot, b.gifts[i].tx) {
      RowHomeKept(reg, scope, b.lots, lots, b.gifts[i].lot, b.gifts[i].tx);
    }
  }

  lemma SliceRowHome(reg: Registry, scope: Scope, lots: seq<Lot>, wallet: nat, pool: Pool, slices: seq<Slice>, tx: nat,
                     i: nat)
    requires Home(reg, scope, lots) && FromPool(lots, wallet, pool, slices) && i < |slices|
    requires Inside(reg, scope, tx) <==> Key(wallet, Some(pool)) in scope
    ensures RowHome(reg, scope, lots, slices[i].lot.source, tx)
  {
    assert slices[i].lot in lots;
    var k :| 0 <= k < |lots| && lots[k] == slices[i].lot;
    assert HasSource(lots, slices[i].lot.source);
  }

  // ---- The three postings ----

  lemma PostDisposalLocal(reg: Registry, scope: Scope, b: Books, e: Event, pool: Pool, slices: seq<Slice>,
                          strategy: LotMethod)
    requires Local(reg, scope, b) && FromPool(b.lots, e.wallet, pool, slices)
    requires slices != [] ==> Taken(slices) > 0
    requires Inside(reg, scope, e.id) <==> Key(e.wallet, Some(pool)) in scope
    ensures Local(reg, scope, PostDisposal(b, e, slices, strategy))
  {
    var next := PostDisposal(b, e, slices, strategy);
    DeductHome(reg, scope, b.lots, slices);
    LocalKept(reg, scope, b, next.lots);
    var lines := BuildLines(slices, ProceedsOf(e), e.occurredAt, strategy);
    if slices != [] {
      LinesKeepSlices(slices, Taken(slices), ProceedsOf(e), 0, e.occurredAt, strategy);
    }
    forall i | 0 <= i < |next.disposals|
      ensures RowHome(reg, scope, next.lots, next.disposals[i].lot, next.disposals[i].tx)
    {
      if i >= |b.disposals| {
        var j := i - |b.disposals|;
        assert next.disposals[i] == DisposalRows(e, lines)[j];
        SliceRowHome(reg, scope, b.lots, e.wallet, pool, slices, e.id, j);
        RowHomeKept(reg, scope, b.lots, next.lots, slices[j].lot.source, e.id);
      }
    }
  }

  lemma PostDisposalProjected(reg: Registry, scope: Scope, b: Books, e: Event, pool: Pool, slices: seq<Slice>,
                              strategy: LotMethod)
    requires Home(reg, scope, b.lots) && FromPool(b.lots, e.wallet, pool, slices)
    requires slices != [] ==> Taken(slices) > 0
    requires Inside(reg, scope, e.id) <==> Key(e.wallet, Some(pool)) in scope
    ensures Project(reg, scope, PostDisposal(b, e, slices, strategy))
         == if Inside(reg, scope, e.id)
           then PostDisposal(Project(reg, scope, b), e, slices, strategy) else Project(reg, scope, b)
  {
    var rows := DisposalRows(e, BuildLines(slices, ProceedsOf(e), e.occurredAt, strategy));
    DeductProjected(reg, scope, b.lots, e.wallet, pool, slices);
    DisposalRowsProjected(reg, scope, b.disposals, rows, e.id);
  }

  lemma PostGiftLocal(reg: Registry, scope: Scope, b: Books, e: Event, pool: Pool, slices: seq<Slice>)
    requires Local(reg, scope, b) && FromPool(b.lots, e.wallet, pool, slices)
    requires Inside(reg, scope, e.id) <==> Key(e.wallet, Some(pool)) in scope
    ensures Local(reg, scope, PostGift(b, e, slices))
  {
    var next := PostGift(b, e, slices);
    DeductHome(reg, scope, b.lots, slices);
    LocalKept(reg, scope, b, next.lots);
    forall i | 0 <= i < |slices| ensures RowHome(reg, scope, next.lots, slices[i].lot.source, e.id) {
      SliceRowHome(reg, scope, b.lots, e.wallet, pool, slices, e.id, i);
      RowHomeKept(reg, scope, b.lots, next.lots, slices[i].lot.source, e.id);
    }
  }

  lemma PostGiftProjected(reg: Registry, scope: Scope, b: Books, e: Event, pool: Pool, slices: seq<Slice>)
    requires Home(reg, scope, b.lots) && FromPool(b.lots, e.wallet, pool, slices)
    requires Inside(reg, scope, e.id) <==> Key(e.wallet, Some(pool)) in scope
    ensures Project(reg, scope, PostGift(b, e, slices))
         == if Inside(reg, scope, e.id) then PostGift(Project(reg, scope, b), e, slices) else Project(reg, scope, b)
  {
    DeductProjected(reg, scope, b.lots, e.wallet, pool, slices);
    RelocationRowsProjected(reg, scope, b.relocations, RelocationRows(e, slices, e.wallet, e.wallet, Gifted), e.id);
    GiftRowsProjected(reg, scope, b.gifts, GiftRows(e, slices), e.id);
    FlagProjected(reg, scope, b, e.id);
  }

  lemma PostMoveLocal(reg: Registry, scope: Scope, b: Books, e: Event, from: nat, pool: Pool, slices: seq<Slice>)
    requires Local(reg, scope, b) && FromPool(b.lots, from, pool, slices)
    requires Inside(reg, scope, e.id) <==> Key(e.wallet, Some(pool)) in scope
    requires Key(from, Some(pool)) in scope <==> Key(e.wallet, Some(pool)) in scope
    ensures Local(reg, scope, PostMove(reg, b, e, from, slices))
  {
    var next := PostMove(reg, b, e, from, slices);
    MoveHome(reg, scope, b.lots, from, pool, slices, e.wallet, EntityFor(reg.assignments, e.wallet, e.occurredAt.date),
      RetypedAs(e));
    LocalKept(reg, scope, b, next.lots);
    forall i | 0 <= i < |slices| ensures RowHome(reg, scope, next.lots, slices[i].lot.source, e.id) {
      SliceRowHome(reg, scope, b.lots, from, pool, slices, e.id, i);
      RowHomeKept(reg, scope, b.lots, next.lots, slices[i].lot.source, e.id);
    }
  }

  lemma PostMoveProjected(reg: Registry, scope: Scope, b: Books, e: Event, from: nat, pool: Pool, slices: seq<Slice>)
    requires Home(reg, scope, b.lots) && FromPool(b.lots, from, pool, slices)
    requires Inside(reg, scope, e.id) <==> Key(e.wallet, Some(pool)) in scope
    requires Key(from, Some(pool)) in scope <==> Key(e.wallet, Some(pool)) in scope
    ensures Project(reg, scope, PostMove(reg, b, e, from, slices))
         == if Inside(reg, scope, e.id)
           then PostMove(reg, Project(reg, scope, b), e, from, slices) else Project(reg, scope, b)
  {
    MoveProjected(reg, scope, b.lots, from, pool, slices, e.wallet,
      EntityFor(reg.assignments, e.wallet, e.occurredAt.date), RetypedAs(e));
    RelocationRowsProjected(reg, scope, b.relocations, RelocationRows(e, slices, from, e.wallet, MoveReasonOf(e)),
      e.id);
  }

  // ---- One event ----

  ghost function ProjectOutcome(reg: Registry, scope: Scope, o: Outcome): Outcome {
    match o
    case Posted(b) => Posted(Project(reg, scope, b))
    case Raised => Raised
  }

  /** What an event does, seen through the scope: inside, what it does to the projection; outside, nothing. */
  ghost predicate SeenThrough(reg: Registry, scope: Scope, b: Books, e: Event, o: Outcome, onProjection: Outcome) {
    && (Inside(reg, scope, e.id) ==> onProjection == ProjectOutcome(reg, scope, o))
    && (!Inside(reg, scope, e.id) && o.Posted? ==> Project(reg, scope, o.books) == Project(reg, scope, b))
    && (o.Posted? ==> Local(reg, scope, o.books))
  }

  lemma FailSeen(reg: Registry, scope: Scope, b: Books, e: Event, reason: Reason, unmatched: Option<int>)
    requires Local(reg, scope, b)
    ensures SeenThrough(reg, scope, b, e, Posted(Fail(b, e, reason, unmatched)),
            Posted(Fail(Project(reg, scope, b), e, reason, unmatched)))
  {
    FailProjected(reg, scope, b, e, reason, unmatched);
  }

  lemma InsideIsKey(reg: Registry, scope: Scope, e: Event)
    requires Registered(reg, e)
    ensures Inside(reg, scope, e.id) <==> KeyOf(reg, e) in scope
  {
  }

  lemma AddLotLocal(reg: Registry, scope: Scope, b: Books, e: Event, lot: Lot)
    requires Local(reg, scope, b) && Registered(reg, e) && !HasLot(b, e.id)
    requires lot.source == e.id && LotKey(lot) == KeyOf(reg, e)
    ensures Local(reg, scope, b.(lots := b.lots + [lot]))
  {
    InsideIsKey(reg, scope, e);
    var lots := b.lots + [lot];
    assert forall i :: 0 <= i < |b.lots| ==> b.lots[i].source != e.id;
    assert DistinctSources(lots);
    assert Home(reg, scope, lots);
    LocalKept(reg, scope, b, lots);
  }

  lemma AddLotProjected(reg: Registry, scope: Scope, b: Books, lot: Lot)
    ensures Project(reg, scope, b.(lots := b.lots + [lot]))
         == if Inside(reg, scope, lot.source) then Project(reg, scope, b).(lots := Project(reg, scope, b).lots + [lot])
            else Project(reg, scope, b)
  {
    FilterAppend(b.lots, [lot], LotsInside(reg, scope));
  }

  lemma AcquireSeen(reg: Registry, scope: Scope, b: Books, e: Event)
    requires Local(reg, scope, b) && Registered(reg, e)
    ensures SeenThrough(reg, scope, b, e, ApplyAcquire(reg, b, e), ApplyAcquire(reg, Project(reg, scope, b), e))
  {
    if Inside(reg, scope, e.id) {
      HasRowsInside(reg, scope, b, e.id);
    }
    if !HasLot(b, e.id) {
      var value, entity := AcquiredValue(reg, e), EntityFor(reg.assignments, e.wallet, e.occurredAt.date);
      if value.None? || entity.None? || e.token.None? {
        FailSeen(reg, scope, b, e, MissingBasis, None);
      } else {
        var lot := NewLot(reg, e, value.value, entity.value, e.token.value);
        assert PoolOf(lot) == CanonicalPool(reg, e.token.value);
        AddLotLocal(reg, scope, b, e, lot);
        AddLotProjected(reg, scope, b, lot);
      }
    }
  }

  lemma SelectProjected(reg: Registry, scope: Scope, b: Books, wallet: nat, pool: Pool, strategy: LotMethod,
                        quantity: int)
    requires Home(reg, scope, b.lots) && Key(wallet, Some(pool)) in scope
    ensures Select(Project(reg, scope, b).lots, wallet, pool, strategy, quantity)
            == Select(b.lots, wallet, pool, strategy, quantity)
  {
    PoolProjected(reg, scope, b.lots, wallet, pool);
  }

  lemma DisposeSeen(reg: Registry, scope: Scope, b: Books, e: Event)
    requires Local(reg, scope, b) && Registered(reg, e)
    ensures SeenThrough(reg, scope, b, e, ApplyDispose(reg, b, e), ApplyDispose(reg, Project(reg, scope, b), e))
  {
    InsideIsKey(reg, scope, e);
    if Inside(reg, scope, e.id) {
      HasRowsInside(reg, scope, b, e.id);
    }
    if !HasDisposal(b, e.id) {
      match e.token {
        case None => FailSeen(reg, scope, b, e, MissingBasis, None);
        case Some(token) =>
          var pool, strategy := CanonicalPool(reg, token), MethodFor(reg, e);
          if Inside(reg, scope, e.id) {
            SelectProjected(reg, scope, b, e.wallet, pool, strategy, e.amount);
          }
          SelectionFromPool(b.lots, e.wallet, pool, strategy, e.amount);
          SelectCovers(b.lots, e.wallet, pool, strategy, e.amount);
          match Select(b.lots, e.wallet, pool, strategy, e.amount) {
            case Insufficient(u) => FailSeen(reg, scope, b, e, InsufficientLots, Some(u));
            case Covered(slices) =>
              PostDisposalLocal(reg, scope, b, e, pool, slices, strategy);
              PostDisposalProjected(reg, scope, b, e, pool, slices, strategy);
          }
      }
    }
  }

  lemma GiftSeen(reg: Registry, scope: Scope, b: Books, e: Event)
    requires Local(reg, scope, b) && Registered(reg, e)
    ensures SeenThrough(reg, scope, b, e, ApplyGift(reg, b, e), ApplyGift(reg, Project(reg, scope, b), e))
  {
    InsideIsKey(reg, scope, e);
    if Inside(reg, scope, e.id) {
      HasRowsInside(reg, scope, b, e.id);
    }
    if !HasRelocation(b, e.id) {
      match e.token {
        case None => FailSeen(reg, scope, b, e, MissingBasis, None);
        case Some(token) =>
          var pool, strategy := CanonicalPool(reg, token), MethodFor(reg, e);
          if Inside(reg, scope, e.id) {
            SelectProjected(reg, scope, b, e.wallet, pool, strategy, e.amount);
          }
          SelectionFromPool(b.lots, e.wallet, pool, strategy, e.amount);
          match Select(b.lots, e.wallet, pool, strategy, e.amount) {
            case Insufficient(u) => FailSeen(reg, scope, b, e, InsufficientLots, Some(u));
            case Covered(slices) =>
              PostGiftLocal(reg, scope, b, e, pool, slices);
              PostGiftProjected(reg, scope, b, e, pool, slices);
          }
      }
    }
  }

  lemma FlagGiftSeen(reg: Registry, scope: Scope, b: Books, e: Event)
    ensures Project(reg, scope, FlagGift(b, e))
         == if Inside(reg, scope, e.id) then FlagGift(Project(reg, scope, b), e) else Project(reg, scope, b)
    ensures Local(reg, scope, b) ==> Local(reg, scope, FlagGift(b, e))
  {
    FlagProjected(reg, scope, b, e.id);
  }

  lemma RelocationSeen(reg: Registry, scope: Scope, b: Books, e: Event)
    requires Local(reg, scope, b) && Registered(reg, e) && TreatmentOf(e) == Relocate && Confined(reg, scope, e)
    ensures SeenThrough(reg, scope, b, e, ApplyRelocation(reg, b, e), ApplyRelocation(reg, Project(reg, scope, b), e))
  {
    InsideIsKey(reg, scope, e);
    if Inside(reg, scope, e.id) {
      HasRowsInside(reg, scope, b, e.id);
    }
    if !HasRelocation(b, e.id) {
      match SourceEvent(reg, e) {
        case None => FailSeen(reg, scope, b, e, MissingBasis, None);
        case Some(outflow) =>
          match e.token {
            case None => FlagGiftSeen(reg, scope, b, e);
            case Some(token) =>
              var pool := CanonicalPool(reg, token);
              if Inside(reg, scope, e.id) {
                SelectProjected(reg, scope, b, outflow.wallet, pool, Fifo, e.amount);
              }
              SelectionFromPool(b.lots, outflow.wallet, pool, Fifo, e.amount);
              match Select(b.lots, outflow.wallet, pool, Fifo, e.amount) {
                case Insufficient(_) =>
                case Covered(slices) =>
                  PostMoveLocal(reg, scope, b, e, outflow.wallet, pool, slices);
                  PostMoveProjected(reg, scope, b, e, outflow.wallet, pool, slices);
                  FlagGiftSeen(reg, scope, PostMove(reg, b, e, outflow.wallet, slices), e);
              }
          }
      }
    }
  }

  lemma ApplySeen(reg: Registry, scope: Scope, b: Books, e: Event)
    requires Local(reg, scope, b) && Registered(reg, e) && Confined(reg, scope, e)
    ensures SeenThrough(reg, scope, b, e, Apply(reg, b, e), Apply(reg, Project(reg, scope, b), e))
  {
    match TreatmentOf(e) {
      case Acquire => AcquireSeen(reg, scope, b, e);
      case Dispose => DisposeSeen(reg, scope, b, e);
      case Relocate => RelocationSeen(reg, scope, b, e);
      case GiveAway => GiftSeen(reg, scope, b, e);
      case Lend => FlagProjected(reg, scope, b, e.id);
      case _ =>
    }
  }

  // ---- Passes ----

  ghost predicate AllConfined(reg: Registry, scope: Scope, events: seq<Event>) {
    forall e :: e in events ==> Registered(reg, e) && Confined(reg, scope, e)
  }

  /** A pass seen through a scope is the pass of the scope's own events over the scope's own books. */
  lemma {:induction false} RunSeen(reg: Registry, scope: Scope, b: Books, events: seq<Event>)
    requires Local(reg, scope, b) && AllConfined(reg, scope, events) && Run(reg, b, events).Posted?
    ensures Run(reg, Project(reg, scope, b), Filter(events, EventsInside(reg, scope)))
         == Posted(Project(reg, scope, Run(reg, b, events).books))
    ensures Local(reg, scope, Run(reg, b, events).books)
    decreases events
  {
    if events != [] {
      var e := events[0];
      assert e in events;
      ApplySeen(reg, scope, b, e);
      InsideIsKey(reg, scope, e);
      var next := Apply(reg, b, e).books;
      RunSeen(reg, scope, next, events[1..]);
      var inner := Filter(events[1..], EventsInside(reg, scope));
      if Inside(reg, scope, e.id) {
        assert Filter(events, EventsInside(reg, scope)) == [e] + inner;
        assert ([e] + inner)[1..] == inner;
      }
    }
  }
}
