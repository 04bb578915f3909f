/** Three consequences: wallet by wallet is as good as chronological, rebuilding a wallet is replaying it
    from nothing, and a second pass changes nothing. */
module Passes {
  import opened Sequences
  import opened Lots
  import opened Disposals
  import opened Events
  import opened Books
  import opened Conservation
  import opened Guarantees
  import opened Scopes
  import opened Replay

  ghost predicate DistinctIds(events: seq<Event>) {
    forall i, j :: 0 <= i < j < |events| ==> events[i].id != events[j].id
  }

  lemma {:induction false} FindRegistered(events: seq<Event>, e: Event)
    requires DistinctIds(events) && e in events
    ensures FindEvent(events, e.id) == Some(e)
  {
    if events[0] == e {
    } else {
      assert e in events[1..];
      var j :| 0 <= j < |events[1..]| && events[1..][j] == e;
      assert events[j + 1] == e;
      FindRegistered(events[1..], e);
    }
  }

  // ---- Order of events ----

  /** Two passes that agree on the events of a scope, in order, leave the scope with the same books,
      however they interleave the rest. */
  lemma InterleavingsAgree(reg: Registry, scope: Scope, first: seq<Event>, second: seq<Event>)
    requires AllConfined(reg, scope, first) && AllConfined(reg, scope, second)
    requires Filter(first, EventsInside(reg, scope)) == Filter(second, EventsInside(reg, scope))
    requires Run(reg, EMPTY, first).Posted? && Run(reg, EMPTY, second).Posted?
    ensures Project(reg, scope, Run(reg, EMPTY, first).books) == Project(reg, scope, Run(reg, EMPTY, second).books)
  {
    RunSeen(reg, scope, EMPTY, first);
    RunSeen(reg, scope, EMPTY, second);
  }

  /** Events of different pools commute, from any books whose rows respect the pool's border. */
  lemma PoolsCommute(reg: Registry, key: Key, b: Books, e: Event, f: Event)
    requires KeyOf(reg, e) != KeyOf(reg, f)
    requires Local(reg, iset{key}, b) && AllConfined(reg, iset{key}, [e, f])
    requires Run(reg, b, [e, f]).Posted? && Run(reg, b, [f, e]).Posted?
    ensures Project(reg, iset{key}, Run(reg, b, [e, f]).books) == Project(reg, iset{key}, Run(reg, b, [f, e]).books)
  {
    var scope := iset{key};
    assert [e, f][1..] == [f] && [f, e][1..] == [e] && [f][1..] == [] && [e][1..] == [];
    RunSeen(reg, scope, b, [e, f]);
    RunSeen(reg, scope, b, [f, e]);
    var inside := EventsInside(reg, scope);
    assert Filter([e], inside) == (if inside(e) then [e] else [])
           && Filter([f], inside) == (if inside(f) then [f] else []);
    assert !(inside(e) && inside(f));
    assert Filter([e, f], inside) == Filter([f, e], inside);
  }

  /** The order of the pipeline: one wallet after the other, each in canonical order. */
  function PipelineEvents(reg: Registry, wallets: seq<nat>): seq<Event> {
    if wallets == [] then [] else WalletEvents(reg, wallets[0]) + PipelineEvents(reg, wallets[1..])
  }

  function OfWallets(wallets: seq<nat>): Event -> bool {
    (e: Event) => e.wallet in wallets
  }

  /** The same events in one chronological pass. */
  function ChronologicalEvents(reg: Registry, wallets: seq<nat>): seq<Event> {
    Sort(Filter(reg.events, OfWallets(wallets)), EventKey())
  }

  lemma WalletEventsInside(reg: Registry, wallet: nat, key: Key)
    ensures Filter(WalletEvents(reg, wallet), EventsInside(reg, iset{key}))
         == if wallet == key.wallet then Sort(Filter(reg.events, EventsInside(reg, iset{key})), EventKey()) else []
  {
    var inside, mine := EventsInside(reg, iset{key}), Filter(reg.events, OfWallet(wallet));
    EventKeyTotal();
    FilterSort(mine, EventKey(), inside);
    if wallet == key.wallet {
      FilterAgain(reg.events, OfWallet(wallet), inside);
    } else {
      FilterNone(mine, inside);
    }
  }

  lemma {:induction false} PipelineInside(reg: Registry, wallets: seq<nat>, key: Key)
    requires forall i, j :: 0 <= i < j < |wallets| ==> wallets[i] != wallets[j]
    ensures Filter(PipelineEvents(reg, wallets), EventsInside(reg, iset{key}))
         == if key.wallet in wallets then Sort(Filter(reg.events, EventsInside(reg, iset{key})), EventKey()) else []
  {
    if wallets != [] {
      FilterAppend(WalletEvents(reg, wallets[0]), PipelineEvents(reg, wallets[1..]), EventsInside(reg, iset{key}));
      WalletEventsInside(reg, wallets[0], key);
      PipelineInside(reg, wallets[1..], key);
      forall w | w in wallets[1..] ensures w != wallets[0] {
        var j :| 0 <= j < |wallets[1..]| && wallets[1..][j] == w;
        assert wallets[j + 1] == w;
      }
    }
  }

  lemma {:induction false} PipelineMembers(reg: Registry, wallets: seq<nat>)
    ensures forall e :: e in PipelineEvents(reg, wallets) <==> e in reg.events && e.wallet in wallets
  {
    if wallets != [] {
      SortMembers(Filter(reg.events, OfWallet(wallets[0])), EventKey());
      PipelineMembers(reg, wallets[1..]);
    }
  }

  /** Applying events wallet by wallet, as the pipeline does, books in every pool that no relocation
      touches exactly what one chronological pass over all the wallets books there. */
  lemma PipelineIsChronological(reg: Registry, wallets: seq<nat>, key: Key)
    requires DistinctIds(reg.events) && key.wallet in wallets
    requires forall i, j :: 0 <= i < j < |wallets| ==> wallets[i] != wallets[j]
    requires forall e :: e in reg.events ==> Confined(reg, iset{key}, e)
    requires Run(reg, EMPTY, PipelineEvents(reg, wallets)).Posted?
    requires Run(reg, EMPTY, ChronologicalEvents(reg, wallets)).Posted?
    ensures Project(reg, iset{key}, Run(reg, EMPTY, PipelineEvents(reg, wallets)).books)
         == Project(reg, iset{key}, Run(reg, EMPTY, ChronologicalEvents(reg, wallets)).books)
  {
    var inside, ours := EventsInside(reg, iset{key}), Filter(reg.events, OfWallets(wallets));
    PipelineInside(reg, wallets, key);
    EventKeyTotal();
    FilterSort(ours, EventKey(), inside);
    FilterAgain(reg.events, OfWallets(wallets), inside);
    PipelineMembers(reg, wallets);
    SortMembers(ours, EventKey());
    forall e | e in reg.events ensures Registered(reg, e) {
      FindRegistered(reg.events, e);
    }
    InterleavingsAgree(reg, iset{key}, PipelineEvents(reg, wallets), ChronologicalEvents(reg, wallets));
  }

  // ---- Rebuild ----

  ghost function WalletScope(wallet: nat): Scope {
    iset k: Key | k.wallet == wallet
  }

  ghost function OtherWallets(wallet: nat): Scope {
    iset k: Key | k.wallet != wallet
  }

  /** Wiping keeps the border of any scope. */
  lemma WipeLocal(reg: Registry, tables: Registry, scope: Scope, b: Books, wallet: nat)
    requires Local(reg, scope, b)
    ensures Local(reg, scope, Wipe(tables, b, wallet))
  {
    var next := Wipe(tables, b, wallet);
    FilterDistinct(b.lots, HeldElsewhere(wallet), Origin());
    forall i | 0 <= i < |next.disposals|
      ensures RowHome(reg, scope, next.lots, next.disposals[i].lot, next.disposals[i].tx)
    {
      assert next.disposals[i] in b.disposals;
      LotKeptByWipe(tables, b, wallet, next.disposals[i].lot);
    }
    forall i | 0 <= i < |next.relocations|
      ensures RowHome(reg, scope, next.lots, next.relocations[i].lot, next.relocations[i].tx)
    {
      assert next.relocations[i] in b.relocations;
      LotKeptByWipe(tables, b, wallet, next.relocations[i].lot);
    }
    forall i | 0 <= i < |next.gifts| ensures RowHome(reg, scope, next.lots, next.gifts[i].lot, next.gifts[i].tx) {
      assert next.gifts[i] in b.gifts;
      LotKeptByWipe(tables, b, wallet, next.gifts[i].lot);
    }
  }

  lemma LotKeptByWipe(tables: Registry, b: Books, wallet: nat, lot: nat)
    requires HasSource(b.lots, lot) && !LotIn(b, lot, wallet)
    ensures HasSource(Wipe(tables, b, wallet).lots, lot)
  {
    var k :| 0 <= k < |b.lots| && b.lots[k].source == lot;
    assert b.lots[k] in Wipe(tables, b, wallet).lots;
  }

  /** After a wipe nothing of the wallet is left but its review flags. */
  lemma WipeClears(reg: Registry, b: Books, wallet: nat)
    requires DistinctIds(reg.events) && Local(reg, WalletScope(wallet), b)
    ensures Project(reg, WalletScope(wallet), Wipe(reg, b, wallet))
         == EMPTY.(flagged := Project(reg, WalletScope(wallet), b).flagged)
  {
    var scope, next := WalletScope(wallet), Wipe(reg, b, wallet);
    FilterNone(next.lots, LotsInside(reg, scope));
    forall row | row in next.disposals ensures !DisposalsInside(reg, scope)(row) {
      InsideRowInWallet(reg, b, wallet, row.lot, row.tx);
    }
    FilterNone(next.disposals, DisposalsInside(reg, scope));
    forall row | row in next.relocations ensures !RelocationsInside(reg, scope)(row) {
      InsideRowInWallet(reg, b, wallet, row.lot, row.tx);
    }
    FilterNone(next.relocations, RelocationsInside(reg, scope));
    forall row | row in next.gifts ensures !GiftsInside(reg, scope)(row) {
      InsideRowInWallet(reg, b, wallet, row.lot, row.tx);
    }
    FilterNone(next.gifts, GiftsInside(reg, scope));
    forall f | f in next.failures ensures !FailuresInside(reg, scope)(f) {
      if Inside(reg, scope, f.tx) {
        FindIsMember(reg.events, f.tx);
      }
    }
    FilterNone(next.failures, FailuresInside(reg, scope));
  }

  lemma {:induction false} FindIsMember(events: seq<Event>, id: nat)
    requires FindEvent(events, id).Some?
    ensures exists i :: 0 <= i < |events| && events[i] == FindEvent(events, id).value && events[i].id == id
  {
    if events[0].id != id {
      FindIsMember(events[1..], id);
      var i :| 0 <= i < |events[1..]| && events[1..][i] == FindEvent(events, id).value && events[1..][i].id == id;
      assert events[i + 1] == events[1..][i];
    }
  }

  lemma InsideRowInWallet(reg: Registry, b: Books, wallet: nat, lot: nat, tx: nat)
    requires Local(reg, WalletScope(wallet), b)
    ensures RowHome(reg, WalletScope(wallet), b.lots, lot, tx) && Inside(reg, WalletScope(wallet), tx) ==>
              LotIn(b, lot, wallet)
  {
    if RowHome(reg, WalletScope(wallet), b.lots, lot, tx) && Inside(reg, WalletScope(wallet), tx) {
      var k :| 0 <= k < |b.lots| && b.lots[k].source == lot;
      assert b.lots[k] in b.lots;
      assert LotKey(b.lots[k]) in WalletScope(wallet);
    }
  }

  ghost function WithFlags(b: Books, flags: set<nat>): Books {
    b.(flagged := b.flagged + flags)
  }

  ghost function OutcomeWithFlags(o: Outcome, flags: set<nat>): Outcome {
    match o
    case Raised => Raised
    case Posted(n) => Posted(WithFlags(n, flags))
  }

  lemma FlagsUnreadByGift(reg: Registry, b: Books, e: Event, flags: set<nat>)
    ensures ApplyGift(reg, WithFlags(b, flags), e) == OutcomeWithFlags(ApplyGift(reg, b, e), flags)
  {
    assert b.flagged + flags + {e.id} == b.flagged + {e.id} + flags;
  }

  lemma FlagGiftOnce(b: Books, e: Event, flags: set<nat>)
    ensures FlagGift(WithFlags(b, flags), e) == WithFlags(FlagGift(b, e), flags)
  {
    assert b.flagged + flags + {e.id} == b.flagged + {e.id} + flags;
  }

  lemma FlagsUnreadByRelocation(reg: Registry, b: Books, e: Event, flags: set<nat>)
    ensures ApplyRelocation(reg, WithFlags(b, flags), e) == OutcomeWithFlags(ApplyRelocation(reg, b, e), flags)
  {
    FlagGiftOnce(b, e, flags);
    match SourceEvent(reg, e) {
      case None =>
      case Some(outflow) =>
        if e.token.Some? {
          match Select(b.lots, outflow.wallet, CanonicalPool(reg, e.token.value), Fifo, e.amount) {
            case Insufficient(_) =>
            case Covered(slices) => FlagGiftOnce(PostMove(reg, b, e, outflow.wallet, slices), e, flags);
          }
        }
    }
  }

  lemma FlagsUnreadByDisposal(reg: Registry, b: Books, e: Event, flags: set<nat>)
    ensures ApplyDispose(reg, WithFlags(b, flags), e) == OutcomeWithFlags(ApplyDispose(reg, b, e), flags)
  {
  }

  lemma FlagsUnreadByAcquisition(reg: Registry, b: Books, e: Event, flags: set<nat>)
    ensures ApplyAcquire(reg, WithFlags(b, flags), e) == OutcomeWithFlags(ApplyAcquire(reg, b, e), flags)
  {
  }

  /** Review flags are written and never read. */
  lemma FlagsUnread(reg: Registry, b: Books, e: Event, flags: set<nat>)
    ensures Apply(reg, WithFlags(b, flags), e) == OutcomeWithFlags(Apply(reg, b, e), flags)
  {
    match TreatmentOf(e) {
      case Acquire => FlagsUnreadByAcquisition(reg, b, e, flags);
      case Dispose => FlagsUnreadByDisposal(reg, b, e, flags);
      case Relocate => FlagsUnreadByRelocation(reg, b, e, flags);
      case GiveAway => FlagsUnreadByGift(reg, b, e, flags);
      case Lend => assert b.flagged + flags + {e.id} == b.flagged + {e.id} + flags;
      case _ =>
    }
  }

  lemma {:induction false} FlagsUnreadRun(reg: Registry, b: Books, events: seq<Event>, flags: set<nat>)
    ensures Run(reg, WithFlags(b, flags), events) == OutcomeWithFlags(Run(reg, b, events), flags)
    decreases events
  {
    if events != [] {
      FlagsUnread(reg, b, events[0], flags);
      match Apply(reg, b, events[0]) {
        case Raised =>
        case Posted(next) => FlagsUnreadRun(reg, next, events[1..], flags);
      }
    }
  }

  lemma WalletEventsOfWallet(reg: Registry, wallet: nat)
    ensures forall e :: e in WalletEvents(reg, wallet) ==> e in reg.events && e.wallet == wallet
  {
    SortMembers(Filter(reg.events, OfWallet(wallet)), EventKey());
  }

  /** Rebuilding a wallet that no relocation crosses gives what replaying its events from empty books gives,
      whatever was booked before; only flags set earlier stay set. */
  lemma RebuildIsReplay(reg: Registry, b: Books, wallet: nat)
    requires DistinctIds(reg.events) && Local(reg, WalletScope(wallet), b)
    requires AllConfined(reg, WalletScope(wallet), WalletEvents(reg, wallet))
    requires Rebuild(reg, b, wallet).Posted?
    ensures Run(reg, EMPTY, WalletEvents(reg, wallet)).Posted?
    ensures var replay := Run(reg, EMPTY, WalletEvents(reg, wallet)).books;
            Project(reg, WalletScope(wallet), Rebuild(reg, b, wallet).books)
              == replay.(flagged := replay.flagged + Project(reg, WalletScope(wallet), b).flagged)
  {
    var scope, wiped, events := WalletScope(wallet), Wipe(reg, b, wallet), WalletEvents(reg, wallet);
    var flags := Project(reg, scope, b).flagged;
    WipeLocal(reg, reg, scope, b, wallet);
    WipeClears(reg, b, wallet);
    RunSeen(reg, scope, wiped, events);
    WalletEventsOfWallet(reg, wallet);
    FilterAll(events, EventsInside(reg, scope));
    FlagsUnreadRun(reg, EMPTY, events, flags);
    assert WithFlags(EMPTY, flags) == EMPTY.(flagged := flags);
  }

  /** And it leaves every other wallet's books alone. */
  lemma RebuildLeavesOthers(reg: Registry, b: Books, wallet: nat)
    requires DistinctIds(reg.events) && Local(reg, OtherWallets(wallet), b)
    requires AllConfined(reg, OtherWallets(wallet), WalletEvents(reg, wallet))
    requires Rebuild(reg, b, wallet).Posted?
    ensures Project(reg, OtherWallets(wallet), Rebuild(reg, b, wallet).books) == Project(reg, OtherWallets(wallet), b)
  {
    var scope, wiped, events := OtherWallets(wallet), Wipe(reg, b, wallet), WalletEvents(reg, wallet);
    WipeLocal(reg, reg, scope, b, wallet);
    RunSeen(reg, scope, wiped, events);
    WalletEventsOfWallet(reg, wallet);
    FilterNone(events, EventsInside(reg, scope));
    WipeSparesOthers(reg, b, wallet);
  }

  lemma OutsideRowElsewhere(reg: Registry, b: Books, wallet: nat, lot: nat, tx: nat)
    requires Local(reg, OtherWallets(wallet), b)
    ensures RowHome(reg, OtherWallets(wallet), b.lots, lot, tx) && Inside(reg, OtherWallets(wallet), tx) ==>
              !LotIn(b, lot, wallet)
  {
    if Inside(reg, OtherWallets(wallet), lot) {
      forall k | 0 <= k < |b.lots| && b.lots[k].source == lot ensures b.lots[k].wallet != wallet {
        assert b.lots[k] in b.lots;
        assert LotKey(b.lots[k]) in OtherWallets(wallet);
      }
    }
  }

  lemma WipeSparesOthers(reg: Registry, b: Books, wallet: nat)
    requires DistinctIds(reg.events) && Local(reg, OtherWallets(wallet), b)
    ensures Project(reg, OtherWallets(wallet), Wipe(reg, b, wallet)) == Project(reg, OtherWallets(wallet), b)
  {
    var scope := OtherWallets(wallet);
    forall lot | lot in b.lots && LotsInside(reg, scope)(lot) ensures HeldElsewhere(wallet)(lot) {
      assert LotKey(lot) in scope;
    }
    FilterAgain(b.lots, HeldElsewhere(wallet), LotsInside(reg, scope));
    forall row | row in b.disposals && DisposalsInside(reg, scope)(row) ensures OnOtherLot(b, wallet)(row) {
      OutsideRowElsewhere(reg, b, wallet, row.lot, row.tx);
    }
    FilterAgain(b.disposals, OnOtherLot(b, wallet), DisposalsInside(reg, scope));
    forall row | row in b.relocations && RelocationsInside(reg, scope)(row) ensures MovesOtherLot(b, wallet)(row) {
      OutsideRowElsewhere(reg, b, wallet, row.lot, row.tx);
    }
    FilterAgain(b.relocations, MovesOtherLot(b, wallet), RelocationsInside(reg, scope));
    forall row | row in b.gifts && GiftsInside(reg, scope)(row) ensures GivesOtherLot(b, wallet)(row) {
      OutsideRowElsewhere(reg, b, wallet, row.lot, row.tx);
    }
    FilterAgain(b.gifts, GivesOtherLot(b, wallet), GiftsInside(reg, scope));
    forall f | f in b.failures && FailuresInside(reg, scope)(f) ensures FailedElsewhere(reg, wallet)(f) {
      if EventOf(reg, f.tx, wallet) {
        var i :| 0 <= i < |reg.events| && reg.events[i].id == f.tx && reg.events[i].wallet == wallet;
        FindRegistered(reg.events, reg.events[i]);
      }
    }
    FilterAgain(b.failures, FailedElsewhere(reg, wallet), FailuresInside(reg, scope));
  }

  // ---- Which books a wallet can be rebuilt from ----

  predicate Known(reg: Registry, id: nat) {
    FindEvent(reg.events, id).Some?
  }

  /** Events are added, and reclassified; none goes away, and none crosses the border of the scope. */
  ghost predicate Extends(before: Registry, after: Registry, scope: Scope) {
    forall id :: Known(before, id) ==> Known(after, id) && (Inside(before, scope, id) <==> Inside(after, scope, id))
  }

  ghost function EveryPool(): Scope {
    iset k: Key | k.wallet >= 0
  }

  /** Rows are home in the scope, and all of them are about events the registry knows. */
  ghost predicate Grounded(reg: Registry, scope: Scope, b: Books) {
    Local(reg, scope, b) && Local(reg, EveryPool(), b)
  }

  lemma GroundedIsKnown(reg: Registry, scope: Scope, b: Books)
    requires Grounded(reg, scope, b)
    ensures forall lot :: lot in b.lots ==> Known(reg, lot.source)
    ensures forall i :: 0 <= i < |b.disposals| ==> Known(reg, b.disposals[i].lot) && Known(reg, b.disposals[i].tx)
    ensures forall i :: 0 <= i < |b.relocations| ==> Known(reg, b.relocations[i].lot) && Known(reg, b.relocations[i].tx)
    ensures forall i :: 0 <= i < |b.gifts| ==> Known(reg, b.gifts[i].lot) && Known(reg, b.gifts[i].tx)
  {
    forall lot | lot in b.lots ensures Known(reg, lot.source) {
      assert LotKey(lot) in EveryPool();
    }
    forall lot: nat, tx: nat | RowHome(reg, EveryPool(), b.lots, lot, tx) ensures Known(reg, lot) && Known(reg, tx) {
      var k :| 0 <= k < |b.lots| && b.lots[k].source == lot;
      assert b.lots[k] in b.lots;
    }
  }

  /** Books stay home while the registry grows. */
  lemma LocalTransfers(before: Registry, after: Registry, scope: Scope, b: Books)
    requires Extends(before, after, scope) && Grounded(before, scope, b)
    ensures Local(after, scope, b)
  {
    GroundedIsKnown(before, scope, b);
  }

  lemma GroundedTransfers(before: Registry, after: Registry, scope: Scope, b: Books)
    requires Extends(before, after, scope) && Grounded(before, scope, b)
    ensures Grounded(after, scope, b)
  {
    LocalTransfers(before, after, scope, b);
    LocalTransfers(before, after, EveryPool(), b);
  }

  /** The events a step applies. */
  function EventsOf(step: Step): seq<Event> {
    match step case Pass(reg, events) => events case Rebuilding(reg, wallet) => WalletEvents(reg, wallet)
  }

  lemma AfterLocal(scope: Scope, b: Books, step: Step)
    requires Local(step.reg, scope, b) && AllConfined(step.reg, scope, EventsOf(step))
    ensures Local(step.reg, scope, After(b, step))
  {
    match step {
      case Pass(reg, events) =>
        if Run(reg, b, events).Posted? {
          RunSeen(reg, scope, b, events);
        }
      case Rebuilding(reg, wallet) =>
        WipeLocal(reg, reg, scope, b, wallet);
        if Rebuild(reg, b, wallet).Posted? {
          RunSeen(reg, scope, Wipe(reg, b, wallet), WalletEvents(reg, wallet));
        }
    }
  }

  lemma AfterGrounded(scope: Scope, b: Books, step: Step)
    requires Grounded(step.reg, scope, b) && AllConfined(step.reg, scope, EventsOf(step))
    ensures Grounded(step.reg, scope, After(b, step))
  {
    AfterLocal(scope, b, step);
    AfterLocal(EveryPool(), b, step);
  }

  /** From the registry as it stands now the steps lead to a later one: it grows from step to step, and under the
      classification of each no relocation crosses the border of the scope. */
  ghost predicate LeadsTo(now: Registry, steps: seq<Step>, later: Registry, scope: Scope)
    decreases steps
  {
    if steps == [] then Extends(now, later, scope)
    else
      && Extends(now, steps[0].reg, scope) && AllConfined(steps[0].reg, scope, EventsOf(steps[0]))
      && LeadsTo(steps[0].reg, steps[1..], later, scope)
  }

  lemma {:induction false} HistoryGrounded(now: Registry, later: Registry, scope: Scope, b: Books, steps: seq<Step>)
    requires Grounded(now, scope, b) && LeadsTo(now, steps, later, scope)
    ensures Grounded(later, scope, History(b, steps))
    decreases steps
  {
    if steps == [] {
      GroundedTransfers(now, later, scope, b);
    } else {
      GroundedTransfers(now, steps[0].reg, scope, b);
      AfterGrounded(scope, b, steps[0]);
      HistoryGrounded(steps[0].reg, later, scope, After(b, steps[0]), steps[1..]);
    }
  }

  /** A ledger that knows no event yet. */
  const NO_EVENTS := Registry(map[], {}, map[], [], {}, [])

  /** Rebuild is independent of the past.  Let two histories start from nothing, with events arriving, tokens
      joining assets and classifications changing between their steps, and no relocation across the wallet's
      border at any of them: a rebuild leaves the wallet with the same lots, disposals, relocations and failures. */
  lemma RebuildForgets(reg: Registry, wallet: nat, steps: seq<Step>, others: seq<Step>)
    requires DistinctIds(reg.events) && AllConfined(reg, WalletScope(wallet), WalletEvents(reg, wallet))
    requires LeadsTo(NO_EVENTS, steps, reg, WalletScope(wallet))
    requires LeadsTo(NO_EVENTS, others, reg, WalletScope(wallet))
    requires Rebuild(reg, History(EMPTY, steps), wallet).Posted? && Rebuild(reg, History(EMPTY, others), wallet).Posted?
    ensures Project(reg, WalletScope(wallet), Rebuild(reg, History(EMPTY, steps), wallet).books).(flagged := {})
         == Project(reg, WalletScope(wallet), Rebuild(reg, History(EMPTY, others), wallet).books).(flagged := {})
  {
    HistoryGrounded(NO_EVENTS, reg, WalletScope(wallet), EMPTY, steps);
    HistoryGrounded(NO_EVENTS, reg, WalletScope(wallet), EMPTY, others);
    RebuildIsReplay(reg, History(EMPTY, steps), wallet);
    RebuildIsReplay(reg, History(EMPTY, others), wallet);
  }

  /** A registry with all the earlier events, each still in its wallet, extends the earlier one as far as any
      wallet is concerned, whatever else has changed: new events, classifications, assets, owners. */
  lemma ArrivalsExtend(before: Registry, after: Registry, wallet: nat)
    requires DistinctIds(after.events)
    requires forall e :: e in before.events ==> exists f :: f in after.events && f.id == e.id && f.wallet == e.wallet
    ensures Extends(before, after, WalletScope(wallet))
  {
    forall id: nat | Known(before, id)
      ensures Known(after, id) && (Inside(before, WalletScope(wallet), id) <==> Inside(after, WalletScope(wallet), id))
    {
      FindIsMember(before.events, id);
      var e := FindEvent(before.events, id).value;
      var f :| f in after.events && f.id == e.id && f.wallet == e.wallet;
      FindRegistered(after.events, f);
    }
  }

  // ---- A second pass ----

  /** The event has left its mark, or can never leave one. */
  ghost predicate Settled(reg: Registry, b: Books, e: Event) {
    match TreatmentOf(e)
    case Nothing | Wait => true
    case Acquire => HasLot(b, e.id)
    case Dispose => HasDisposal(b, e.id) || (e.token.Some? && e.amount <= 0)
    case GiveAway => HasRelocation(b, e.id) || (e.token.Some? && e.amount <= 0 && e.id in b.flagged)
    case Relocate => HasRelocation(b, e.id)
        || (SourceEvent(reg, e).Some? && (e.token.None? || e.amount <= 0)
           && (e.resolution == Some(RelocateGift) ==> e.id in b.flagged))
    case Lend => e.id in b.flagged
  }

  lemma EmptySelection(lots: seq<Lot>, wallet: nat, pool: Pool, strategy: LotMethod, quantity: int)
    requires quantity <= 0
    ensures Select(lots, wallet, pool, strategy, quantity) == Covered([])
  {
  }

  lemma {:induction false} NothingMoved(lots: seq<Lot>, to: nat, entity: Option<nat>,
                                        acquisition: Option<AcquisitionType>)
    ensures Move(lots, [], to, entity, acquisition) == lots
  {
    if lots != [] {
      NothingMoved(lots[1..], to, entity, acquisition);
    }
  }

  lemma SettledRelocationIsIdle(reg: Registry, b: Books, e: Event)
    requires TreatmentOf(e) == Relocate && Settled(reg, b, e)
    ensures ApplyRelocation(reg, b, e) == Posted(b)
  {
    if !HasRelocation(b, e.id) {
      assert FlagGift(b, e) == b by {
        if e.resolution == Some(RelocateGift) { assert b.flagged + {e.id} == b.flagged; }
      }
      if e.token.Some? {
        EmptySelection(b.lots, SourceEvent(reg, e).value.wallet, CanonicalPool(reg, e.token.value), Fifo, e.amount);
        NothingMoved(b.lots, e.wallet, EntityFor(reg.assignments, e.wallet, e.occurredAt.date), RetypedAs(e));
        assert PostMove(reg, b, e, SourceEvent(reg, e).value.wallet, []) == b;
      }
    }
  }

  lemma SettledDisposalIsIdle(reg: Registry, b: Books, e: Event)
    requires TreatmentOf(e) == Dispose && Settled(reg, b, e)
    ensures ApplyDispose(reg, b, e) == Posted(b)
  {
    if !HasDisposal(b, e.id) {
      EmptySelection(b.lots, e.wallet, CanonicalPool(reg, e.token.value), MethodFor(reg, e), e.amount);
      NothingDeducted(b.lots);
      assert PostDisposal(b, e, [], MethodFor(reg, e)) == b;
    }
  }

  lemma SettledGiftIsIdle(reg: Registry, b: Books, e: Event)
    requires TreatmentOf(e) == GiveAway && Settled(reg, b, e)
    ensures ApplyGift(reg, b, e) == Posted(b)
  {
    if !HasRelocation(b, e.id) {
      EmptySelection(b.lots, e.wallet, CanonicalPool(reg, e.token.value), MethodFor(reg, e), e.amount);
      NothingDeducted(b.lots);
      assert b.flagged + {e.id} == b.flagged;
      assert PostGift(b, e, []) == b;
    }
  }

  lemma SettledIsIdle(reg: Registry, b: Books, e: Event)
    requires Settled(reg, b, e)
    ensures Apply(reg, b, e) == Posted(b)
  {
    match TreatmentOf(e) {
      case Lend => assert b.flagged + {e.id} == b.flagged;
      case Dispose => SettledDisposalIsIdle(reg, b, e);
      case GiveAway => SettledGiftIsIdle(reg, b, e);
      case Relocate => SettledRelocationIsIdle(reg, b, e);
      case _ =>
    }
  }

  /** Marks are never taken back by a pass. */
  ghost predicate Grows(before: Books, after: Books) {
    && KeepsSources(before.lots, after.lots)
    && before.disposals <= after.disposals
    && before.relocations <= after.relocations
    && before.failures <= after.failures
    && before.flagged <= after.flagged
  }

  lemma GrowthKeepsSettled(reg: Registry, before: Books, after: Books, e: Event)
    requires Grows(before, after) && Settled(reg, before, e)
    ensures Settled(reg, after, e)
  {
    if HasLot(before, e.id) {
      var i :| 0 <= i < |before.lots| && before.lots[i].source == e.id;
      assert after.lots[i].source == e.id;
    }
    if HasDisposal(before, e.id) {
      var i :| 0 <= i < |before.disposals| && before.disposals[i].tx == e.id;
      assert after.disposals[i].tx == e.id;
    }
    if HasRelocation(before, e.id) {
      var i :| 0 <= i < |before.relocations| && before.relocations[i].tx == e.id;
      assert after.relocations[i].tx == e.id;
    }
  }

  lemma DisposeSettles(reg: Registry, b: Books, e: Event)
    requires TreatmentOf(e) == Dispose
    ensures var next := ApplyDispose(reg, b, e).books;
            Grows(b, next) && (next.failures == b.failures ==> Settled(reg, next, e))
  {
    if !HasDisposal(b, e.id) && e.token.Some? {
      var pool, strategy := CanonicalPool(reg, e.token.value), MethodFor(reg, e);
      SelectionCovered(b.lots, e.wallet, pool, strategy, e.amount);
      SelectCovers(b.lots, e.wallet, pool, strategy, e.amount);
      match Select(b.lots, e.wallet, pool, strategy, e.amount) {
        case Insufficient(_) =>
        case Covered(slices) =>
          if slices != [] {
            var lines := BuildLines(slices, ProceedsOf(e), e.occurredAt, strategy);
            LinesKeepSlices(slices, Taken(slices), ProceedsOf(e), 0, e.occurredAt, strategy);
            var next := PostDisposal(b, e, slices, strategy);
            assert next.disposals[|b.disposals|] == DisposalRows(e, lines)[0];
          }
      }
    }
  }

  lemma SelectionCovered(lots: seq<Lot>, wallet: nat, pool: Pool, strategy: LotMethod, quantity: int)
    ensures var a := Select(lots, wallet, pool, strategy, quantity);
            a.Covered? ==> (a.slices == [] <==> quantity <= 0)
  {
    var open := OpenLots(lots, wallet, pool);
    SortMembers(open, OrderKey(strategy));
    if Consume(OrderLots(strategy, open), quantity).Covered? {
      ConsumePrefix(OrderLots(strategy, open), quantity);
    }
  }

  lemma GiftSettles(reg: Registry, b: Books, e: Event)
    requires TreatmentOf(e) == GiveAway
    ensures var next := ApplyGift(reg, b, e).books;
            Grows(b, next) && (next.failures == b.failures ==> Settled(reg, next, e))
  {
    if !HasRelocation(b, e.id) && e.token.Some? {
      var pool, strategy := CanonicalPool(reg, e.token.value), MethodFor(reg, e);
      SelectionCovered(b.lots, e.wallet, pool, strategy, e.amount);
      match Select(b.lots, e.wallet, pool, strategy, e.amount) {
        case Insufficient(_) =>
        case Covered(slices) =>
          if slices != [] {
            var next := PostGift(b, e, slices);
            assert next.relocations[|b.relocations|] == RelocationRows(e, slices, e.wallet, e.wallet, Gifted)[0];
          }
      }
    }
  }

  lemma RelocationSettles(reg: Registry, b: Books, e: Event)
    requires TreatmentOf(e) == Relocate && ApplyRelocation(reg, b, e).Posted?
    ensures var next := ApplyRelocation(reg, b, e).books;
            Grows(b, next) && (next.failures == b.failures ==> Settled(reg, next, e))
  {
    if !HasRelocation(b, e.id) && SourceEvent(reg, e).Some? && e.token.Some? {
      var from, pool := SourceEvent(reg, e).value.wallet, CanonicalPool(reg, e.token.value);
      SelectionCovered(b.lots, from, pool, Fifo, e.amount);
      match Select(b.lots, from, pool, Fifo, e.amount) {
        case Insufficient(_) =>
        case Covered(slices) =>
          if slices != [] {
            var next := PostMove(reg, b, e, from, slices);
            assert next.relocations[|b.relocations|] == RelocationRows(e, slices, from, e.wallet, MoveReasonOf(e))[0];
          }
      }
    }
  }

  lemma ApplySettles(reg: Registry, b: Books, e: Event)
    requires Apply(reg, b, e).Posted?
    ensures var next := Apply(reg, b, e).books;
            Grows(b, next) && (next.failures == b.failures ==> Settled(reg, next, e))
  {
    match TreatmentOf(e) {
      case Acquire =>
        var next := ApplyAcquire(reg, b, e).books;
        if next.lots != b.lots {
          assert next.lots[|b.lots|].source == e.id;
        }
      case Dispose => DisposeSettles(reg, b, e);
      case Relocate => RelocationSettles(reg, b, e);
      case GiveAway => GiftSettles(reg, b, e);
      case _ =>
    }
  }

  lemma {:induction false} RunSettles(reg: Registry, b: Books, events: seq<Event>)
    requires Run(reg, b, events).Posted?
    ensures var next := Run(reg, b, events).books;
            Grows(b, next) && (next.failures == b.failures ==> forall e :: e in events ==> Settled(reg, next, e))
    decreases events
  {
    if events != [] {
      ApplySettles(reg, b, events[0]);
      var mid := Apply(reg, b, events[0]).books;
      RunSettles(reg, mid, events[1..]);
      var next := Run(reg, b, events).books;
      if next.failures == b.failures {
        assert mid.failures == b.failures;
        GrowthKeepsSettled(reg, mid, next, events[0]);
      }
    }
  }

  lemma {:induction false} SettledRun(reg: Registry, b: Books, events: seq<Event>)
    requires forall e :: e in events ==> Settled(reg, b, e)
    ensures Run(reg, b, events) == Posted(b)
    decreases events
  {
    if events != [] {
      SettledIsIdle(reg, b, events[0]);
      SettledRun(reg, b, events[1..]);
    }
  }

  /** After a pass that records no failure, a second pass changes nothing at all. */
  lemma SecondPassIsIdle(reg: Registry, b: Books, events: seq<Event>)
    requires Run(reg, b, events).Posted? && Run(reg, b, events).books.failures == b.failures
    ensures Run(reg, Run(reg, b, events).books, events) == Run(reg, b, events)
  {
    RunSettles(reg, b, events);
    SettledRun(reg, Run(reg, b, events).books, events);
  }
}
