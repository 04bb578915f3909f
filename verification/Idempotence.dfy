/** When rebuilding a wallet a second time changes nothing. */
module Idempotence {
  import opened Calendar
  import opened Sequences
  import opened Lots
  import opened Disposals
  import opened Events
  import opened Books
  import opened Conservation
  import opened Guarantees
  import opened Scopes
  import opened Passes
  import opened Rebuilding
  import opened Repeats

  // ---- A replay that brings nothing in ----

  /** No relocation row added since shows a lot coming from another wallet. */
  ghost predicate NothingCameIn(before: Books, after: Books, wallet: nat) {
    forall i :: |before.relocations| <= i < |after.relocations| ==> after.relocations[i].from == wallet
  }

  /** What has been added since `base` is about the wallet's own lots and events, and the base is as it was. */
  ghost predicate OwnGrowth(reg: Registry, base: Books, b: Books, wallet: nat) {
    && base.lots <= b.lots && base.disposals <= b.disposals && base.relocations <= b.relocations
    && base.gifts <= b.gifts && base.failures <= b.failures && base.flagged <= b.flagged
    && (forall i :: |base.disposals| <= i < |b.disposals| ==> LotIn(b, b.disposals[i].lot, wallet))
    && (forall i :: |base.gifts| <= i < |b.gifts| ==> LotIn(b, b.gifts[i].lot, wallet))
    && (forall i :: |base.failures| <= i < |b.failures| ==> EventOf(reg, b.failures[i].tx, wallet))
  }

  ghost predicate AllElsewhere(lots: seq<Lot>, wallet: nat) {
    forall i :: 0 <= i < |lots| ==> lots[i].wallet != wallet
  }

  lemma SparedByDeduct(base: seq<Lot>, lots: seq<Lot>, wallet: nat, pool: Pool, slices: seq<Slice>)
    requires DistinctSources(lots) && FromPool(lots, wallet, pool, slices)
    requires base <= lots && AllElsewhere(base, wallet)
    ensures base <= Deduct(lots, slices)
  {
    forall k | 0 <= k < |base| ensures Deduct(lots, slices)[k] == base[k] {
      assert base[k] == lots[k];
      if Touches(slices, lots[k].source) {
        TouchedLotKey(lots, wallet, pool, slices, k);
      }
      TakeOfUntouched(slices, lots[k].source);
    }
  }

  lemma SparedByMove(base: seq<Lot>, lots: seq<Lot>, wallet: nat, pool: Pool, slices: seq<Slice>, to: nat,
                     entity: Option<nat>, acquisition: Option<AcquisitionType>)
    requires DistinctSources(lots) && FromPool(lots, wallet, pool, slices)
    requires base <= lots && AllElsewhere(base, wallet)
    ensures base <= Move(lots, slices, to, entity, acquisition)
  {
    forall k | 0 <= k < |base| ensures Move(lots, slices, to, entity, acquisition)[k] == base[k] {
      assert base[k] == lots[k];
      if Touches(slices, lots[k].source) {
        TouchedLotKey(lots, wallet, pool, slices, k);
      }
    }
  }

  lemma SliceStays(b: Books, next: Books, wallet: nat, pool: Pool, slices: seq<Slice>, i: nat)
    requires FromPool(b.lots, wallet, pool, slices) && i < |slices| && Gathers(b.lots, next.lots, wallet)
    ensures LotIn(next, slices[i].lot.source, wallet)
  {
    assert slices[i].lot in b.lots && LotKey(slices[i].lot) == Key(wallet, Some(pool));
    var k :| 0 <= k < |b.lots| && b.lots[k] == slices[i].lot;
    assert next.lots[k].source == slices[i].lot.source && next.lots[k].wallet == wallet;
  }

  /** The rows booked earlier keep to the wallet's lots when these only stay or come in. */
  lemma OwnRowsStay(reg: Registry, base: Books, b: Books, next: Books, wallet: nat)
    requires OwnGrowth(reg, base, b, wallet) && Gathers(b.lots, next.lots, wallet)
    ensures forall i :: |base.disposals| <= i < |b.disposals| ==> LotIn(next, b.disposals[i].lot, wallet)
    ensures forall i :: |base.gifts| <= i < |b.gifts| ==> LotIn(next, b.gifts[i].lot, wallet)
  {
    forall i | |base.disposals| <= i < |b.disposals| ensures LotIn(next, b.disposals[i].lot, wallet) {
      LotInStays(b, next, wallet, b.disposals[i].lot);
    }
    forall i | |base.gifts| <= i < |b.gifts| ensures LotIn(next, b.gifts[i].lot, wallet) {
      LotInStays(b, next, wallet, b.gifts[i].lot);
    }
  }

  lemma NewDisposalsStay(b: Books, next: Books, e: Event, lines: seq<Line>, pool: Pool, slices: seq<Slice>)
    requires FromPool(b.lots, e.wallet, pool, slices) && Gathers(b.lots, next.lots, e.wallet)
    requires |lines| == |slices| && forall i :: 0 <= i < |lines| ==> lines[i].lot == slices[i].lot
    requires next.disposals == b.disposals + DisposalRows(e, lines)
    ensures forall i :: |b.disposals| <= i < |next.disposals| ==> LotIn(next, next.disposals[i].lot, e.wallet)
  {
    forall i | |b.disposals| <= i < |next.disposals| ensures LotIn(next, next.disposals[i].lot, e.wallet) {
      assert next.disposals[i] == DisposalRows(e, lines)[i - |b.disposals|];
      SliceStays(b, next, e.wallet, pool, slices, i - |b.disposals|);
    }
  }

  lemma PostDisposalOwn(reg: Registry, base: Books, b: Books, e: Event, pool: Pool, slices: seq<Slice>,
                        strategy: LotMethod)
    requires DistinctSources(b.lots) && OwnGrowth(reg, base, b, e.wallet) && AllElsewhere(base.lots, e.wallet)
    requires FromPool(b.lots, e.wallet, pool, slices) && (slices != [] ==> Taken(slices) > 0)
    ensures OwnGrowth(reg, base, PostDisposal(b, e, slices, strategy), e.wallet)
  {
    var next, lines := PostDisposal(b, e, slices, strategy), BuildLines(slices, ProceedsOf(e), e.occurredAt, strategy);
    SparedByDeduct(base.lots, b.lots, e.wallet, pool, slices);
    OwnRowsStay(reg, base, b, next, e.wallet);
    if slices != [] {
      LinesKeepSlices(slices, Taken(slices), ProceedsOf(e), 0, e.occurredAt, strategy);
    }
    NewDisposalsStay(b, next, e, lines, pool, slices);
  }

  lemma NewGiftsStay(b: Books, next: Books, e: Event, pool: Pool, slices: seq<Slice>)
    requires FromPool(b.lots, e.wallet, pool, slices) && Gathers(b.lots, next.lots, e.wallet)
    requires next.gifts == b.gifts + GiftRows(e, slices)
    ensures forall i :: |b.gifts| <= i < |next.gifts| ==> LotIn(next, next.gifts[i].lot, e.wallet)
  {
    forall i | |b.gifts| <= i < |next.gifts| ensures LotIn(next, next.gifts[i].lot, e.wallet) {
      assert next.gifts[i] == GiftRows(e, slices)[i - |b.gifts|];
      SliceStays(b, next, e.wallet, pool, slices, i - |b.gifts|);
    }
  }

  lemma PostGiftOwn(reg: Registry, base: Books, b: Books, e: Event, pool: Pool, slices: seq<Slice>)
    requires DistinctSources(b.lots) && OwnGrowth(reg, base, b, e.wallet) && AllElsewhere(base.lots, e.wallet)
    requires FromPool(b.lots, e.wallet, pool, slices)
    ensures OwnGrowth(reg, base, PostGift(b, e, slices), e.wallet)
  {
    var next := PostGift(b, e, slices);
    SparedByDeduct(base.lots, b.lots, e.wallet, pool, slices);
    OwnRowsStay(reg, base, b, next, e.wallet);
    NewGiftsStay(b, next, e, pool, slices);
  }

  lemma PostMoveOwn(reg: Registry, base: Books, b: Books, e: Event, from: nat, pool: Pool, slices: seq<Slice>)
    requires DistinctSources(b.lots) && OwnGrowth(reg, base, b, e.wallet) && AllElsewhere(base.lots, e.wallet)
    requires FromPool(b.lots, from, pool, slices) && (from == e.wallet || slices == [])
    ensures OwnGrowth(reg, base, PostMove(reg, b, e, from, slices), e.wallet)
  {
    var entity, next := EntityFor(reg.assignments, e.wallet, e.occurredAt.date), PostMove(reg, b, e, from, slices);
    if slices == [] {
      NothingMoved(b.lots, e.wallet, entity, RetypedAs(e));
    } else {
      SparedByMove(base.lots, b.lots, from, pool, slices, e.wallet, entity, RetypedAs(e));
    }
    MoveGathers(b.lots, slices, e.wallet, entity, RetypedAs(e));
    OwnRowsStay(reg, base, b, next, e.wallet);
  }

  lemma FailOwn(reg: Registry, base: Books, b: Books, e: Event, reason: Reason, unmatched: Option<int>)
    requires OwnGrowth(reg, base, b, e.wallet) && e in reg.events
    ensures OwnGrowth(reg, base, Fail(b, e, reason, unmatched), e.wallet)
  {
    var next := Fail(b, e, reason, unmatched);
    assert EventOf(reg, e.id, e.wallet);
    OwnRowsStay(reg, base, b, next, e.wallet);
  }

  lemma FlagOwn(reg: Registry, base: Books, b: Books, flags: set<nat>, wallet: nat)
    requires OwnGrowth(reg, base, b, wallet)
    ensures OwnGrowth(reg, base, b.(flagged := b.flagged + flags), wallet)
  {
    OwnRowsStay(reg, base, b, b.(flagged := b.flagged + flags), wallet);
  }

  lemma AcquireOwn(reg: Registry, base: Books, b: Books, e: Event)
    requires OwnGrowth(reg, base, b, e.wallet) && e in reg.events && ApplyAcquire(reg, b, e).Posted?
    ensures OwnGrowth(reg, base, ApplyAcquire(reg, b, e).books, e.wallet)
  {
    var next := ApplyAcquire(reg, b, e).books;
    FailOwn(reg, base, b, e, MissingBasis, None);
    if next.lots != b.lots {
      OwnRowsStay(reg, base, b, next, e.wallet);
    }
  }

  lemma DisposeOwn(reg: Registry, base: Books, b: Books, e: Event)
    requires DistinctSources(b.lots) && OwnGrowth(reg, base, b, e.wallet) && AllElsewhere(base.lots, e.wallet)
    requires e in reg.events
    ensures OwnGrowth(reg, base, ApplyDispose(reg, b, e).books, e.wallet)
  {
    if !HasDisposal(b, e.id) {
      if e.token.None? {
        FailOwn(reg, base, b, e, MissingBasis, None);
      } else {
        var pool, strategy := CanonicalPool(reg, e.token.value), MethodFor(reg, e);
        SelectionFromPool(b.lots, e.wallet, pool, strategy, e.amount);
        SelectCovers(b.lots, e.wallet, pool, strategy, e.amount);
        match Select(b.lots, e.wallet, pool, strategy, e.amount) {
          case Insufficient(u) => FailOwn(reg, base, b, e, InsufficientLots, Some(u));
          case Covered(slices) => PostDisposalOwn(reg, base, b, e, pool, slices, strategy);
        }
      }
    }
  }

  lemma GiftOwn(reg: Registry, base: Books, b: Books, e: Event)
    requires DistinctSources(b.lots) && OwnGrowth(reg, base, b, e.wallet) && AllElsewhere(base.lots, e.wallet)
    requires e in reg.events
    ensures OwnGrowth(reg, base, ApplyGift(reg, b, e).books, e.wallet)
  {
    if !HasRelocation(b, e.id) {
      if e.token.None? {
        FailOwn(reg, base, b, e, MissingBasis, None);
      } else {
        var pool, strategy := CanonicalPool(reg, e.token.value), MethodFor(reg, e);
        SelectionFromPool(b.lots, e.wallet, pool, strategy, e.amount);
        match Select(b.lots, e.wallet, pool, strategy, e.amount) {
          case Insufficient(u) => FailOwn(reg, base, b, e, InsufficientLots, Some(u));
          case Covered(slices) => PostGiftOwn(reg, base, b, e, pool, slices);
        }
      }
    }
  }

  lemma RelocateOwn(reg: Registry, base: Books, b: Books, e: Event)
    requires DistinctSources(b.lots) && OwnGrowth(reg, base, b, e.wallet) && AllElsewhere(base.lots, e.wallet)
    requires e in reg.events && ApplyRelocation(reg, b, e).Posted?
    requires NothingCameIn(b, ApplyRelocation(reg, b, e).books, e.wallet)
    ensures OwnGrowth(reg, base, ApplyRelocation(reg, b, e).books, e.wallet)
  {
    if !HasRelocation(b, e.id) {
      FlagOwn(reg, base, b, {e.id}, e.wallet);
      if SourceEvent(reg, e).None? {
        FailOwn(reg, base, b, e, MissingBasis, None);
      } else if e.token.Some? {
        var from, pool := SourceEvent(reg, e).value.wallet, CanonicalPool(reg, e.token.value);
        SelectionFromPool(b.lots, from, pool, Fifo, e.amount);
        match Select(b.lots, from, pool, Fifo, e.amount) {
          case Insufficient(_) =>
          case Covered(slices) =>
            if slices != [] {
              var row := RelocationRows(e, slices, from, e.wallet, MoveReasonOf(e))[0];
              assert ApplyRelocation(reg, b, e).books.relocations[|b.relocations|] == row;
            }
            PostMoveOwn(reg, base, b, e, from, pool, slices);
            FlagOwn(reg, base, PostMove(reg, b, e, from, slices), {e.id}, e.wallet);
        }
      }
    }
  }

  lemma ApplyOwn(reg: Registry, base: Books, b: Books, e: Event)
    requires DistinctSources(b.lots) && OwnGrowth(reg, base, b, e.wallet) && AllElsewhere(base.lots, e.wallet)
    requires e in reg.events && Apply(reg, b, e).Posted?
    requires NothingCameIn(b, Apply(reg, b, e).books, e.wallet)
    ensures OwnGrowth(reg, base, Apply(reg, b, e).books, e.wallet)
  {
    match TreatmentOf(e) {
      case Acquire => AcquireOwn(reg, base, b, e);
      case Dispose => DisposeOwn(reg, base, b, e);
      case Relocate => RelocateOwn(reg, base, b, e);
      case GiveAway => GiftOwn(reg, base, b, e);
      case Lend => FlagOwn(reg, base, b, {e.id}, e.wallet);
      case _ =>
    }
  }

  lemma {:induction false} RunOwn(reg: Registry, base: Books, b: Books, events: seq<Event>, wallet: nat)
    requires Sound(b) && OwnGrowth(reg, base, b, wallet) && AllElsewhere(base.lots, wallet)
    requires forall e :: e in events ==> e in reg.events && e.wallet == wallet
    requires Run(reg, b, events).Posted? && NothingCameIn(b, Run(reg, b, events).books, wallet)
    ensures OwnGrowth(reg, base, Run(reg, b, events).books, wallet)
    decreases events
  {
    if events != [] {
      var e, next, final := events[0], Apply(reg, b, events[0]).books, Run(reg, b, events).books;
      assert e in events;
      ApplySound(reg, b, e);
      ApplySettles(reg, b, e);
      RunSettles(reg, next, events[1..]);
      assert forall i :: |b.relocations| <= i < |next.relocations| ==> final.relocations[i] == next.relocations[i];
      ApplyOwn(reg, base, b, e);
      RunOwn(reg, base, next, events[1..], wallet);
    }
  }

  // ---- Wiping what has just been rebuilt ----

  /** Relocation rows are about lots in the table: the foreign key of lot_relocations. */
  ghost predicate MovesKnown(b: Books) {
    forall i :: 0 <= i < |b.relocations| ==> HasSource(b.lots, b.relocations[i].lot)
  }

  lemma RowsKnown(b: Books)
    requires Sound(b)
    ensures forall i :: 0 <= i < |b.disposals| ==> HasSource(b.lots, b.disposals[i].lot)
    ensures forall i :: 0 <= i < |b.gifts| ==> HasSource(b.lots, b.gifts[i].lot)
  {
    DisposalCutsAt(b.disposals);
    GiftCutsAt(b.gifts);
    forall i | 0 <= i < |b.disposals| ensures HasSource(b.lots, b.disposals[i].lot) {
      assert HasSource(b.lots, Cuts(b)[i].lot);
    }
    forall i | 0 <= i < |b.gifts| ensures HasSource(b.lots, b.gifts[i].lot) {
      assert HasSource(b.lots, Cuts(b)[|b.disposals| + i].lot);
    }
  }

  lemma WipeKnows(reg: Registry, b: Books, wallet: nat)
    requires MovesKnown(b)
    ensures MovesKnown(Wipe(reg, b, wallet))
  {
    var wiped := Wipe(reg, b, wallet);
    forall i | 0 <= i < |wiped.relocations| ensures HasSource(wiped.lots, wiped.relocations[i].lot) {
      assert wiped.relocations[i] in b.relocations;
      LotKeptByWipe(reg, b, wallet, wiped.relocations[i].lot);
    }
  }

  /** A lot held elsewhere at the base is not the wallet's now. */
  lemma BaseLotNotHere(base: Books, b: Books, wallet: nat, id: nat)
    requires DistinctSources(b.lots) && base.lots <= b.lots && AllElsewhere(base.lots, wallet)
    requires HasSource(base.lots, id)
    ensures !LotIn(b, id, wallet)
  {
    var j :| 0 <= j < |base.lots| && base.lots[j].source == id;
    assert b.lots[j] == base.lots[j];
  }

  lemma {:induction false} FilterPrefix<T(!new)>(base: seq<T>, s: seq<T>, p: T -> bool)
    requires base <= s
    requires forall i :: 0 <= i < |base| ==> p(base[i])
    requires forall i :: |base| <= i < |s| ==> !p(s[i])
    ensures Filter(s, p) == base
  {
    if base == [] {
      FilterNone(s, p);
    } else {
      assert s[0] == base[0];
      FilterPrefix(base[1..], s[1..], p);
    }
  }

  /** After a replay that brought nothing in, a wipe leads back to where it started. */
  lemma WipeAgain(reg: Registry, b: Books, wallet: nat, again: Books)
    requires Sound(b) && MovesKnown(b) && Sound(again)
    requires var base := Wipe(reg, b, wallet);
             OwnGrowth(reg, base, again, wallet) && Gathered(base, again, wallet)
    ensures Wipe(reg, again, wallet) == Wipe(reg, b, wallet).(flagged := again.flagged)
  {
    var base := Wipe(reg, b, wallet);
    WipeSound(reg, b, wallet);
    WipeKnows(reg, b, wallet);
    RowsKnown(base);
    AllWiped(reg, b, wallet);
    FilterPrefix(base.lots, again.lots, HeldElsewhere(wallet));
    forall i | 0 <= i < |base.disposals| ensures OnOtherLot(again, wallet)(base.disposals[i]) {
      BaseLotNotHere(base, again, wallet, base.disposals[i].lot);
    }
    FilterPrefix(base.disposals, again.disposals, OnOtherLot(again, wallet));
    forall i | 0 <= i < |base.relocations| ensures MovesOtherLot(again, wallet)(base.relocations[i]) {
      BaseLotNotHere(base, again, wallet, base.relocations[i].lot);
    }
    FilterPrefix(base.relocations, again.relocations, MovesOtherLot(again, wallet));
    forall i | 0 <= i < |base.gifts| ensures GivesOtherLot(again, wallet)(base.gifts[i]) {
      BaseLotNotHere(base, again, wallet, base.gifts[i].lot);
    }
    FilterPrefix(base.gifts, again.gifts, GivesOtherLot(again, wallet));
    forall i | 0 <= i < |base.failures| ensures FailedElsewhere(reg, wallet)(base.failures[i]) {
      assert base.failures[i] in base.failures;
    }
    FilterPrefix(base.failures, again.failures, FailedElsewhere(reg, wallet));
  }

  lemma AllWiped(reg: Registry, b: Books, wallet: nat)
    ensures AllElsewhere(Wipe(reg, b, wallet).lots, wallet)
  {
    var wiped := Wipe(reg, b, wallet);
    forall i | 0 <= i < |wiped.lots| ensures wiped.lots[i].wallet != wallet {
      assert wiped.lots[i] in wiped.lots;
    }
  }

  // ---- Rebuilding twice ----

  /** The books show no lot of the wallet's to have come from another wallet. */
  ghost predicate NoneCameIn(b: Books, wallet: nat) {
    forall row :: row in b.relocations && LotIn(b, row.lot, wallet) ==> row.from == wallet
  }

  lemma RebuildGathers(reg: Registry, b: Books, wallet: nat)
    requires Sound(b) && Rebuild(reg, b, wallet).Posted?
    ensures Gathered(Wipe(reg, b, wallet), Rebuild(reg, b, wallet).books, wallet)
  {
    var wiped := Wipe(reg, b, wallet);
    WipeSound(reg, b, wallet);
    WalletEventsOfWallet(reg, wallet);
    GatheredRun(reg, wiped, wiped, WalletEvents(reg, wallet), wallet);
  }

  /** If nothing came in, the second rebuild starts where the first did. */
  lemma NoneCameInIsIdle(reg: Registry, b: Books, wallet: nat)
    requires Sound(b) && MovesKnown(b) && Rebuild(reg, b, wallet).Posted?
    requires NoneCameIn(Rebuild(reg, b, wallet).books, wallet)
    ensures Rebuild(reg, Rebuild(reg, b, wallet).books, wallet) == Rebuild(reg, b, wallet)
  {
    var wiped, events, once := Wipe(reg, b, wallet), WalletEvents(reg, wallet), Rebuild(reg, b, wallet).books;
    RebuildGathers(reg, b, wallet);
    WipeSound(reg, b, wallet);
    WalletEventsOfWallet(reg, wallet);
    AllWiped(reg, b, wallet);
    forall i | |wiped.relocations| <= i < |once.relocations| ensures once.relocations[i].from == wallet {
      assert once.relocations[i] in once.relocations;
    }
    RunOwn(reg, wiped, wiped, events, wallet);
    WipeAgain(reg, b, wallet, once);
    FlagsUnreadRun(reg, wiped, events, once.flagged);
    assert wiped.flagged + once.flagged == once.flagged == once.flagged + once.flagged;
    assert WithFlags(wiped, once.flagged) == Wipe(reg, once, wallet);
    assert WithFlags(once, once.flagged) == once;
  }

  lemma NotBothPlaces(reg: Registry, b: Books, wallet: nat, id: nat)
    requires DistinctSources(b.lots) && LotIn(b, id, wallet)
    ensures !HasLot(Wipe(reg, b, wallet), id)
  {
    var l :| 0 <= l < |b.lots| && b.lots[l].source == id && b.lots[l].wallet == wallet;
    WipedIsGone(reg, b, wallet, b.lots[l]);
  }

  /** If something came in, the second rebuild drops the row that shows it and cannot book it again. */
  lemma IdleBroughtNothingIn(reg: Registry, b: Books, wallet: nat)
    requires Sound(b) && Rebuild(reg, b, wallet) == Posted(b)
    ensures NoneCameIn(b, wallet)
  {
    var wiped := Wipe(reg, b, wallet);
    RebuildGathers(reg, b, wallet);
    assert Gathered(wiped, b, wallet);
    forall i | 0 <= i < |wiped.relocations| ensures !LotIn(b, b.relocations[i].lot, wallet) {
      assert b.relocations[i] == wiped.relocations[i] && wiped.relocations[i] in wiped.relocations;
    }
    forall row | row in b.relocations && LotIn(b, row.lot, wallet) ensures row.from == wallet {
      var i :| 0 <= i < |b.relocations| && b.relocations[i] == row;
      NotBothPlaces(reg, b, wallet, row.lot);
      assert i >= |wiped.relocations|;
    }
  }

  /** A rebuild repeated at once changes nothing exactly when, after the first, no relocation row shows a lot of
      the wallet's to have come from another wallet. */
  lemma RebuildTwiceIsIdleIff(reg: Registry, b: Books, wallet: nat)
    requires Sound(b) && MovesKnown(b) && Rebuild(reg, b, wallet).Posted?
    ensures Rebuild(reg, Rebuild(reg, b, wallet).books, wallet) == Rebuild(reg, b, wallet)
            <==> NoneCameIn(Rebuild(reg, b, wallet).books, wallet)
  {
    var once := Rebuild(reg, b, wallet).books;
    if NoneCameIn(once, wallet) {
      NoneCameInIsIdle(reg, b, wallet);
    }
    if Rebuild(reg, once, wallet) == Posted(once) {
      WipeSound(reg, b, wallet);
      RunSound(reg, Wipe(reg, b, wallet), WalletEvents(reg, wallet));
      IdleBroughtNothingIn(reg, once, wallet);
    }
  }

  // ---- Any history will do ----

  lemma ApplyKnows(reg: Registry, b: Books, e: Event)
    requires Sound(b) && MovesKnown(b) && Apply(reg, b, e).Posted?
    ensures MovesKnown(Apply(reg, b, e).books)
  {
    var next := Apply(reg, b, e).books;
    ApplyGathers(reg, b, e);
    ApplyRowsGathered(reg, b, e);
    forall i | 0 <= i < |next.relocations| ensures HasSource(next.lots, next.relocations[i].lot) {
      if i < |b.relocations| {
        assert next.relocations[i] == b.relocations[i] && HasSource(b.lots, b.relocations[i].lot);
        LotsOutlast(b, next, b.relocations[i].lot);
      } else {
        assert RowGathered(b.lots, next, e.wallet, next.relocations[i]);
      }
    }
  }

  lemma {:induction false} RunKnows(reg: Registry, b: Books, events: seq<Event>)
    requires Sound(b) && MovesKnown(b) && Run(reg, b, events).Posted?
    ensures MovesKnown(Run(reg, b, events).books)
    decreases events
  {
    if events != [] {
      ApplySound(reg, b, events[0]);
      ApplyKnows(reg, b, events[0]);
      RunKnows(reg, Apply(reg, b, events[0]).books, events[1..]);
    }
  }

  lemma AfterKnows(b: Books, step: Step)
    requires Sound(b) && MovesKnown(b)
    ensures MovesKnown(After(b, step))
  {
    match step {
      case Pass(reg, events) => if Run(reg, b, events).Posted? { RunKnows(reg, b, events); }
      case Rebuilding(reg, wallet) =>
        WipeSound(reg, b, wallet);
        WipeKnows(reg, b, wallet);
        if Rebuild(reg, b, wallet).Posted? {
          RunKnows(reg, Wipe(reg, b, wallet), WalletEvents(reg, wallet));
        }
    }
  }

  lemma {:induction false} HistoryKnows(b: Books, steps: seq<Step>)
    requires Sound(b) && MovesKnown(b)
    ensures MovesKnown(History(b, steps))
    decreases steps
  {
    if steps != [] {
      AfterSound(b, steps[0]);
      AfterKnows(b, steps[0]);
      HistoryKnows(After(b, steps[0]), steps[1..]);
    }
  }

  /** Rebuilding is documented as idempotent.  After any history of passes and rebuilds it is, for a wallet and a
      rebuild that goes through, exactly when that rebuild leaves no relocation row that shows a lot of the
      wallet's to have come from another wallet. */
  lemma RebuildIdempotentIff(reg: Registry, steps: seq<Step>, wallet: nat)
    requires Rebuild(reg, History(EMPTY, steps), wallet).Posted?
    ensures var once := Rebuild(reg, History(EMPTY, steps), wallet).books;
            Rebuild(reg, once, wallet) == Posted(once) <==> NoneCameIn(once, wallet)
  {
    EmptySound();
    HistorySound(EMPTY, steps);
    HistoryKnows(EMPTY, steps);
    RebuildTwiceIsIdleIff(reg, History(EMPTY, steps), wallet);
  }

  // ---- A wallet that cannot be rebuilt twice ----

  const SENT := Event(3, 1, 3, DAY, 3, 0, BridgeOut, "", Some(7), 5, None, None, None)
  const ARRIVED := Event(4, 2, 4, DAY, 4, 0, BridgeIn, "", Some(7), 5, None, None, Some(3))
  const OWNED := [Assignment(1, 9, Date(2025, 1, 1), None), Assignment(2, 9, Date(2025, 1, 1), None)]
  const BRIDGED := Registry(map[], {}, map[], OWNED, {}, [PURCHASE, SENT, ARRIVED])
  const HELD := EMPTY.(lots := [BOUGHT])
  const MOVED := EMPTY.(lots := [BOUGHT.(wallet := 2)], relocations := [RelocationRow(2, 1, 2, Bridge, 4, DAY)])

  lemma EventsOfSender()
    ensures WalletEvents(BRIDGED, 1) == [PURCHASE, SENT]
  {
    var all := [PURCHASE, SENT, ARRIVED];
    assert all[1..] == [SENT, ARRIVED] && [SENT, ARRIVED][1..] == [ARRIVED] && [ARRIVED][1..] == [];
    assert Filter([ARRIVED], OfWallet(1)) == [];
    assert Filter([SENT, ARRIVED], OfWallet(1)) == [SENT];
    assert Filter(all, OfWallet(1)) == [PURCHASE, SENT];
    assert Sorted([PURCHASE, SENT], EventKey());
    SortOfSorted([PURCHASE, SENT], EventKey());
  }

  lemma EventsOfReceiver()
    ensures WalletEvents(BRIDGED, 2) == [ARRIVED]
  {
    var all := [PURCHASE, SENT, ARRIVED];
    assert all[1..] == [SENT, ARRIVED] && [SENT, ARRIVED][1..] == [ARRIVED] && [ARRIVED][1..] == [];
    assert Filter([ARRIVED], OfWallet(2)) == [ARRIVED];
    assert Filter([SENT, ARRIVED], OfWallet(2)) == [ARRIVED];
    assert Filter(all, OfWallet(2)) == [ARRIVED];
    SortOfSorted([ARRIVED], EventKey());
  }

  lemma PurchaseOpens()
    ensures Apply(BRIDGED, EMPTY, PURCHASE) == Posted(HELD)
  {
    assert EntityFor(OWNED, 1, DAY.date) == Some(9);
    assert !HasLot(EMPTY, 2);
    assert NewLot(BRIDGED, PURCHASE, 40, 9, 7) == BOUGHT;
    assert [] + [BOUGHT] == [BOUGHT];
  }

  lemma SentIsNothing()
    ensures Run(BRIDGED, HELD, [SENT]) == Posted(HELD)
  {
    assert TreatmentOf(SENT) == Nothing;
    assert [SENT][1..] == [] && Run(BRIDGED, HELD, []) == Posted(HELD);
  }

  lemma PurchaseHeld()
    ensures Run(BRIDGED, EMPTY, [PURCHASE, SENT]) == Posted(HELD)
  {
    var both := [PURCHASE, SENT];
    assert both[0] == PURCHASE && both[1..] == [SENT];
    PurchaseOpens();
    SentIsNothing();
  }

  lemma ArrivalSource()
    ensures SourceEvent(BRIDGED, ARRIVED) == Some(SENT) && EntityFor(OWNED, 2, DAY.date) == Some(9)
  {
    assert [PURCHASE, SENT, ARRIVED][1..] == [SENT, ARRIVED];
    assert FindEvent([SENT, ARRIVED], 3) == Some(SENT);
    assert FindEvent([PURCHASE, SENT, ARRIVED], 3) == Some(SENT);
    assert OWNED[1..] == [Assignment(2, 9, Date(2025, 1, 1), None)];
  }

  lemma LotMoves(slice: Slice)
    requires slice == Slice(BOUGHT, 5, SliceBasis(BOUGHT, 5))
    ensures PostMove(BRIDGED, HELD, ARRIVED, 1, [slice]) == MOVED
  {
    ArrivalSource();
    assert [slice][1..] == [] && [BOUGHT][1..] == [];
    assert Touches([slice], BOUGHT.source) by { assert [slice][0].lot.source == BOUGHT.source; }
    assert Move([BOUGHT], [slice], 2, Some(9), None) == MOVED.lots;
    assert RelocationRows(ARRIVED, [slice], 1, 2, Bridge) == MOVED.relocations;
  }

  lemma ArrivalMoves()
    ensures Apply(BRIDGED, HELD, ARRIVED) == Posted(MOVED)
  {
    var slice := Slice(BOUGHT, 5, SliceBasis(BOUGHT, 5));
    AllOfFive(slice);
    ArrivalSource();
    LotMoves(slice);
    assert TreatmentOf(ARRIVED) == Relocate && !HasRelocation(HELD, 4);
    assert ApplyRelocation(BRIDGED, HELD, ARRIVED) == Posted(FlagGift(MOVED, ARRIVED));
  }

  lemma ArrivalNeedsLots()
    ensures Apply(BRIDGED, EMPTY, ARRIVED) == Raised
  {
    ArrivalSource();
    assert OpenLots([], 1, Token(7)) == [];
  }

  lemma HeldWiped()
    ensures Wipe(BRIDGED, HELD, 2) == HELD && Wipe(BRIDGED, MOVED, 2) == EMPTY
  {
    assert [BOUGHT][1..] == [] && MOVED.lots[1..] == [] && MOVED.relocations[1..] == [];
    assert LotIn(MOVED, 2, 2) by { assert MOVED.lots[0].source == 2; }
  }

  lemma PipelineMoves()
    ensures Run(BRIDGED, EMPTY, PipelineEvents(BRIDGED, [1, 2])) == Posted(MOVED)
  {
    EventsOfSender();
    EventsOfReceiver();
    assert [1, 2][1..] == [2] && [2][1..] == [];
    assert PipelineEvents(BRIDGED, [2]) == [ARRIVED] + [] == [ARRIVED];
    assert PipelineEvents(BRIDGED, [1, 2]) == [PURCHASE, SENT] + [ARRIVED];
    RunAppend(BRIDGED, EMPTY, [PURCHASE, SENT], [ARRIVED]);
    PurchaseHeld();
    ArrivalAlone();
  }

  lemma ArrivalAlone()
    ensures Run(BRIDGED, HELD, [ARRIVED]) == Posted(MOVED) && Run(BRIDGED, EMPTY, [ARRIVED]) == Raised
  {
    ArrivalMoves();
    ArrivalNeedsLots();
    assert [ARRIVED][1..] == [] && Run(BRIDGED, MOVED, []) == Posted(MOVED);
  }

  /** A purchase in one wallet is bridged to another.  Rebuilding the other wallet books the arrival; rebuilding
      it again, or after the pipeline has run, throws: the lot is wiped, and is not at its source either. */
  lemma RebuildTwiceThrows()
    ensures Rebuild(BRIDGED, HELD, 2) == Posted(MOVED)
    ensures Run(BRIDGED, EMPTY, PipelineEvents(BRIDGED, [1, 2])) == Posted(MOVED)
    ensures Rebuild(BRIDGED, MOVED, 2) == Raised
  {
    PipelineMoves();
    EventsOfReceiver();
    ArrivalAlone();
    HeldWiped();
  }

  /** What has been relocated out of a wallet its rebuild does not find again: from the same registry, a history
      with the bridge and one without it rebuild the sender's wallet to different books. */
  lemma RebuildRemembersMoves()
    ensures Rebuild(BRIDGED, MOVED, 1) == Posted(MOVED) && Rebuild(BRIDGED, HELD, 1) == Posted(HELD)
    ensures Run(BRIDGED, EMPTY, [PURCHASE, SENT]) == Posted(HELD)
    ensures Run(BRIDGED, EMPTY, [PURCHASE, SENT, ARRIVED]) == Posted(MOVED)
  {
    EventsOfSender();
    PurchaseHeld();
    ArrivalAlone();
    assert [PURCHASE, SENT, ARRIVED] == [PURCHASE, SENT] + [ARRIVED];
    RunAppend(BRIDGED, EMPTY, [PURCHASE, SENT], [ARRIVED]);
    SenderWiped();
    SenderReplayed();
  }

  lemma SenderWiped()
    ensures Wipe(BRIDGED, MOVED, 1) == MOVED && Wipe(BRIDGED, HELD, 1) == EMPTY
  {
    assert [BOUGHT][1..] == [] && MOVED.lots[1..] == [] && MOVED.relocations[1..] == [];
  }

  /** The purchase has its lot already, in the other wallet. */
  lemma SenderReplayed()
    ensures Run(BRIDGED, MOVED, [PURCHASE, SENT]) == Posted(MOVED)
  {
    PurchaseKnown();
    var both := [PURCHASE, SENT];
    assert both[0] == PURCHASE && both[1..] == [SENT] && [SENT][1..] == [];
    assert TreatmentOf(SENT) == Nothing;
    assert Run(BRIDGED, MOVED, [SENT]) == Run(BRIDGED, MOVED, []) == Posted(MOVED);
  }

  lemma PurchaseKnown()
    ensures Apply(BRIDGED, MOVED, PURCHASE) == Posted(MOVED)
  {
    assert HasLot(MOVED, 2) by { assert MOVED.lots[0].source == 2; }
  }
}
