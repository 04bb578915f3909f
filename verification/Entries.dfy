/** What one event books, from its own words to the last column: acquisitions, sales, gifts, loans and moves. */
module Entries {
  import opened Decimals
  import opened Sequences
  import opened Lots
  import opened Disposals
  import opened Events
  import opened Books
  import opened Conservation
  import opened Flows
  import opened Passes
  import opened Guarantees
  import opened Gains

  // ---- Acquisitions ----

  /** Something came in and nobody has resolved it otherwise. */
  predicate Incoming(e: Event) {
    e.resolution.None?
    && (e.kind in {Rewarded, Minted, TransferIn} || (e.kind == SwapCreditRedemption && "l2-nft-in:" <= e.notes))
  }

  /** The swap credit of the transaction, redeemed by the wallet. */
  predicate IsCredit(f: Event, e: Event) {
    f.wallet == e.wallet && f.txHash == e.txHash && f.kind == SwapCreditRedemption && "scdt-out:" <= f.notes
  }

  /** What it cost: its own value or, for what a swap credit was redeemed for, the value of that credit. */
  ghost predicate Costs(reg: Registry, e: Event, value: int) {
    || e.value == Some(value)
    || (e.value.None? && e.kind == SwapCreditRedemption && "l2-nft-in:" <= e.notes
        && exists i: nat :: FirstCredit(reg.events, e, i) && reg.events[i].value == Some(value))
  }

  ghost predicate FirstCredit(events: seq<Event>, e: Event, i: nat) {
    i < |events| && IsCredit(events[i], e) && forall j :: 0 <= j < i ==> !IsCredit(events[j], e)
  }

  lemma {:induction false} CreditFound(events: seq<Event>, e: Event, i: nat)
    requires FirstCredit(events, e, i)
    ensures ScdtValue(events, e.wallet, e.txHash) == events[i].value
  {
    if i > 0 {
      assert !IsCredit(events[0], e);
      forall j | 0 <= j < i - 1 ensures !IsCredit(events[1..][j], e) {
        assert events[1..][j] == events[j + 1];
      }
      CreditFound(events[1..], e, i - 1);
    }
  }

  lemma {:induction false} CreditKnown(events: seq<Event>, e: Event) returns (i: nat)
    requires ScdtValue(events, e.wallet, e.txHash).Some?
    ensures FirstCredit(events, e, i)
  {
    if IsCredit(events[0], e) {
      i := 0;
    } else {
      var k := CreditKnown(events[1..], e);
      i := k + 1;
      assert forall j :: 0 < j < i ==> events[j] == events[1..][j - 1];
    }
  }

  lemma CostIff(reg: Registry, e: Event, value: int)
    requires Incoming(e)
    ensures AcquiredValue(reg, e) == Some(value) <==> Costs(reg, e, value)
  {
    if e.value.None? && e.kind == SwapCreditRedemption {
      if ScdtValue(reg.events, e.wallet, e.txHash).Some? {
        var i := CreditKnown(reg.events, e);
        CreditFound(reg.events, e, i);
      }
      if i: nat :| FirstCredit(reg.events, e, i) && reg.events[i].value == Some(value) {
        CreditFound(reg.events, e, i);
      }
    }
  }

  lemma IncomingAcquires(reg: Registry, b: Books, e: Event)
    requires Incoming(e)
    ensures TreatmentOf(e) == Acquire && Apply(reg, b, e) == ApplyAcquire(reg, b, e)
  {
    if e.kind == SwapCreditRedemption {
      assert e.notes[0] == "l2-nft-in:"[0] != "scdt-out:"[0];
    }
  }

  /** The lot of an acquisition, column by column. */
  ghost predicate LotOf(reg: Registry, e: Event, value: int, entity: nat, token: nat, lot: Lot) {
    && lot.source == e.id && lot.wallet == e.wallet && lot.token == token && lot.entity == entity
    && lot.logical == (if token in reg.membership then Some(reg.membership[token]) else None)
    && lot.acquiredAt == e.occurredAt
    && lot.quantity == e.amount && lot.remaining == e.amount && lot.basis == value
    && (e.kind == Rewarded <==> lot.acquisition == Reward)
    && (e.kind in {Minted, SwapCreditRedemption} <==> lot.acquisition == Mint)
    && (e.kind == TransferIn <==> lot.acquisition == Buy)
    && (lot.assetClass == Collectible
        <==> || (token in reg.membership && reg.membership[token] in reg.nftAssets)
             || (e.kind in {Minted, SwapCreditRedemption} && token in reg.decimals && reg.decimals[token] == 0))
  }

  /** An acquisition that is priced, of a token, by a wallet with an owner, opens its lot and does nothing else. */
  lemma AcquisitionOpens(reg: Registry, b: Books, e: Event, value: int, entity: nat, token: nat) returns (lot: Lot)
    requires Incoming(e) && !HasLot(b, e.id) && Costs(reg, e, value) && e.token == Some(token)
    requires EntityFor(reg.assignments, e.wallet, e.occurredAt.date) == Some(entity)
    ensures LotOf(reg, e, value, entity, token, lot)
    ensures Apply(reg, b, e) == if e.amount < 0 then Raised else Posted(b.(lots := b.lots + [lot]))
  {
    CostIff(reg, e, value);
    IncomingAcquires(reg, b, e);
    lot := NewLot(reg, e, value, entity, token);
  }

  /** Any other acquisition is recorded as one without a basis, unless it is booked already. */
  lemma AcquisitionFails(reg: Registry, b: Books, e: Event)
    requires Incoming(e)
    requires HasLot(b, e.id) || e.token.None? || EntityFor(reg.assignments, e.wallet, e.occurredAt.date).None?
             || forall value :: !Costs(reg, e, value)
    ensures Apply(reg, b, e) == Posted(
              if HasLot(b, e.id) then b
              else b.(failures := b.failures + [Failure(e.id, MissingBasis, None)]))
  {
    IncomingAcquires(reg, b, e);
    if AcquiredValue(reg, e).Some? {
      CostIff(reg, e, AcquiredValue(reg, e).value);
    }
    assert HasLot(b, e.id) || AcquiredValue(reg, e).None? || e.token.None?
      || EntityFor(reg.assignments, e.wallet, e.occurredAt.date).None?;
  }

  // ---- Sales, gifts, loans ----

  /** It left for good, or was resolved as sold. */
  predicate Selling(e: Event) {
    match e.resolution
    case Some(r) => r in {Disposal, DisposalRelatedParty}
    case None => e.kind in {TransferOut, Burned} || (e.kind == SwapCreditRedemption && "scdt-out:" <= e.notes)
  }

  lemma SellingDisposes(reg: Registry, b: Books, e: Event)
    requires Selling(e)
    ensures TreatmentOf(e) == Dispose && Apply(reg, b, e) == ApplyDispose(reg, b, e)
  {
  }

  function RowsTaken(rows: seq<DisposalRow>): int {
    if rows == [] then 0 else rows[0].taken + RowsTaken(rows[1..])
  }

  function RowsProceeds(rows: seq<DisposalRow>): int {
    if rows == [] then 0 else rows[0].proceeds + RowsProceeds(rows[1..])
  }

  function GiftsTaken(rows: seq<GiftRow>): int {
    if rows == [] then 0 else rows[0].taken + GiftsTaken(rows[1..])
  }

  lemma {:induction false} RowsOfLines(e: Event, lines: seq<Line>, slices: seq<Slice>)
    requires |lines| == |slices| && forall i :: 0 <= i < |lines| ==> lines[i].taken == slices[i].taken
    ensures RowsTaken(DisposalRows(e, lines)) == Taken(slices)
    ensures RowsProceeds(DisposalRows(e, lines)) == LineProceeds(lines)
  {
    if lines != [] {
      assert DisposalRows(e, lines)[1..] == DisposalRows(e, lines[1..]);
      forall i | 0 <= i < |lines[1..]| ensures lines[1..][i].taken == slices[1..][i].taken {
        assert lines[1..][i] == lines[i + 1] && slices[1..][i] == slices[i + 1];
      }
      RowsOfLines(e, lines[1..], slices[1..]);
    }
  }

  lemma {:induction false} GiftsOfSlices(e: Event, slices: seq<Slice>)
    ensures GiftsTaken(GiftRows(e, slices)) == Taken(slices)
  {
    if slices != [] {
      assert GiftRows(e, slices)[1..] == GiftRows(e, slices[1..]);
      GiftsOfSlices(e, slices[1..]);
    }
  }

  /** What is there to be parted with. */
  function Stock(reg: Registry, b: Books, e: Event, token: nat): int {
    Available(OpenLots(b.lots, e.wallet, CanonicalPool(reg, token)))
  }

  lemma SelectionIs(reg: Registry, b: Books, e: Event, token: nat)
    ensures match Select(b.lots, e.wallet, CanonicalPool(reg, token), MethodFor(reg, e), e.amount)
            case Insufficient(u) => e.amount > Stock(reg, b, e, token) && u == e.amount - Stock(reg, b, e, token)
            case Covered(slices) =>
              e.amount <= Stock(reg, b, e, token) && Taken(slices) == Max(e.amount, 0)
              && (slices == [] <==> e.amount <= 0)
  {
    var open := OpenLots(b.lots, e.wallet, CanonicalPool(reg, token));
    SortMembers(open, OrderKey(MethodFor(reg, e)));
    AvailableSort(open, OrderKey(MethodFor(reg, e)));
    var ordered := OrderLots(MethodFor(reg, e), open);
    ConsumeExact(ordered, e.amount);
    if Consume(ordered, e.amount).Covered? {
      ConsumePrefix(ordered, e.amount);
    }
  }

  lemma SelectionShort(reg: Registry, b: Books, e: Event, token: nat)
    requires e.amount > Stock(reg, b, e, token)
    ensures Select(b.lots, e.wallet, CanonicalPool(reg, token), MethodFor(reg, e), e.amount)
         == Insufficient(e.amount - Stock(reg, b, e, token))
  {
    SelectionIs(reg, b, e, token);
  }

  lemma SelectionMet(reg: Registry, b: Books, e: Event, token: nat) returns (slices: seq<Slice>)
    requires e.amount <= Stock(reg, b, e, token)
    ensures Select(b.lots, e.wallet, CanonicalPool(reg, token), MethodFor(reg, e), e.amount) == Covered(slices)
    ensures Taken(slices) == Max(e.amount, 0) && (slices == [] <==> e.amount <= 0)
  {
    SelectionIs(reg, b, e, token);
    slices := Select(b.lots, e.wallet, CanonicalPool(reg, token), MethodFor(reg, e), e.amount).slices;
  }

  /** The rows a sale adds take its amount, and share out its value, or nothing if it was burnt or has no value. */
  ghost predicate SoldRows(e: Event, rows: seq<DisposalRow>) {
    && RowsTaken(rows) == Max(e.amount, 0)
    && (e.amount > 0 ==>
          RowsProceeds(rows) == if e.kind == Burned || e.value.None? then 0 else e.value.value)
    && forall row :: row in rows ==> BooksRow(e, row)
  }

  lemma PostedRows(b: Books, e: Event, slices: seq<Slice>, strategy: LotMethod) returns (rows: seq<DisposalRow>)
    requires slices != [] <==> e.amount > 0
    requires Taken(slices) == Max(e.amount, 0)
    ensures PostDisposal(b, e, slices, strategy)
         == b.(lots := Deduct(b.lots, slices), disposals := b.disposals + rows)
    ensures SoldRows(e, rows)
  {
    var lines := BuildLines(slices, ProceedsOf(e), e.occurredAt, strategy);
    rows := DisposalRows(e, lines);
    if slices != [] {
      LinesKeepSlices(slices, Taken(slices), ProceedsOf(e), 0, e.occurredAt, strategy);
      ProceedsSumExact(slices, Taken(slices), ProceedsOf(e), 0, e.occurredAt, strategy);
      RowsOfLines(e, lines, slices);
      forall row | row in rows ensures BooksRow(e, row) {
        var i :| 0 <= i < |rows| && rows[i] == row;
        LineBooked(e, slices, strategy, i);
      }
    }
  }

  /** There is a token to part with, and enough of it. */
  predicate Affords(reg: Registry, b: Books, e: Event) {
    e.token.Some? && e.amount <= Stock(reg, b, e, e.token.value)
  }

  /** Otherwise the token is missing, or so much of it. */
  function Shortage(reg: Registry, b: Books, e: Event): Failure {
    match e.token
    case None => Failure(e.id, MissingBasis, None)
    case Some(token) => Failure(e.id, InsufficientLots, Some(e.amount - Stock(reg, b, e, token)))
  }

  lemma DisposalFails(reg: Registry, b: Books, e: Event, token: nat, failure: Failure)
    requires !HasDisposal(b, e.id) && e.token == Some(token) && failure.reason == InsufficientLots
    requires failure.tx == e.id && failure.unmatched.Some?
    requires Select(b.lots, e.wallet, CanonicalPool(reg, token), MethodFor(reg, e), e.amount)
          == Insufficient(failure.unmatched.value)
    ensures ApplyDispose(reg, b, e) == Posted(b.(failures := b.failures + [failure]))
  {
  }

  lemma GivingFails(reg: Registry, b: Books, e: Event, token: nat, failure: Failure)
    requires !HasRelocation(b, e.id) && e.token == Some(token) && failure.reason == InsufficientLots
    requires failure.tx == e.id && failure.unmatched.Some?
    requires Select(b.lots, e.wallet, CanonicalPool(reg, token), MethodFor(reg, e), e.amount)
          == Insufficient(failure.unmatched.value)
    ensures ApplyGift(reg, b, e) == Posted(b.(failures := b.failures + [failure]))
  {
  }

  lemma GivingTakes(reg: Registry, b: Books, e: Event, token: nat, slices: seq<Slice>)
    requires !HasRelocation(b, e.id) && e.token == Some(token)
    requires Select(b.lots, e.wallet, CanonicalPool(reg, token), MethodFor(reg, e), e.amount) == Covered(slices)
    ensures ApplyGift(reg, b, e) == Posted(PostGift(b, e, slices))
  {
  }

  lemma ShortageIs(reg: Registry, b: Books, e: Event, token: nat) returns (failure: Failure)
    requires e.token == Some(token) && !Affords(reg, b, e)
    ensures failure == Shortage(reg, b, e) && failure.tx == e.id && failure.reason == InsufficientLots
    ensures failure.unmatched.Some?
    ensures Select(b.lots, e.wallet, CanonicalPool(reg, token), MethodFor(reg, e), e.amount)
         == Insufficient(failure.unmatched.value)
  {
    SelectionShort(reg, b, e, token);
    failure := Shortage(reg, b, e);
  }

  lemma ShortSale(reg: Registry, b: Books, e: Event)
    requires !HasDisposal(b, e.id) && !Affords(reg, b, e)
    ensures ApplyDispose(reg, b, e) == Posted(b.(failures := b.failures + [Shortage(reg, b, e)]))
  {
    if e.token.Some? {
      var failure := ShortageIs(reg, b, e, e.token.value);
      DisposalFails(reg, b, e, e.token.value, failure);
    } else {
      NoTokenFails(reg, b, e);
    }
  }

  lemma ShortGift(reg: Registry, b: Books, e: Event)
    requires !HasRelocation(b, e.id) && !Affords(reg, b, e)
    ensures ApplyGift(reg, b, e) == Posted(b.(failures := b.failures + [Shortage(reg, b, e)]))
  {
    if e.token.Some? {
      var failure := ShortageIs(reg, b, e, e.token.value);
      GivingFails(reg, b, e, e.token.value, failure);
    } else {
      NoTokenFails(reg, b, e);
    }
  }

  lemma NoTokenFails(reg: Registry, b: Books, e: Event)
    requires e.token.None?
    ensures var failed := Posted(b.(failures := b.failures + [Shortage(reg, b, e)]));
            && (!HasDisposal(b, e.id) ==> ApplyDispose(reg, b, e) == failed)
            && (!HasRelocation(b, e.id) ==> ApplyGift(reg, b, e) == failed)
  {
  }

  lemma GivingGives(reg: Registry, b: Books, e: Event)
    requires e.resolution == Some(GiftOut)
    ensures TreatmentOf(e) == GiveAway && Apply(reg, b, e) == ApplyGift(reg, b, e)
  {
  }

  /** A sale or gift not booked yet that wants for a token or for lots records by exactly how much, and no more. */
  lemma ShortageFails(reg: Registry, b: Books, e: Event)
    requires (Selling(e) && !HasDisposal(b, e.id)) || (e.resolution == Some(GiftOut) && !HasRelocation(b, e.id))
    requires !Affords(reg, b, e)
    ensures Apply(reg, b, e) == Posted(b.(failures := b.failures + [Shortage(reg, b, e)]))
  {
    if Selling(e) {
      SellingDisposes(reg, b, e);
      ShortSale(reg, b, e);
    } else {
      GivingGives(reg, b, e);
      ShortGift(reg, b, e);
    }
  }

  lemma SaleCovered(reg: Registry, b: Books, e: Event, token: nat) returns (rows: seq<DisposalRow>)
    requires !HasDisposal(b, e.id) && Affords(reg, b, e) && e.token == Some(token)
    ensures ApplyDispose(reg, b, e).Posted? && SoldRows(e, rows)
    ensures var next := ApplyDispose(reg, b, e).books;
            next == b.(lots := next.lots, disposals := b.disposals + rows)
  {
    var slices := SelectionMet(reg, b, e, token);
    rows := PostedRows(b, e, slices, MethodFor(reg, e));
    assert ApplyDispose(reg, b, e) == Posted(PostDisposal(b, e, slices, MethodFor(reg, e)));
  }

  /** Any other takes its amount out of lots: a sale adds its rows, and does nothing else. */
  lemma SaleBooks(reg: Registry, b: Books, e: Event) returns (rows: seq<DisposalRow>)
    requires Selling(e) && !HasDisposal(b, e.id) && Affords(reg, b, e)
    ensures Apply(reg, b, e).Posted? && SoldRows(e, rows)
    ensures var next := Apply(reg, b, e).books;
            next == b.(lots := next.lots, disposals := b.disposals + rows)
  {
    SellingDisposes(reg, b, e);
    rows := SaleCovered(reg, b, e, e.token.value);
  }

  /** Besides the lots: a line of the log and a gift for each lot, the flag, and nothing else. */
  ghost predicate GiftEntries(b: Books, next: Books, e: Event, gifts: seq<GiftRow>) {
    && next.disposals == b.disposals && next.failures == b.failures
    && next.flagged == b.flagged + {e.id} && next.gifts == b.gifts + gifts
    && |next.relocations| == |b.relocations| + |gifts| && b.relocations <= next.relocations
    && forall k :: 0 <= k < |gifts| ==>
         next.relocations[|b.relocations| + k]
           == RelocationRow(gifts[k].lot, e.wallet, e.wallet, Gifted, e.id, e.occurredAt)
  }

  /** A gift out logs its lots as moved to where they were, takes its amount, books no disposal and wants review. */
  lemma GiftBooks(reg: Registry, b: Books, e: Event) returns (gifts: seq<GiftRow>)
    requires e.resolution == Some(GiftOut) && !HasRelocation(b, e.id) && Affords(reg, b, e)
    ensures Apply(reg, b, e).Posted? && GiftsTaken(gifts) == Max(e.amount, 0)
    ensures GiftEntries(b, Apply(reg, b, e).books, e, gifts)
  {
    GivingGives(reg, b, e);
    gifts := GiftCovered(reg, b, e, e.token.value);
  }

  lemma GiftCovered(reg: Registry, b: Books, e: Event, token: nat) returns (gifts: seq<GiftRow>)
    requires !HasRelocation(b, e.id) && Affords(reg, b, e) && e.token == Some(token)
    ensures ApplyGift(reg, b, e).Posted? && GiftsTaken(gifts) == Max(e.amount, 0)
    ensures GiftEntries(b, ApplyGift(reg, b, e).books, e, gifts)
  {
    var slices := SelectionMet(reg, b, e, token);
    gifts := GiftRows(e, slices);
    GiftsOfSlices(e, slices);
    GivingTakes(reg, b, e, token, slices);
    GiftPosted(b, e, slices);
  }

  lemma GiftPosted(b: Books, e: Event, slices: seq<Slice>)
    ensures GiftEntries(b, PostGift(b, e, slices), e, GiftRows(e, slices))
  {
  }

  /** A loan is only flagged. */
  lemma LoanFlags(reg: Registry, b: Books, e: Event)
    requires e.resolution == Some(NoOpLoan)
    ensures Apply(reg, b, e) == Posted(b.(flagged := b.flagged + {e.id}))
  {
  }

  /** What only changes its shape, the outgoing side of a move, and what waits for a decision. */
  predicate Idle(e: Event) {
    match e.resolution
    case Some(r) =>
      r in {RelocateInternal, RelocateContribution, RelocateGift, RelocateReassignment} && e.relocationSource.None?
    case None =>
      e.kind in {Staked, Unstaked, Wrapped, Unwrapped, BridgeOut, Unclassified, Pended}
      || (e.kind == SwapCreditRedemption && !("scdt-out:" <= e.notes) && !("l2-nft-in:" <= e.notes))
  }

  lemma IdleIsLeft(e: Event)
    requires Idle(e)
    ensures TreatmentOf(e) in {Nothing, Wait}
  {
  }

  /** Nothing is booked for that. */
  lemma IdleBooksNothing(reg: Registry, b: Books, e: Event)
    requires Idle(e)
    ensures Apply(reg, b, e) == Posted(b)
  {
    IdleIsLeft(e);
  }

  // ---- Moves ----

  /** The arrival of a move: a bridge leg that nobody resolved, or a resolved transfer that names what left. */
  predicate Arrival(e: Event) {
    match e.resolution
    case None => e.kind == BridgeIn
    case Some(r) =>
      r in {RelocateInternal, RelocateContribution, RelocateGift, RelocateReassignment} && e.relocationSource.Some?
  }

  lemma ArrivalRelocates(reg: Registry, b: Books, e: Event)
    requires Arrival(e)
    ensures TreatmentOf(e) == Relocate && Apply(reg, b, e) == ApplyRelocation(reg, b, e)
  {
  }

  /** The reason on the log: a bridge, or what the transfer was resolved as. */
  ghost predicate ReasonFits(e: Event, reason: MoveReason) {
    && (reason == Bridge <==> e.resolution.None?)
    && (reason == Internal <==> e.resolution == Some(RelocateInternal))
    && (reason == Contribution <==> e.resolution == Some(RelocateContribution))
    && (reason == Gifted <==> e.resolution == Some(RelocateGift))
    && (reason == Reassignment <==> e.resolution == Some(RelocateReassignment))
  }

  /** A moved lot keeps all but its wallet, its owner where the new wallet has one, and its type where the move is a
      contribution or a gift. */
  ghost predicate MovedTo(reg: Registry, e: Event, was: Lot, now: Lot) {
    && now == was.(wallet := e.wallet, entity := now.entity, acquisition := now.acquisition)
    && (match EntityFor(reg.assignments, e.wallet, e.occurredAt.date)
        case Some(owner) => now.entity == owner
        case None => now.entity == was.entity)
    && now.acquisition == (if e.resolution == Some(RelocateContribution) then CapContribution
                           else if e.resolution == Some(RelocateGift) then AcquisitionType.Gift
                           else was.acquisition)
  }

  /** An arrival without its counterpart is a failure. */
  lemma LostArrivalFails(reg: Registry, b: Books, e: Event)
    requires Arrival(e) && !HasRelocation(b, e.id)
    requires forall f :: f in reg.events ==> e.relocationSource != Some(f.id)
    ensures Apply(reg, b, e) == Posted(b.(failures := b.failures + [Failure(e.id, MissingBasis, None)]))
  {
    ArrivalRelocates(reg, b, e);
    if e.relocationSource.Some? {
      NotListed(reg.events, e.relocationSource.value);
    }
  }

  /** An arrival of no known token moves nothing; if it is a gift it is flagged. */
  lemma TokenlessArrival(reg: Registry, b: Books, e: Event, outflow: Event)
    requires Arrival(e) && !HasRelocation(b, e.id) && e.token.None?
    requires DistinctIds(reg.events) && outflow in reg.events && e.relocationSource == Some(outflow.id)
    ensures Apply(reg, b, e)
         == Posted(if e.resolution == Some(RelocateGift) then b.(flagged := b.flagged + {e.id}) else b)
  {
    ArrivalRelocates(reg, b, e);
    FindRegistered(reg.events, outflow);
  }

  lemma {:induction false} NotListed(events: seq<Event>, id: nat)
    requires forall f :: f in events ==> f.id != id
    ensures FindEvent(events, id).None?
  {
    if events != [] {
      assert events[0] in events;
      NotListed(events[1..], id);
    }
  }

  /** A posted arrival moves lots from the wallet of its counterpart, logs each with the reason that fits, retypes
      and hands them over as it should, flags a gift, and changes nothing else. */
  lemma ArrivalMoves(reg: Registry, b: Books, e: Event, outflow: Event, token: nat)
    returns (moved: seq<nat>, reason: MoveReason)
    requires Sound(b) && Arrival(e) && !HasRelocation(b, e.id) && Apply(reg, b, e).Posted? && e.token == Some(token)
    requires DistinctIds(reg.events) && outflow in reg.events && e.relocationSource == Some(outflow.id)
    ensures ReasonFits(e, reason)
    ensures var next := Apply(reg, b, e).books;
            && next.disposals == b.disposals && next.gifts == b.gifts && next.failures == b.failures
            && next.flagged == (if e.resolution == Some(RelocateGift) then b.flagged + {e.id} else b.flagged)
            && |next.lots| == |b.lots| && |next.relocations| == |b.relocations| + |moved|
            && (forall k :: 0 <= k < |moved| ==>
                  next.relocations[|b.relocations| + k]
                    == RelocationRow(moved[k], outflow.wallet, e.wallet, reason, e.id, e.occurredAt))
            && (forall i :: 0 <= i < |b.lots| ==>
                  if b.lots[i].source in moved then
                    b.lots[i].wallet == outflow.wallet && MovedTo(reg, e, b.lots[i], next.lots[i])
                  else next.lots[i] == b.lots[i])
  {
    FindRegistered(reg.events, outflow);
    ArrivalRelocates(reg, b, e);
    reason := ReasonOf(e);
    moved := RelocationArrives(reg, b, e, outflow, token);
    RelocationTouchesOnly(reg, b, e);
    forall i | 0 <= i < |b.lots| && b.lots[i].source in moved
      ensures MovedTo(reg, e, b.lots[i], Apply(reg, b, e).books.lots[i])
    {
      ArrivedShape(reg, b, e, outflow.wallet, CanonicalPool(reg, token), i);
    }
  }

  lemma ReasonOf(e: Event) returns (reason: MoveReason)
    requires Arrival(e)
    ensures reason == MoveReasonOf(e) && ReasonFits(e, reason)
  {
    reason := MoveReasonOf(e);
  }

  /** Besides the lots and the log a relocation changes the flags at most. */
  predicate OnlyMoves(before: Books, after: Books, flagged: set<nat>) {
    after == Books(after.lots, before.disposals, after.relocations, before.gifts, before.failures, flagged)
  }

  lemma RelocationTouchesOnly(reg: Registry, b: Books, e: Event)
    requires !HasRelocation(b, e.id) && ApplyRelocation(reg, b, e).Posted?
    requires SourceEvent(reg, e).Some? && e.token.Some?
    ensures OnlyMoves(b, ApplyRelocation(reg, b, e).books,
                      if e.resolution == Some(RelocateGift) then b.flagged + {e.id} else b.flagged)
  {
    match Select(b.lots, SourceEvent(reg, e).value.wallet, CanonicalPool(reg, e.token.value), Fifo, e.amount) {
      case Insufficient(_) =>
      case Covered(slices) =>
        assert ApplyRelocation(reg, b, e).books
            == FlagGift(PostMove(reg, b, e, SourceEvent(reg, e).value.wallet, slices), e);
    }
  }

  lemma ArrivedShape(reg: Registry, b: Books, e: Event, from: nat, pool: Pool, i: nat)
    requires ApplyRelocation(reg, b, e).Posted? && i < |b.lots| == |ApplyRelocation(reg, b, e).books.lots|
    requires Arrives(reg, e, from, pool, b.lots[i], ApplyRelocation(reg, b, e).books.lots[i])
    ensures MovedTo(reg, e, b.lots[i], ApplyRelocation(reg, b, e).books.lots[i])
  {
    KeptShape(reg, b, e, i);
    FitsShape(reg, e, from, pool, b.lots[i], ApplyRelocation(reg, b, e).books.lots[i]);
  }

  lemma KeptShape(reg: Registry, b: Books, e: Event, i: nat)
    requires ApplyRelocation(reg, b, e).Posted? && i < |b.lots| == |ApplyRelocation(reg, b, e).books.lots|
    ensures var was, now := b.lots[i], ApplyRelocation(reg, b, e).books.lots[i];
            now == was.(wallet := now.wallet, entity := now.entity, acquisition := now.acquisition,
                        remaining := now.remaining)
  {
    MoveDescends(reg, b, e);
  }

  lemma FitsShape(reg: Registry, e: Event, from: nat, pool: Pool, was: Lot, now: Lot)
    requires now == was.(wallet := now.wallet, entity := now.entity, acquisition := now.acquisition,
                         remaining := now.remaining)
    requires Arrives(reg, e, from, pool, was, now)
    ensures MovedTo(reg, e, was, now)
  {
  }
}
