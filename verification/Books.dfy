/** The lot engine as a function on its tables: what one event does to the books. */
module Books {
  import opened Decimals
  import opened Calendar
  import opened Sequences
  import opened Lots
  import opened Disposals
  import opened Events

  datatype Reason = InsufficientLots | MissingBasis

  datatype MoveReason = Bridge | Internal | Contribution | Gifted | Reassignment

  /** lot_disposals.  `adjustment` is the loss disallowed under code L, when there is one. */
  datatype DisposalRow = DisposalRow(lot: nat, tx: nat, taken: int, proceeds: int, basis: int, gainLoss: int,
                                     period: HoldingPeriod, assetClass: AssetClass, strategy: LotMethod,
                                     disposedAt: Instant, adjustment: Option<int>)

  /** lot_relocations. */
  datatype RelocationRow = RelocationRow(lot: nat, from: nat, to: nat, reason: MoveReason, tx: nat, occurredAt: Instant)

  /** What a gift took from a lot.  The program keeps no such table: this is history, for stating conservation. */
  datatype GiftRow = GiftRow(lot: nat, tx: nat, taken: int, basis: int)

  /** lot_processing_exceptions. */
  datatype Failure = Failure(tx: nat, reason: Reason, unmatched: Option<int>)

  datatype Books = Books(lots: seq<Lot>, disposals: seq<DisposalRow>, relocations: seq<RelocationRow>,
                         gifts: seq<GiftRow>, failures: seq<Failure>, flagged: set<nat>)

  /** Raised: the call threw, and its transaction is lost. */
  datatype Outcome = Posted(books: Books) | Raised

  const EMPTY := Books([], [], [], [], [], {})

  // ---- Queries ----

  predicate HasLot(b: Books, id: nat) {
    exists i :: 0 <= i < |b.lots| && b.lots[i].source == id
  }

  predicate HasDisposal(b: Books, id: nat) {
    exists i :: 0 <= i < |b.disposals| && b.disposals[i].tx == id
  }

  predicate HasRelocation(b: Books, id: nat) {
    exists i :: 0 <= i < |b.relocations| && b.relocations[i].tx == id
  }

  /** Open lots of a wallet's pool; that remaining never exceeds quantity is a constraint of the table. */
  function InPool(wallet: nat, pool: Pool): Lot -> bool {
    (lot: Lot) => Open(lot) && lot.wallet == wallet && PoolOf(lot) == pool
  }

  function OpenLots(lots: seq<Lot>, wallet: nat, pool: Pool): (open: seq<Lot>)
    ensures AllOpen(open)
  {
    var found := Filter(lots, InPool(wallet, pool));
    SortMembers(found, OrderKey(Fifo));
    OrderLots(Fifo, found)
  }

  function Select(lots: seq<Lot>, wallet: nat, pool: Pool, strategy: LotMethod, quantity: int): Allocation {
    var open := OpenLots(lots, wallet, pool);
    SortMembers(open, OrderKey(strategy));
    Consume(OrderLots(strategy, open), quantity)
  }

  /** A covered selection takes something from each lot it cuts. */
  lemma SelectCovers(lots: seq<Lot>, wallet: nat, pool: Pool, strategy: LotMethod, quantity: int)
    ensures var a := Select(lots, wallet, pool, strategy, quantity);
            a.Covered? ==> AllPositive(a.slices) && (a.slices != [] ==> Taken(a.slices) > 0)
  {
    var open := OpenLots(lots, wallet, pool);
    SortMembers(open, OrderKey(strategy));
    var a := Select(lots, wallet, pool, strategy, quantity);
    if a.Covered? {
      ConsumePrefix(OrderLots(strategy, open), quantity);
      TakenNonNegative(a.slices);
    }
  }

  // ---- Updates ----

  function Reduced(lot: Lot, slices: seq<Slice>): Lot {
    lot.(remaining := lot.remaining - TakeOf(slices, lot.source))
  }

  /** Takes the slices out of the lots they were cut from. */
  function Deduct(lots: seq<Lot>, slices: seq<Slice>): (r: seq<Lot>)
    ensures |r| == |lots| && forall i :: 0 <= i < |lots| ==> r[i] == Reduced(lots[i], slices)
  {
    if lots == [] then [] else [Reduced(lots[0], slices)] + Deduct(lots[1..], slices)
  }

  function Moved(lot: Lot, slices: seq<Slice>, to: nat, entity: Option<nat>,
                 acquisition: Option<AcquisitionType>): Lot {
    if !Touches(slices, lot.source) then lot
    else lot.(wallet := to,
              entity := (match entity case Some(x) => x case None => lot.entity),
              acquisition := (match acquisition case Some(a) => a case None => lot.acquisition))
  }

  /** Moves every lot that has a slice, whole: the quantity still in it goes along. */
  function Move(lots: seq<Lot>, slices: seq<Slice>, to: nat, entity: Option<nat>,
                acquisition: Option<AcquisitionType>): (r: seq<Lot>)
    ensures |r| == |lots| && forall i :: 0 <= i < |lots| ==> r[i] == Moved(lots[i], slices, to, entity, acquisition)
  {
    if lots == [] then []
    else [Moved(lots[0], slices, to, entity, acquisition)] + Move(lots[1..], slices, to, entity, acquisition)
  }

  /** Section 267 of the Internal Revenue Code: a loss to a related party is disallowed, a gain is not touched. */
  function Disallowed(e: Event, gainLoss: int): Option<int> {
    if e.resolution == Some(DisposalRelatedParty) && gainLoss < 0 then Some(Abs(gainLoss)) else None
  }

  function DisposalOf(e: Event, line: Line): DisposalRow {
    DisposalRow(line.lot.source, e.id, line.taken, line.proceeds, line.basis, line.gainLoss, line.period,
                line.assetClass, line.strategy, e.occurredAt, Disallowed(e, line.gainLoss))
  }

  function DisposalRows(e: Event, lines: seq<Line>): (rows: seq<DisposalRow>)
    ensures |rows| == |lines| && forall i :: 0 <= i < |lines| ==> rows[i] == DisposalOf(e, lines[i])
  {
    if lines == [] then [] else [DisposalOf(e, lines[0])] + DisposalRows(e, lines[1..])
  }

  function RelocationRows(e: Event, slices: seq<Slice>, from: nat, to: nat,
                          reason: MoveReason): (rows: seq<RelocationRow>)
    ensures |rows| == |slices|
    ensures forall i :: 0 <= i < |slices| ==>
              rows[i] == RelocationRow(slices[i].lot.source, from, to, reason, e.id, e.occurredAt)
  {
    if slices == [] then []
    else
      var first := RelocationRow(slices[0].lot.source, from, to, reason, e.id, e.occurredAt);
      [first] + RelocationRows(e, slices[1..], from, to, reason)
  }

  function GiftRows(e: Event, slices: seq<Slice>): (rows: seq<GiftRow>)
    ensures |rows| == |slices|
    ensures forall i :: 0 <= i < |slices| ==>
              rows[i] == GiftRow(slices[i].lot.source, e.id, slices[i].taken, slices[i].basis)
  {
    if slices == [] then []
    else [GiftRow(slices[0].lot.source, e.id, slices[0].taken, slices[0].basis)] + GiftRows(e, slices[1..])
  }

  function Fail(b: Books, e: Event, reason: Reason, unmatched: Option<int>): Books {
    b.(failures := b.failures + [Failure(e.id, reason, unmatched)])
  }

  // ---- The branches of apply_event ----

  function NewLot(reg: Registry, e: Event, value: int, entity: nat, token: nat): Lot {
    var logical := match CanonicalPool(reg, token) case Logical(a) => Some(a) case Token(_) => None;
    Lot(e.id, e.wallet, token, logical, entity, e.occurredAt, AcquisitionOf(e), AssetClassOf(reg, e, token),
        e.amount, e.amount, value)
  }

  /** A negative amount breaks the table's constraint that remaining is not negative. */
  function ApplyAcquire(reg: Registry, b: Books, e: Event): Outcome {
    if HasLot(b, e.id) then Posted(b)
    else match AcquiredValue(reg, e)
      case None => Posted(Fail(b, e, MissingBasis, None))
      case Some(value) =>
        match EntityFor(reg.assignments, e.wallet, e.occurredAt.date)
        case None => Posted(Fail(b, e, MissingBasis, None))
        case Some(entity) =>
          match e.token
          case None => Posted(Fail(b, e, MissingBasis, None))
          case Some(token) =>
            if e.amount < 0 then Raised
            else Posted(b.(lots := b.lots + [NewLot(reg, e, value, entity, token)]))
  }

  function PostDisposal(b: Books, e: Event, slices: seq<Slice>, strategy: LotMethod): Books
    requires slices != [] ==> Taken(slices) > 0
  {
    b.(lots := Deduct(b.lots, slices),
       disposals := b.disposals + DisposalRows(e, BuildLines(slices, ProceedsOf(e), e.occurredAt, strategy)))
  }

  function ApplyDispose(reg: Registry, b: Books, e: Event): Outcome {
    if HasDisposal(b, e.id) then Posted(b)
    else match e.token
      case None => Posted(Fail(b, e, MissingBasis, None))
      case Some(token) =>
        match Select(b.lots, e.wallet, CanonicalPool(reg, token), MethodFor(reg, e), e.amount)
        case Insufficient(u) => Posted(Fail(b, e, InsufficientLots, Some(u)))
        case Covered(slices) =>
          SelectCovers(b.lots, e.wallet, CanonicalPool(reg, token), MethodFor(reg, e), e.amount);
          Posted(PostDisposal(b, e, slices, MethodFor(reg, e)))
  }

  function PostGift(b: Books, e: Event, slices: seq<Slice>): Books {
    b.(lots := Deduct(b.lots, slices),
       relocations := b.relocations + RelocationRows(e, slices, e.wallet, e.wallet, Gifted),
       gifts := b.gifts + GiftRows(e, slices),
       flagged := b.flagged + {e.id})
  }

  function ApplyGift(reg: Registry, b: Books, e: Event): Outcome {
    if HasRelocation(b, e.id) then Posted(b)
    else match e.token
      case None => Posted(Fail(b, e, MissingBasis, None))
      case Some(token) =>
        match Select(b.lots, e.wallet, CanonicalPool(reg, token), MethodFor(reg, e), e.amount)
        case Insufficient(u) => Posted(Fail(b, e, InsufficientLots, Some(u)))
        case Covered(slices) => Posted(PostGift(b, e, slices))
  }

  function MoveReasonOf(e: Event): MoveReason {
    match e.resolution
    case Some(RelocateInternal) => Internal
    case Some(RelocateContribution) => Contribution
    case Some(RelocateGift) => Gifted
    case Some(RelocateReassignment) => Reassignment
    case _ => Bridge
  }

  function RetypedAs(e: Event): Option<AcquisitionType> {
    match e.resolution
    case Some(RelocateContribution) => Some(CapContribution)
    case Some(RelocateGift) => Some(Gift)
    case _ => None
  }

  function PostMove(reg: Registry, b: Books, e: Event, from: nat, slices: seq<Slice>): Books {
    b.(lots := Move(b.lots, slices, e.wallet, EntityFor(reg.assignments, e.wallet, e.occurredAt.date), RetypedAs(e)),
       relocations := b.relocations + RelocationRows(e, slices, from, e.wallet, MoveReasonOf(e)))
  }

  function FlagGift(b: Books, e: Event): Books {
    if e.resolution == Some(RelocateGift) then b.(flagged := b.flagged + {e.id}) else b
  }

  /** Both relocation branches.  A shortage at the source wallet is not caught: the call throws. */
  function ApplyRelocation(reg: Registry, b: Books, e: Event): Outcome {
    if HasRelocation(b, e.id) then Posted(b)
    else match SourceEvent(reg, e)
      case None => Posted(Fail(b, e, MissingBasis, None))
      case Some(outflow) =>
        match e.token
        case None => Posted(FlagGift(b, e))
        case Some(token) =>
          match Select(b.lots, outflow.wallet, CanonicalPool(reg, token), Fifo, e.amount)
          case Insufficient(_) => Raised
          case Covered(slices) => Posted(FlagGift(PostMove(reg, b, e, outflow.wallet, slices), e))
  }

  function SourceEvent(reg: Registry, e: Event): Option<Event> {
    match e.relocationSource
    case None => None
    case Some(id) => FindEvent(reg.events, id)
  }

  function Apply(reg: Registry, b: Books, e: Event): Outcome {
    match TreatmentOf(e)
    case Nothing | Wait => Posted(b)
    case Acquire => ApplyAcquire(reg, b, e)
    case Dispose => ApplyDispose(reg, b, e)
    case Relocate => ApplyRelocation(reg, b, e)
    case GiveAway => ApplyGift(reg, b, e)
    case Lend => Posted(b.(flagged := b.flagged + {e.id}))
  }

  /** A pass: events one after the other, until one throws. */
  function Run(reg: Registry, b: Books, events: seq<Event>): Outcome
    decreases events
  {
    if events == [] then Posted(b)
    else match Apply(reg, b, events[0])
      case Raised => Raised
      case Posted(next) => Run(reg, next, events[1..])
  }

  lemma {:induction false} RunAppend(reg: Registry, b: Books, first: seq<Event>, second: seq<Event>)
    ensures Run(reg, b, first + second)
         == match Run(reg, b, first) case Raised => Raised case Posted(mid) => Run(reg, mid, second)
    decreases first
  {
    if first == [] {
      assert first + second == second;
    } else {
      assert (first + second)[1..] == first[1..] + second;
      match Apply(reg, b, first[0]) {
        case Raised =>
        case Posted(next) => RunAppend(reg, next, first[1..], second);
      }
    }
  }

  // ---- Rebuilding a wallet ----

  predicate LotIn(b: Books, lot: nat, wallet: nat) {
    exists i :: 0 <= i < |b.lots| && b.lots[i].source == lot && b.lots[i].wallet == wallet
  }

  function OnOtherLot(b: Books, wallet: nat): DisposalRow -> bool {
    (row: DisposalRow) => !LotIn(b, row.lot, wallet)
  }

  function MovesOtherLot(b: Books, wallet: nat): RelocationRow -> bool {
    (row: RelocationRow) => !LotIn(b, row.lot, wallet)
  }

  function GivesOtherLot(b: Books, wallet: nat): GiftRow -> bool {
    (row: GiftRow) => !LotIn(b, row.lot, wallet)
  }

  predicate EventOf(reg: Registry, id: nat, wallet: nat) {
    exists i :: 0 <= i < |reg.events| && reg.events[i].id == id && reg.events[i].wallet == wallet
  }

  function FailedElsewhere(reg: Registry, wallet: nat): Failure -> bool {
    (f: Failure) => !EventOf(reg, f.tx, wallet)
  }

  function HeldElsewhere(wallet: nat): Lot -> bool {
    (lot: Lot) => lot.wallet != wallet
  }

  /** Wipes the wallet's lots with everything booked on them, and the failures of its events. */
  function Wipe(reg: Registry, b: Books, wallet: nat): Books {
    Books(Filter(b.lots, HeldElsewhere(wallet)),
          Filter(b.disposals, OnOtherLot(b, wallet)),
          Filter(b.relocations, MovesOtherLot(b, wallet)),
          Filter(b.gifts, GivesOtherLot(b, wallet)),
          Filter(b.failures, FailedElsewhere(reg, wallet)),
          b.flagged)
  }

  function Rebuild(reg: Registry, b: Books, wallet: nat): Outcome {
    Run(reg, Wipe(reg, b, wallet), WalletEvents(reg, wallet))
  }
}
