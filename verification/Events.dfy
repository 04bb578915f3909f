/** Classified events, what the lot engine does with each, and the reference tables it consults. */
module Events {
  import opened Calendar
  import opened Sequences
  import opened Lots

  datatype Kind =
    | Rewarded | Minted | Staked | Unstaked | TransferIn | TransferOut | Unclassified | Pended
    | Wrapped | Unwrapped | SwapCreditRedemption | Burned | BridgeIn | BridgeOut

  datatype Resolution =
    | RelocateInternal | RelocateContribution | RelocateGift | RelocateReassignment
    | Disposal | DisposalRelatedParty | GiftOut | NoOpLoan

  datatype Treatment = Acquire | Dispose | Relocate | GiveAway | Lend | Nothing | Wait

  /** A row of classified_transactions.  `value` and `amount` are in units of 1e-18. */
  datatype Event = Event(id: nat, wallet: nat, txHash: nat, occurredAt: Instant, block: int, eventSeq: int,
                         kind: Kind, notes: string, token: Option<nat>, amount: int, value: Option<int>,
                         resolution: Option<Resolution>, relocationSource: Option<nat>)

  datatype Assignment = Assignment(wallet: nat, entity: nat, effectiveFrom: Date, effectiveTo: Option<Date>)

  /** The tables the engine only reads. */
  datatype Registry = Registry(
    membership: map<nat, nat>,          // token -> logical asset
    nftAssets: set<nat>,                // logical assets whose kind is 'nft'
    decimals: map<nat, int>,            // token -> decimals
    assignments: seq<Assignment>,       // wallet ownership over time
    hifoEntities: set<nat>,             // entities whose default basis method is specific_id
    events: seq<Event>)                 // classified_transactions

  const SCDT_OUT := "scdt-out:"
  const NFT_IN := "l2-nft-in:"

  predicate IsRelocation(r: Resolution) {
    r in {RelocateInternal, RelocateContribution, RelocateGift, RelocateReassignment}
  }

  function TreatmentFromResolution(e: Event, r: Resolution): Treatment {
    if IsRelocation(r) then (if e.relocationSource.Some? then Relocate else Nothing)
    else match r
      case GiftOut => GiveAway
      case NoOpLoan => Lend
      case _ => Dispose
  }

  /** A transfer resolution takes precedence over the classification. */
  function TreatmentOf(e: Event): Treatment {
    match e.resolution
    case Some(r) => TreatmentFromResolution(e, r)
    case None =>
      match e.kind
      case Rewarded | Minted | TransferIn => Acquire
      case SwapCreditRedemption =>
        if SCDT_OUT <= e.notes then Dispose else if NFT_IN <= e.notes then Acquire else Wait
      case TransferOut | Burned => Dispose
      case Staked | Unstaked | Wrapped | Unwrapped | BridgeOut => Nothing
      case BridgeIn => Relocate
      case _ => Wait
  }

  function AcquisitionOf(e: Event): AcquisitionType {
    match e.kind
    case Rewarded => Reward
    case Minted | SwapCreditRedemption => Mint
    case _ => Buy
  }

  function CanonicalPool(reg: Registry, token: nat): Pool {
    if token in reg.membership then Logical(reg.membership[token]) else Token(token)
  }

  function AssetClassOf(reg: Registry, e: Event, token: nat): AssetClass {
    if e.kind in {Minted, SwapCreditRedemption} && token in reg.decimals && reg.decimals[token] == 0 then Collectible
    else if token in reg.membership && reg.membership[token] in reg.nftAssets then Collectible
    else Fungible
  }

  predicate InForce(a: Assignment, wallet: nat, at: Date) {
    a.wallet == wallet && DateLe(a.effectiveFrom, at) && (a.effectiveTo.Some? ==> DateLe(at, a.effectiveTo.value))
  }

  function EntityFor(assignments: seq<Assignment>, wallet: nat, at: Date): Option<nat> {
    if assignments == [] then None
    else if InForce(assignments[0], wallet, at) then Some(assignments[0].entity)
    else EntityFor(assignments[1..], wallet, at)
  }

  /** FIFO unless the wallet's entity on that date chose specific identification, which means HIFO. */
  function MethodFor(reg: Registry, e: Event): LotMethod {
    match EntityFor(reg.assignments, e.wallet, e.occurredAt.date)
    case None => Fifo
    case Some(entity) => if entity in reg.hifoEntities then Hifo else Fifo
  }

  function FindEvent(events: seq<Event>, id: nat): Option<Event> {
    if events == [] then None else if events[0].id == id then Some(events[0]) else FindEvent(events[1..], id)
  }

  function ScdtValue(events: seq<Event>, wallet: nat, txHash: nat): Option<int> {
    if events == [] then None
    else if events[0].wallet == wallet && events[0].txHash == txHash && events[0].kind == SwapCreditRedemption
         && SCDT_OUT <= events[0].notes then events[0].value
    else ScdtValue(events[1..], wallet, txHash)
  }

  /** The value recorded for an acquisition: its own, or that of the swap credit it was redeemed with. */
  function AcquiredValue(reg: Registry, e: Event): Option<int> {
    if e.value.Some? then e.value
    else if e.kind == SwapCreditRedemption && NFT_IN <= e.notes then ScdtValue(reg.events, e.wallet, e.txHash)
    else None
  }

  function ProceedsOf(e: Event): int {
    if e.kind == Burned then 0 else match e.value case Some(v) => v case None => 0
  }

  /** Canonical order: by time, then block, then place in the transaction, then id. */
  predicate EventLe(a: Event, b: Event) {
    if a.occurredAt != b.occurredAt then InstantLe(a.occurredAt, b.occurredAt)
    else if a.block != b.block then a.block < b.block
    else if a.eventSeq != b.eventSeq then a.eventSeq < b.eventSeq
    else a.id <= b.id
  }

  function EventKey(): (Event, Event) -> bool {
    (a, b) => EventLe(a, b)
  }

  lemma EventKeyTotal()
    ensures TotalPreorder(EventKey())
  {
  }

  function OfWallet(wallet: nat): Event -> bool {
    (e: Event) => e.wallet == wallet
  }

  /** The events of one wallet in canonical order. */
  function WalletEvents(reg: Registry, wallet: nat): seq<Event> {
    Sort(Filter(reg.events, OfWallet(wallet)), EventKey())
  }
}
