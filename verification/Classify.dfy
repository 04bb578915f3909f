/** The classifier on one transaction: recognizers and decoders claim raw token transfers, and what nobody
    claims falls to the common layer. */
module Classify {
  import opened Sequences

  /** Lower-cased; NO_ADDR stands for the empty string. */
  type Addr = nat

  const NO_ADDR: Addr := 0

  datatype Kind =
    | Minted | Staked | Unstaked | Rewarded | Wrapped | Unwrapped | SwapCreditRedemption | Burned
    | TransferIn | TransferOut | Pending | Unclassified

  /** A raw token transfer.  An NFT is one that carries a token id. */
  datatype Transfer = Transfer(logIndex: int, contract: Addr, from: Addr, to: Addr, nft: bool, value: int,
                               decimals: int)

  /** value scaled down by a power of ten */
  datatype Amount = Amount(value: int, decimals: int)

  const ONE := Amount(1, 0)

  datatype Note = Plain | ScdtOut | NftIn

  datatype Found = Found(kind: Kind, contract: Addr, token: Option<nat>, amount: Amount, value: Option<int>,
                         review: bool, note: Note, hint: int)

  datatype Status = Unknown | Discovered | Confirmed

  datatype Config = Config(staking: Option<Addr>, stakingStatus: Status, distributionComplete: bool,
                           nft: Option<Addr>, nftStatus: Status)

  /** A registered decoder: the base one, or the one that only mints and parks a mint whose fee it cannot find. */
  datatype Decoder = Decoder(token: nat, mintOnly: bool)

  datatype Native = Native(from: Addr, to: Addr, value: int)

  datatype Selector = Deposit | Withdraw | OtherCall

  /** The envelope: who was called, how, and with what native value. */
  datatype Envelope = Envelope(native: Native, selector: Selector)

  datatype Bundle = Bundle(envelope: Option<Envelope>, transfers: seq<Transfer>, internals: seq<Native>)

  /** What decoders read: the wallet, the registry, and the prices at the time of the transaction. */
  datatype Context = Context(wallet: Addr, zero: Addr, tracked: set<Addr>, wrapped: Option<Addr>, scdt: Option<Addr>,
                             scdtPrice: Option<int>, erc20: map<nat, Addr>, decimals: map<nat, int>,
                             price: map<nat, int>,
                             mintValue: map<nat, int>, feeKnown: set<nat>, burns: set<Addr>, deflationary: set<Addr>)

  /** What the passes over a bundle thread along: the claim set, the configs decoders complete, the events. */
  datatype Progress = Progress(claims: set<int>, configs: map<nat, Config>, events: seq<Found>)

  predicate Given(a: Option<Addr>) {
    a.Some? && a.value != NO_ADDR
  }

  function ConfigFor(configs: map<nat, Config>, token: nat): Option<Config> {
    if token in configs then Some(configs[token]) else None
  }

  function ProposeStaking(configs: map<nat, Config>, token: nat, addr: Addr): map<nat, Config> {
    if token in configs && !Given(configs[token].staking)
    then configs[token := configs[token].(staking := Some(addr), stakingStatus := Discovered)]
    else configs
  }

  function ProposeNft(configs: map<nat, Config>, token: nat, addr: Addr): map<nat, Config> {
    if token in configs && !Given(configs[token].nft)
    then configs[token := configs[token].(nft := Some(addr), nftStatus := Discovered)]
    else configs
  }

  // ---- Detectors ----

  datatype Detector =
    RewardOf(token: nat) | StakeOf(token: nat) | UnstakeOf(token: nat) | MintOf(token: nat, park: bool) | Common

  function Scale(ctx: Context, token: nat): int {
    if token in ctx.decimals then ctx.decimals[token] else 18
  }

  function Lookup(m: map<nat, int>, token: nat): Option<int> {
    if token in m then Some(m[token]) else None
  }

  predicate IsErc20Of(ctx: Context, token: nat, t: Transfer) {
    !t.nft && t.contract == (if token in ctx.erc20 then ctx.erc20[token] else NO_ADDR)
  }

  predicate IsNftOf(cfg: Option<Config>, t: Transfer) {
    t.nft && (cfg.Some? && Given(cfg.value.nft) ==> Some(t.contract) == cfg.value.nft)
  }

  /** An unknown staking contract parks the transfer; the known one makes it a reward. */
  function DetectReward(ctx: Context, cfg: Option<Config>, token: nat, t: Transfer): Option<Found> {
    if !IsErc20Of(ctx, token, t) || t.to != ctx.wallet || t.from == ctx.zero || t.from in ctx.tracked then None
    else if cfg.None? || cfg.value.staking.None? then
      Some(Found(Pending, t.contract, Some(token), Amount(t.value, Scale(ctx, token)), None, true, Plain, t.logIndex))
    else if cfg.value.staking.value != t.from then None
    else
      var fmv := Lookup(ctx.price, token);
      var review := cfg.value.stakingStatus != Confirmed || cfg.value.distributionComplete || fmv.None?;
      Some(Found(Rewarded, t.contract, Some(token), Amount(t.value, Scale(ctx, token)), fmv, review, Plain, t.logIndex))
  }

  function DetectStake(ctx: Context, cfg: Option<Config>, token: nat, t: Transfer): Option<Found> {
    if !IsNftOf(cfg, t) || t.from != ctx.wallet || t.to in ctx.tracked then None
    else Some(Found(Staked, t.contract, Some(token), ONE, None, false, Plain, t.logIndex))
  }

  function DetectUnstake(ctx: Context, cfg: Option<Config>, token: nat, t: Transfer): Option<Found> {
    if !IsNftOf(cfg, t) || t.to != ctx.wallet then None
    else if cfg.None? || !Given(cfg.value.staking) || cfg.value.staking.value != t.from then None
    else Some(Found(Unstaked, t.contract, Some(token), ONE, None, false, Plain, t.logIndex))
  }

  function DetectMint(ctx: Context, cfg: Option<Config>, token: nat, park: bool, t: Transfer): Option<Found> {
    if cfg.None? || !Given(cfg.value.nft) || cfg.value.nftStatus == Unknown then None
    else if !t.nft || t.contract != cfg.value.nft.value || t.from != ctx.zero || t.to != ctx.wallet then None
    else if park && token !in ctx.feeKnown then
      Some(Found(Pending, t.contract, Some(token), ONE, None, true, Plain, t.logIndex))
    else
      var value := Lookup(ctx.mintValue, token);
      Some(Found(Minted, t.contract, Some(token), ONE, value, value.None?, Plain, t.logIndex))
  }

  /** In, out, or out to a confirmed sink of a deflationary token. */
  function DetectCommon(ctx: Context, t: Transfer): Option<Found> {
    var amount := if t.nft then ONE else Amount(t.value, t.decimals);
    if t.to == ctx.wallet then Some(Found(TransferIn, t.contract, None, amount, None, false, Plain, t.logIndex))
    else if t.from == ctx.wallet then
      var burnt := !t.nft && t.to in ctx.burns && t.contract in ctx.deflationary;
      Some(Found(if burnt then Burned else TransferOut, t.contract, None, amount, None, false, Plain, t.logIndex))
    else None
  }

  function Detect(ctx: Context, configs: map<nat, Config>, d: Detector, t: Transfer): Option<Found> {
    match d
    case RewardOf(token) => DetectReward(ctx, ConfigFor(configs, token), token, t)
    case StakeOf(token) => DetectStake(ctx, ConfigFor(configs, token), token, t)
    case UnstakeOf(token) => DetectUnstake(ctx, ConfigFor(configs, token), token, t)
    case MintOf(token, park) => DetectMint(ctx, ConfigFor(configs, token), token, park, t)
    case Common => DetectCommon(ctx, t)
  }

  /** What a detector writes back when it claims a transfer. */
  function Learn(configs: map<nat, Config>, d: Detector, t: Transfer): map<nat, Config> {
    match d
    case RewardOf(token) =>
      if token in configs && configs[token].staking.None? then ProposeStaking(configs, token, t.from) else configs
    case StakeOf(token) => ProposeNft(ProposeStaking(configs, token, t.to), token, t.contract)
    case _ => configs
  }

  function Visit(ctx: Context, p: Progress, d: Detector, t: Transfer): Progress {
    if t.logIndex in p.claims then p
    else match Detect(ctx, p.configs, d, t)
      case None => p
      case Some(found) => Progress(p.claims + {t.logIndex}, Learn(p.configs, d, t), p.events + [found])
  }

  function Sweep(ctx: Context, p: Progress, d: Detector, transfers: seq<Transfer>): Progress
    decreases transfers
  {
    if transfers == [] then p else Sweep(ctx, Visit(ctx, p, d, transfers[0]), d, transfers[1..])
  }

  // ---- Recognizers ----

  predicate MintsWrapped(ctx: Context, t: Transfer) {
    ctx.wrapped == Some(t.contract) && t.from == ctx.zero && t.to == ctx.wallet
  }

  predicate BurnsWrapped(ctx: Context, t: Transfer) {
    ctx.wrapped == Some(t.contract) && t.from == ctx.wallet && t.to == ctx.zero
  }

  function WrappedMints(ctx: Context, transfers: seq<Transfer>): (s: set<int>)
    ensures forall x :: x in s <==> exists t :: t in transfers && MintsWrapped(ctx, t) && t.logIndex == x
  {
    set t | t in transfers && MintsWrapped(ctx, t) :: t.logIndex
  }

  function FirstBurn(ctx: Context, transfers: seq<Transfer>): Option<Transfer> {
    if transfers == [] then None
    else if BurnsWrapped(ctx, transfers[0]) then Some(transfers[0])
    else FirstBurn(ctx, transfers[1..])
  }

  /** The transfers a wrap absorbs: every mint of wrapped coin to the wallet, or the first burn of it. */
  function Absorbed(ctx: Context, b: Bundle): set<int> {
    if b.envelope.None? || !Given(ctx.wrapped) || b.envelope.value.native.to != ctx.wrapped.value then {}
    else match b.envelope.value.selector
      case Deposit => if b.envelope.value.native.value <= 0 then {} else WrappedMints(ctx, b.transfers)
      case Withdraw => (match FirstBurn(ctx, b.transfers) case None => {} case Some(t) => {t.logIndex})
      case OtherCall => {}
  }

  function WrapEvents(ctx: Context, b: Bundle): seq<Found> {
    if b.envelope.None? || !Given(ctx.wrapped) || b.envelope.value.native.to != ctx.wrapped.value then []
    else match b.envelope.value.selector
      case Deposit =>
        if b.envelope.value.native.value <= 0 then []
        else
          var amount := Amount(b.envelope.value.native.value, 18);
          [Found(Wrapped, ctx.wrapped.value, None, amount, None, false, Plain, -1)]
      case Withdraw =>
        (match FirstBurn(ctx, b.transfers)
         case None => []
         case Some(t) => [Found(Unwrapped, ctx.wrapped.value, None, Amount(t.value, 18), None, false, Plain, -1)])
      case OtherCall => []
  }

  predicate RedeemsOut(ctx: Context, claims: set<int>, t: Transfer) {
    t.logIndex !in claims && ctx.scdt == Some(t.contract) && t.nft && t.from == ctx.wallet
  }

  predicate RedeemsIn(ctx: Context, claims: set<int>, t: Transfer) {
    t.logIndex !in claims && ctx.scdt != Some(t.contract) && t.nft && t.to == ctx.wallet
  }

  function RedeemedOut(ctx: Context, claims: set<int>): Transfer -> bool {
    (t: Transfer) => RedeemsOut(ctx, claims, t)
  }

  function RedeemedIn(ctx: Context, claims: set<int>): Transfer -> bool {
    (t: Transfer) => RedeemsIn(ctx, claims, t)
  }

  function Redeemed(ctx: Context, t: Transfer, note: Note): Found {
    Found(SwapCreditRedemption, t.contract, None, ONE, ctx.scdtPrice, ctx.scdtPrice.None?, note, t.logIndex)
  }

  /** Claims the transfers one after the other, with an event for each. */
  function ClaimAll(ctx: Context, p: Progress, rows: seq<Transfer>, note: Note): Progress
    decreases rows
  {
    if rows == [] then p
    else
      var next := Progress(p.claims + {rows[0].logIndex}, p.configs, p.events + [Redeemed(ctx, rows[0], note)]);
      ClaimAll(ctx, next, rows[1..], note)
  }

  /** Swap credits out against NFTs in, when there are as many of each. */
  function RecognizeSwap(ctx: Context, b: Bundle, p: Progress): Progress {
    if !Given(ctx.scdt) then p
    else
      var out := Filter(b.transfers, RedeemedOut(ctx, p.claims));
      var into := Filter(b.transfers, RedeemedIn(ctx, p.claims));
      if out == [] || |into| != |out| then p
      else ClaimAll(ctx, ClaimAll(ctx, p, out, ScdtOut), into, NftIn)
  }

  // ---- The bundle ----

  function Decode(ctx: Context, p: Progress, d: Decoder, transfers: seq<Transfer>): Progress {
    if d.mintOnly then Sweep(ctx, p, MintOf(d.token, true), transfers)
    else
      var rewarded := Sweep(ctx, p, RewardOf(d.token), transfers);
      var staked := Sweep(ctx, rewarded, StakeOf(d.token), transfers);
      var unstaked := Sweep(ctx, staked, UnstakeOf(d.token), transfers);
      Sweep(ctx, unstaked, MintOf(d.token, false), transfers)
  }

  function DecodeAll(ctx: Context, p: Progress, decoders: seq<Decoder>, transfers: seq<Transfer>): Progress
    decreases decoders
  {
    if decoders == [] then p else DecodeAll(ctx, Decode(ctx, p, decoders[0], transfers), decoders[1..], transfers)
  }

  function NativeEvent(ctx: Context, n: Native): seq<Found> {
    if n.value <= 0 then []
    else if n.to == ctx.wallet then [Found(TransferIn, ctx.zero, None, Amount(n.value, 18), None, false, Plain, -1)]
    else if n.from == ctx.wallet then [Found(TransferOut, ctx.zero, None, Amount(n.value, 18), None, false, Plain, -1)]
    else []
  }

  function NativeEvents(ctx: Context, natives: seq<Native>): seq<Found> {
    if natives == [] then [] else NativeEvent(ctx, natives[0]) + NativeEvents(ctx, natives[1..])
  }

  function NativesOf(b: Bundle): seq<Native> {
    (match b.envelope case Some(e) => [e.native] case None => []) + b.internals
  }

  /** All passes over the bundle. */
  function AllPasses(ctx: Context, configs: map<nat, Config>, b: Bundle, decoders: seq<Decoder>): Progress {
    var wrapped := Progress(Absorbed(ctx, b), configs, WrapEvents(ctx, b));
    var swapped := RecognizeSwap(ctx, b, wrapped);
    var decoded := DecodeAll(ctx, swapped, decoders, b.transfers);
    Sweep(ctx, decoded, Common, b.transfers)
  }

  function EventsOf(ctx: Context, configs: map<nat, Config>, b: Bundle, decoders: seq<Decoder>): seq<Found> {
    AllPasses(ctx, configs, b, decoders).events + NativeEvents(ctx, NativesOf(b))
  }

  function Priority(kind: Kind): int {
    match kind
    case Minted => 0
    case Staked => 1
    case Unstaked => 2
    case Rewarded => 3
    case Wrapped => 4
    case Unwrapped => 5
    case SwapCreditRedemption => 6
    case Burned => 7
    case TransferIn => 8
    case TransferOut => 9
    case Pending => 10
    case Unclassified => 11
  }

  predicate Earlier(a: Found, b: Found) {
    a.hint < b.hint || (a.hint == b.hint && Priority(a.kind) <= Priority(b.kind))
  }

  function HintKey(): (Found, Found) -> bool {
    (a, b) => Earlier(a, b)
  }

  datatype Row = Row(wallet: nat, tx: nat, eventSeq: nat, found: Found, manual: bool)

  function Numbered(wallet: nat, tx: nat, events: seq<Found>, from: nat): (rows: seq<Row>)
    ensures |rows| == |events|
    ensures forall i :: 0 <= i < |events| ==> rows[i] == Row(wallet, tx, from + i, events[i], false)
  {
    if events == [] then [] else [Row(wallet, tx, from, events[0], false)] + Numbered(wallet, tx, events[1..], from + 1)
  }

  /** event_seq numbers the events in the order of their hints, ties by kind. */
  function AssignSeq(wallet: nat, tx: nat, events: seq<Found>): seq<Row> {
    Numbered(wallet, tx, Sort(events, HintKey()), 0)
  }
}
