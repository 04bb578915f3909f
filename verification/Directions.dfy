/** What each event says about the movement it is about: which way it went, how much, and why that kind. */
module Directions {
  import opened Sequences
  import opened Classify
  import opened Partition

  // ---- Token transfers ----

  /** The kinds that bring something to the wallet. */
  const INBOUND := {TransferIn, Rewarded, Unstaked, Minted, Kind.Pending}

  /** The kinds that take something out of it. */
  const OUTBOUND := {TransferOut, Burned, Staked}

  /** To a sink of a token that burns. */
  predicate Sunk(ctx: Context, t: Transfer) {
    !t.nft && t.to in ctx.burns && t.contract in ctx.deflationary
  }

  /** The event's kind goes with the transfer's direction and parties. */
  predicate Directed(ctx: Context, e: Found, t: Transfer) {
    && (e.kind in INBOUND ==> t.to == ctx.wallet)
    && (e.kind in OUTBOUND ==> t.from == ctx.wallet)
    && (e.kind in {TransferOut, Burned} ==> t.to != ctx.wallet && (e.kind == Burned <==> Sunk(ctx, t)))
    && (e.kind == Staked ==> t.nft && t.to !in ctx.tracked)
    && (e.kind == Unstaked ==> t.nft)
    && (e.kind == Minted ==> t.nft && t.from == ctx.zero)
    && (e.kind == Rewarded ==> !t.nft && t.from != ctx.zero && t.from !in ctx.tracked)
    && (e.kind == SwapCreditRedemption <==> e.note != Plain)
    && (e.note == ScdtOut ==> t.nft && t.from == ctx.wallet && ctx.scdt == Some(t.contract))
    && (e.note == NftIn ==> t.nft && t.to == ctx.wallet && ctx.scdt != Some(t.contract))
    && e.kind !in {Wrapped, Unwrapped, Unclassified}
  }

  /** One for an NFT; otherwise the value, scaled as the registry scales the decoder's token or the transfer its own. */
  predicate Counted(ctx: Context, e: Found, t: Transfer) {
    if t.nft then e.amount.value == 1 && e.amount.decimals == 0
    else
      && e.amount.value == t.value
      && e.amount.decimals == (if e.token.None? then t.decimals
                               else if e.token.value in ctx.decimals then ctx.decimals[e.token.value] else 18)
  }

  function PriceIn(m: map<nat, int>, token: nat): Option<int> {
    if token in m then Some(m[token]) else None
  }

  /** Priced: a reward at the price of its token, a mint at its fee, a redemption at the price of the swap credit;
      and whatever should have a price and has none is to be reviewed. */
  predicate Priced(ctx: Context, e: Found) {
    && (e.kind !in {Rewarded, Minted, SwapCreditRedemption} ==> e.value.None?)
    && (e.kind in {Rewarded, Minted, SwapCreditRedemption} && e.value.None? ==> e.review)
    && (e.kind == SwapCreditRedemption ==> e.value == ctx.scdtPrice)
    && (e.kind == Rewarded ==> e.token.Some? && e.value == PriceIn(ctx.price, e.token.value))
    && (e.kind == Minted ==> e.token.Some? && e.value == PriceIn(ctx.mintValue, e.token.value))
    && (e.kind == Kind.Pending ==> e.review)
    && (e.review ==> e.kind in {Rewarded, Minted, SwapCreditRedemption, Kind.Pending})
    && (e.token.None? <==> e.kind in {TransferIn, TransferOut, Burned, SwapCreditRedemption})
  }

  predicate About(ctx: Context, e: Found, t: Transfer) {
    e.hint == t.logIndex && e.contract == t.contract && Directed(ctx, e, t) && Counted(ctx, e, t) && Priced(ctx, e)
  }

  ghost predicate AboutOne(ctx: Context, ts: seq<Transfer>, e: Found) {
    exists t :: t in ts && About(ctx, e, t)
  }

  lemma DetectsAbout(ctx: Context, configs: map<nat, Config>, d: Detector, t: Transfer)
    requires Detect(ctx, configs, d, t).Some?
    ensures About(ctx, Detect(ctx, configs, d, t).value, t) && Detect(ctx, configs, d, t).value.note == Plain
  {
  }

  /** What decoders and the common layer add: plain events, each about one of the transfers. */
  ghost predicate Adds(ctx: Context, ts: seq<Transfer>, before: seq<Found>, after: seq<Found>) {
    && before <= after
    && forall i :: |before| <= i < |after| ==> AboutOne(ctx, ts, after[i]) && after[i].note == Plain
  }

  lemma {:induction false} SweepAdds(ctx: Context, ts: seq<Transfer>, p: Progress, d: Detector, rest: seq<Transfer>)
    requires forall t :: t in rest ==> t in ts
    ensures Adds(ctx, ts, p.events, Sweep(ctx, p, d, rest).events)
    decreases rest
  {
    if rest != [] {
      var t := rest[0];
      if t.logIndex !in p.claims && Detect(ctx, p.configs, d, t).Some? {
        DetectsAbout(ctx, p.configs, d, t);
      }
      SweepAdds(ctx, ts, Visit(ctx, p, d, t), d, rest[1..]);
    }
  }

  lemma DecodeAdds(ctx: Context, p: Progress, d: Decoder, ts: seq<Transfer>)
    ensures Adds(ctx, ts, p.events, Decode(ctx, p, d, ts).events)
  {
    if d.mintOnly {
      SweepAdds(ctx, ts, p, MintOf(d.token, true), ts);
    } else {
      var rewarded := Sweep(ctx, p, RewardOf(d.token), ts);
      var staked := Sweep(ctx, rewarded, StakeOf(d.token), ts);
      SweepAdds(ctx, ts, p, RewardOf(d.token), ts);
      SweepAdds(ctx, ts, rewarded, StakeOf(d.token), ts);
      SweepAdds(ctx, ts, staked, UnstakeOf(d.token), ts);
      SweepAdds(ctx, ts, Sweep(ctx, staked, UnstakeOf(d.token), ts), MintOf(d.token, false), ts);
    }
  }

  lemma {:induction false} DecodeAllAdds(ctx: Context, p: Progress, decoders: seq<Decoder>, ts: seq<Transfer>)
    ensures Adds(ctx, ts, p.events, DecodeAll(ctx, p, decoders, ts).events)
    decreases decoders
  {
    if decoders != [] {
      DecodeAdds(ctx, p, decoders[0], ts);
      DecodeAllAdds(ctx, Decode(ctx, p, decoders[0], ts), decoders[1..], ts);
    }
  }

  // ---- Redemptions ----

  /** A swap credit that leaves, in a transfer no wrap absorbs. */
  function CreditOut(ctx: Context, b: Bundle): Transfer -> bool {
    (t: Transfer) =>
      t.logIndex !in Absorbed(ctx, b) && t.nft && t.from == ctx.wallet && ctx.scdt == Some(t.contract)
  }

  /** Some other NFT that arrives. */
  function OtherNftIn(ctx: Context, b: Bundle): Transfer -> bool {
    (t: Transfer) => t.logIndex !in Absorbed(ctx, b) && t.nft && t.to == ctx.wallet && ctx.scdt != Some(t.contract)
  }

  /** As many swap credits leave as other NFTs arrive, and some do. */
  predicate Redeems(ctx: Context, b: Bundle) {
    && Given(ctx.scdt) && Filter(b.transfers, CreditOut(ctx, b)) != []
    && |Filter(b.transfers, OtherNftIn(ctx, b))| == |Filter(b.transfers, CreditOut(ctx, b))|
  }

  /** The event is the transfer's side of a redemption. */
  predicate SideOf(ctx: Context, b: Bundle, e: Found, t: Transfer) {
    || (CreditOut(ctx, b)(t) && e == Redeemed(ctx, t, ScdtOut))
    || (OtherNftIn(ctx, b)(t) && e == Redeemed(ctx, t, NftIn))
  }

  lemma {:induction false} ClaimAllEvents(ctx: Context, p: Progress, rows: seq<Transfer>, note: Note)
    ensures p.events <= ClaimAll(ctx, p, rows, note).events
    ensures forall e :: e in ClaimAll(ctx, p, rows, note).events
                        <==> e in p.events || exists t :: t in rows && e == Redeemed(ctx, t, note)
    decreases rows
  {
    if rows != [] {
      ClaimAllEvents(ctx, Progress(p.claims + {rows[0].logIndex}, p.configs,
        p.events + [Redeemed(ctx, rows[0], note)]), rows[1..], note);
    }
  }

  /** The events of the recognizers: the wrap, and both sides of a redemption. */
  lemma RecognizedEvents(ctx: Context, configs: map<nat, Config>, b: Bundle, e: Found)
    ensures var wrapped := Progress(Absorbed(ctx, b), configs, WrapEvents(ctx, b));
            e in RecognizeSwap(ctx, b, wrapped).events
            <==> || e in WrapEvents(ctx, b)
                 || (Redeems(ctx, b)
                     && exists t :: t in b.transfers && SideOf(ctx, b, e, t))
  {
    var wrapped := Progress(Absorbed(ctx, b), configs, WrapEvents(ctx, b));
    FilterSame(b.transfers, RedeemedOut(ctx, wrapped.claims), CreditOut(ctx, b));
    FilterSame(b.transfers, RedeemedIn(ctx, wrapped.claims), OtherNftIn(ctx, b));
    var out, into := Filter(b.transfers, CreditOut(ctx, b)), Filter(b.transfers, OtherNftIn(ctx, b));
    ClaimAllEvents(ctx, wrapped, out, ScdtOut);
    ClaimAllEvents(ctx, ClaimAll(ctx, wrapped, out, ScdtOut), into, NftIn);
  }

  // ---- Native coin ----

  /** A positive amount of the chain's coin to the wallet, or else from it. */
  predicate Moved(ctx: Context, n: Native, e: Found) {
    && n.value > 0 && (n.to == ctx.wallet || n.from == ctx.wallet)
    && e.kind == (if n.to == ctx.wallet then TransferIn else TransferOut)
    && e.contract == ctx.zero && e.token.None? && e.amount.value == n.value && e.amount.decimals == 18
    && e.value.None? && !e.review && e.note == Plain && e.hint == -1
  }

  /** The value of the envelope, or an internal transfer. */
  predicate OfBundle(b: Bundle, n: Native) {
    (b.envelope.Some? && n == b.envelope.value.native) || n in b.internals
  }

  function HowMany(ctx: Context, natives: seq<Native>): nat {
    if natives == [] then 0
    else
      var n := natives[0];
      (if n.value > 0 && (n.to == ctx.wallet || n.from == ctx.wallet) then 1 else 0) + HowMany(ctx, natives[1..])
  }

  lemma {:induction false} NativesCounted(ctx: Context, natives: seq<Native>)
    ensures Count(NativeEvents(ctx, natives), -1) == HowMany(ctx, natives)
  {
    if natives != [] {
      NativesCounted(ctx, natives[1..]);
      var first := NativeEvent(ctx, natives[0]);
      CountAppend(first, NativeEvents(ctx, natives[1..]), -1);
      if first != [] {
        assert first[1..] == [];
      }
    }
  }

  lemma {:induction false} NativesMoved(ctx: Context, natives: seq<Native>, e: Found)
    ensures e in NativeEvents(ctx, natives) <==> exists n :: n in natives && Moved(ctx, n, e)
  {
    if natives != [] {
      NativesMoved(ctx, natives[1..], e);
      assert e in NativeEvent(ctx, natives[0]) <==> Moved(ctx, natives[0], e);
    }
  }

  // ---- Wraps ----

  /** The call is one to the wrapped coin's own contract. */
  predicate CallsWrapped(ctx: Context, b: Bundle) {
    && b.envelope.Some? && ctx.wrapped.Some? && ctx.wrapped.value != NO_ADDR
    && b.envelope.value.native.to == ctx.wrapped.value
  }

  /** Wrapped coin sent to be burnt. */
  predicate IsBurn(ctx: Context, t: Transfer) {
    ctx.wrapped == Some(t.contract) && t.from == ctx.wallet && t.to == ctx.zero
  }

  predicate FirstBurnAt(ctx: Context, ts: seq<Transfer>, i: nat) {
    i < |ts| && IsBurn(ctx, ts[i]) && forall j :: 0 <= j < i ==> !IsBurn(ctx, ts[j])
  }

  /** A deposit wraps the native value that was sent, if any; a withdrawal unwraps what the first burn took. */
  ghost predicate IsWrap(ctx: Context, b: Bundle, e: Found) {
    && CallsWrapped(ctx, b)
    && e == Found(e.kind, ctx.wrapped.value, None, e.amount, None, false, Plain, -1)
    && (match b.envelope.value.selector
        case Deposit =>
          && b.envelope.value.native.value > 0 && e.kind == Wrapped
          && e.amount == Amount(b.envelope.value.native.value, 18)
        case Withdraw =>
          e.kind == Unwrapped
          && exists i: nat :: FirstBurnAt(ctx, b.transfers, i) && e.amount == Amount(b.transfers[i].value, 18)
        case OtherCall => false)
  }

  lemma {:induction false} FirstBurnIs(ctx: Context, ts: seq<Transfer>) returns (i: nat)
    ensures FirstBurn(ctx, ts).None? ==> i == |ts| && forall t :: t in ts ==> !IsBurn(ctx, t)
    ensures FirstBurn(ctx, ts).Some? ==> FirstBurnAt(ctx, ts, i) && FirstBurn(ctx, ts).value == ts[i]
  {
    if ts == [] || IsBurn(ctx, ts[0]) {
      i := 0;
    } else {
      var k := FirstBurnIs(ctx, ts[1..]);
      i := k + 1;
      assert forall j :: 0 < j < i ==> ts[j] == ts[1..][j - 1];
    }
  }

  lemma WrapsAre(ctx: Context, b: Bundle, e: Found)
    ensures e in WrapEvents(ctx, b) <==> IsWrap(ctx, b, e)
  {
    var i := FirstBurnIs(ctx, b.transfers);
    if FirstBurn(ctx, b.transfers).Some? {
      forall j: nat | FirstBurnAt(ctx, b.transfers, j) ensures j == i {
      }
    }
  }

  // ---- The bundle ----

  lemma SideIsAbout(ctx: Context, b: Bundle, e: Found, t: Transfer)
    requires t in b.transfers && SideOf(ctx, b, e, t)
    ensures AboutOne(ctx, b.transfers, e)
  {
    assert About(ctx, e, t);
  }

  /** Whatever decoders are registered, an event is about a transfer of the bundle and its direction, amount and
      price, or it is a native movement, or the wrap. */
  lemma EventsAreDirected(ctx: Context, configs: map<nat, Config>, b: Bundle, decoders: seq<Decoder>, e: Found)
    requires e in EventsOf(ctx, configs, b, decoders)
    ensures || AboutOne(ctx, b.transfers, e)
            || (exists n :: OfBundle(b, n) && Moved(ctx, n, e))
            || IsWrap(ctx, b, e)
  {
    LaterEvents(ctx, configs, b, decoders, e);
    RecognizedEvents(ctx, configs, b, e);
    WrapsAre(ctx, b, e);
    if t :| t in b.transfers && SideOf(ctx, b, e, t) {
      SideIsAbout(ctx, b, e, t);
    }
  }

  /** After the recognizers come plain events about transfers, and the native movements. */
  lemma LaterEvents(ctx: Context, configs: map<nat, Config>, b: Bundle, decoders: seq<Decoder>, e: Found)
    ensures var swapped := RecognizeSwap(ctx, b, Progress(Absorbed(ctx, b), configs, WrapEvents(ctx, b)));
            && (e in swapped.events ==> e in EventsOf(ctx, configs, b, decoders))
            && (e in EventsOf(ctx, configs, b, decoders) ==>
                  || e in swapped.events
                  || (AboutOne(ctx, b.transfers, e) && e.note == Plain)
                  || (exists n :: n in NativesOf(b) && Moved(ctx, n, e)))
  {
    var swapped := RecognizeSwap(ctx, b, Progress(Absorbed(ctx, b), configs, WrapEvents(ctx, b)));
    DecodeAllAdds(ctx, swapped, decoders, b.transfers);
    var decoded := DecodeAll(ctx, swapped, decoders, b.transfers);
    SweepAdds(ctx, b.transfers, decoded, Common, b.transfers);
    NativesMoved(ctx, NativesOf(b), e);
    var all := AllPasses(ctx, configs, b, decoders).events;
    if e in swapped.events {
      var k :| 0 <= k < |swapped.events| && swapped.events[k] == e;
      assert all[k] == e;
    }
    if e in all {
      var k :| 0 <= k < |all| && all[k] == e;
      if k < |swapped.events| {
        assert e == swapped.events[k];
      }
    }
  }

  lemma NotedIsSide(ctx: Context, configs: map<nat, Config>, b: Bundle, decoders: seq<Decoder>, t: Transfer, e: Found)
    requires DistinctIndexes(b.transfers) && t in b.transfers
    requires e in EventsOf(ctx, configs, b, decoders) && e.hint == t.logIndex && e.note != Plain
    ensures Redeems(ctx, b) && SideOf(ctx, b, e, t)
  {
    LaterEvents(ctx, configs, b, decoders, e);
    RecognizedEvents(ctx, configs, b, e);
    var other :| other in b.transfers && SideOf(ctx, b, e, other);
    SameIndex(b.transfers, t, other);
  }

  /** Swap credits are redeemed exactly when as many of them leave as other NFTs arrive: then every one of either
      side has an event, at the price of the credit, and otherwise none has. */
  lemma RedemptionsPairUp(ctx: Context, configs: map<nat, Config>, b: Bundle, decoders: seq<Decoder>, t: Transfer)
    requires DistinctIndexes(b.transfers) && t in b.transfers
    ensures var events := EventsOf(ctx, configs, b, decoders);
            && ((exists e :: e in events && e.hint == t.logIndex && e.note == ScdtOut)
                <==> Redeems(ctx, b) && CreditOut(ctx, b)(t))
            && ((exists e :: e in events && e.hint == t.logIndex && e.note == NftIn)
                <==> Redeems(ctx, b) && OtherNftIn(ctx, b)(t))
  {
    forall e | e in EventsOf(ctx, configs, b, decoders) && e.hint == t.logIndex && e.note != Plain
      ensures Redeems(ctx, b) && SideOf(ctx, b, e, t)
    {
      NotedIsSide(ctx, configs, b, decoders, t, e);
    }
    if Redeems(ctx, b) && CreditOut(ctx, b)(t) {
      LaterEvents(ctx, configs, b, decoders, Redeemed(ctx, t, ScdtOut));
      RecognizedEvents(ctx, configs, b, Redeemed(ctx, t, ScdtOut));
    }
    if Redeems(ctx, b) && OtherNftIn(ctx, b)(t) {
      LaterEvents(ctx, configs, b, decoders, Redeemed(ctx, t, NftIn));
      RecognizedEvents(ctx, configs, b, Redeemed(ctx, t, NftIn));
    }
  }

  /** A deposit absorbs every mint of wrapped coin to the wallet, a withdrawal the first burn of it and no other. */
  lemma AbsorbedIff(ctx: Context, b: Bundle, t: Transfer)
    requires DistinctIndexes(b.transfers) && t in b.transfers
    ensures t.logIndex in Absorbed(ctx, b)
            <==> CallsWrapped(ctx, b) && t.contract == ctx.wrapped.value
                 && match b.envelope.value.selector
                    case Deposit => b.envelope.value.native.value > 0 && t.from == ctx.zero && t.to == ctx.wallet
                    case Withdraw => exists i: nat :: FirstBurnAt(ctx, b.transfers, i) && b.transfers[i] == t
                    case OtherCall => false
  {
    var i := FirstBurnIs(ctx, b.transfers);
    if FirstBurn(ctx, b.transfers).Some? {
      forall j: nat | FirstBurnAt(ctx, b.transfers, j) ensures j == i {
      }
      if t.logIndex == b.transfers[i].logIndex {
        SameIndex(b.transfers, t, b.transfers[i]);
      }
    }
    forall other | other in b.transfers && other.logIndex == t.logIndex ensures other == t {
      SameIndex(b.transfers, other, t);
    }
  }

  lemma {:induction false} NoneAt(events: seq<Found>, hint: int)
    requires forall e :: e in events ==> e.hint != hint
    ensures Count(events, hint) == 0
  {
    if events != [] {
      assert events[0] in events;
      NoneAt(events[1..], hint);
    }
  }

  lemma {:induction false} CountGrown(before: seq<Found>, after: seq<Found>, hint: int)
    requires before <= after && forall i :: |before| <= i < |after| ==> after[i].hint != hint
    ensures Count(after, hint) == Count(before, hint)
  {
    var rest := after[|before|..];
    assert after == before + rest;
    CountAppend(before, rest, hint);
    NoneAt(rest, hint);
  }

  lemma {:induction false} ClaimAllCount(ctx: Context, p: Progress, rows: seq<Transfer>, note: Note)
    requires forall t :: t in rows ==> t.logIndex != -1
    ensures Count(ClaimAll(ctx, p, rows, note).events, -1) == Count(p.events, -1)
    decreases rows
  {
    if rows != [] {
      assert rows[0] in rows;
      CountOne(p.events, Redeemed(ctx, rows[0], note), -1);
      ClaimAllCount(ctx, Progress(p.claims + {rows[0].logIndex}, p.configs,
        p.events + [Redeemed(ctx, rows[0], note)]), rows[1..], note);
    }
  }

  lemma AddedElsewhere(ctx: Context, ts: seq<Transfer>, before: seq<Found>, after: seq<Found>)
    requires DistinctIndexes(ts) && Adds(ctx, ts, before, after)
    ensures Count(after, -1) == Count(before, -1)
  {
    forall i | |before| <= i < |after| ensures after[i].hint != -1 {
      assert AboutOne(ctx, ts, after[i]);
    }
    CountGrown(before, after, -1);
  }

  /** Besides the events of transfers there are as many as native movements of some value touch the wallet, the
      envelope's and each internal one, and one for a wrap. */
  lemma NativesAllThere(ctx: Context, configs: map<nat, Config>, b: Bundle, decoders: seq<Decoder>)
    requires DistinctIndexes(b.transfers)
    ensures Count(EventsOf(ctx, configs, b, decoders), -1)
         == |WrapEvents(ctx, b)| + HowMany(ctx, b.internals)
            + if b.envelope.Some? then HowMany(ctx, [b.envelope.value.native]) else 0
  {
    var wrapped := Progress(Absorbed(ctx, b), configs, WrapEvents(ctx, b));
    var out := Filter(b.transfers, RedeemedOut(ctx, wrapped.claims));
    var into := Filter(b.transfers, RedeemedIn(ctx, wrapped.claims));
    assert forall t :: t in b.transfers ==> t.logIndex >= 0;
    ClaimAllCount(ctx, wrapped, out, ScdtOut);
    ClaimAllCount(ctx, ClaimAll(ctx, wrapped, out, ScdtOut), into, NftIn);
    var swapped := RecognizeSwap(ctx, b, wrapped);
    var decoded := DecodeAll(ctx, swapped, decoders, b.transfers);
    DecodeAllAdds(ctx, swapped, decoders, b.transfers);
    AddedElsewhere(ctx, b.transfers, swapped.events, decoded.events);
    SweepAdds(ctx, b.transfers, decoded, Common, b.transfers);
    AddedElsewhere(ctx, b.transfers, decoded.events, Sweep(ctx, decoded, Common, b.transfers).events);
    WrapsCounted(ctx, b);
    NativesCounted(ctx, NativesOf(b));
    HowManyOf(ctx, b);
    CountAppend(AllPasses(ctx, configs, b, decoders).events, NativeEvents(ctx, NativesOf(b)), -1);
  }

  lemma WrapsCounted(ctx: Context, b: Bundle)
    ensures Count(WrapEvents(ctx, b), -1) == |WrapEvents(ctx, b)|
  {
    var events := WrapEvents(ctx, b);
    if events != [] {
      assert |events| == 1 && events[1..] == [];
    }
  }

  lemma HowManyOf(ctx: Context, b: Bundle)
    ensures HowMany(ctx, NativesOf(b))
         == HowMany(ctx, b.internals) + if b.envelope.Some? then HowMany(ctx, [b.envelope.value.native]) else 0
  {
    if b.envelope.Some? {
      assert NativesOf(b)[1..] == b.internals && [b.envelope.value.native][1..] == [];
    } else {
      assert NativesOf(b) == b.internals;
    }
  }
}
