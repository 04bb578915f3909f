/** Which kind a transfer gets: the detectors in their order, and what they learn, as one table. */
module Kinds {
  import opened Sequences
  import opened Classify
  import opened Partition
  import opened Directions

  // ---- The table ----

  /** The token itself, to the wallet, from a stranger. */
  predicate FromStranger(ctx: Context, token: nat, t: Transfer) {
    && !t.nft && t.contract == (if token in ctx.erc20 then ctx.erc20[token] else NO_ADDR)
    && t.to == ctx.wallet && t.from != ctx.zero && t.from !in ctx.tracked
  }

  /** An NFT that may be the token's: of its collection, or of any while none is known. */
  predicate OfCollection(configs: map<nat, Config>, token: nat, t: Transfer) {
    t.nft && (token in configs && Given(configs[token].nft) ==> configs[token].nft == Some(t.contract))
  }

  predicate StakesWith(configs: map<nat, Config>, token: nat, addr: Addr) {
    token in configs && configs[token].staking == Some(addr)
  }

  /** An NFT of the token's known collection, minted to the wallet. */
  predicate MintedTo(ctx: Context, configs: map<nat, Config>, token: nat, t: Transfer) {
    && t.nft && t.from == ctx.zero && t.to == ctx.wallet && t.contract != NO_ADDR
    && token in configs && configs[token].nft == Some(t.contract) && configs[token].nftStatus != Unknown
  }

  /** The kind of a transfer nobody claims. */
  function PlainKind(ctx: Context, t: Transfer): Option<Kind> {
    if t.to == ctx.wallet then Some(TransferIn)
    else if t.from != ctx.wallet then None
    else if Sunk(ctx, t) then Some(Burned)
    else Some(TransferOut)
  }

  /** The kind a decoder gives a transfer, if it claims it. */
  function ClaimedAs(ctx: Context, configs: map<nat, Config>, d: Decoder, t: Transfer): Option<Kind> {
    if d.mintOnly then
      if !MintedTo(ctx, configs, d.token, t) then None
      else if d.token in ctx.feeKnown then Some(Minted)
      else Some(Kind.Pending)
    else if FromStranger(ctx, d.token, t) && (d.token in configs ==> configs[d.token].staking.None?) then
      Some(Kind.Pending)
    else if FromStranger(ctx, d.token, t) && StakesWith(configs, d.token, t.from) then Some(Rewarded)
    else if OfCollection(configs, d.token, t) && t.from == ctx.wallet && t.to !in ctx.tracked then Some(Staked)
    else if OfCollection(configs, d.token, t) && t.to == ctx.wallet && t.from != NO_ADDR
            && StakesWith(configs, d.token, t.from) then Some(Unstaked)
    else if MintedTo(ctx, configs, d.token, t) then Some(Minted)
    else None
  }

  /** The kind of a transfer that no recognizer claims: that of the first decoder to claim it, or the plain one. */
  function KindOf(ctx: Context, configs: map<nat, Config>, decoders: seq<Decoder>, t: Transfer): Option<Kind> {
    if decoders == [] then PlainKind(ctx, t)
    else match ClaimedAs(ctx, configs, decoders[0], t)
      case Some(kind) => Some(kind)
      case None => KindOf(ctx, configs, decoders[1..], t)
  }

  /** A reward wants review unless its source is confirmed and still distributes, and its price is known. */
  predicate ReviewedRight(ctx: Context, configs: map<nat, Config>, e: Found) {
    e.kind == Rewarded && e.token.Some? && e.token.value in configs ==>
      var cfg := configs[e.token.value];
      e.review <==> cfg.stakingStatus != Confirmed || cfg.distributionComplete || e.token.value !in ctx.price
  }

  // ---- One detector ----

  /** The sweep from p to q settles the transfer if the detector claims it, and otherwise leaves it for the next,
      with the configurations as they were. */
  ghost predicate Tells(ctx: Context, p: Progress, q: Progress, d: Detector, t: Transfer) {
    && p.events <= q.events && p.claims <= q.claims
    && (t.logIndex !in p.claims ==>
          match Detect(ctx, p.configs, d, t)
          case None => t.logIndex !in q.claims && q.configs == p.configs
          case Some(found) => t.logIndex in q.claims && found in q.events)
  }

  /** Both contracts are known for every token. */
  predicate Settled(configs: map<nat, Config>) {
    forall token :: token in configs ==> Given(configs[token].staking) && Given(configs[token].nft)
  }

  lemma {:induction false} SweepClaims(ctx: Context, p: Progress, d: Detector, rest: seq<Transfer>, x: int)
    ensures p.claims <= Sweep(ctx, p, d, rest).claims
    ensures x in Sweep(ctx, p, d, rest).claims ==> x in p.claims || exists t :: t in rest && t.logIndex == x
    decreases rest
  {
    if rest != [] {
      SweepClaims(ctx, Visit(ctx, p, d, rest[0]), d, rest[1..], x);
    }
  }

  /** The detector has nothing to write back. */
  predicate Learned(configs: map<nat, Config>, d: Detector) {
    Settled(configs) || (!d.RewardOf? && !d.StakeOf?)
  }

  lemma {:induction false} NothingLearned(ctx: Context, p: Progress, d: Detector, rest: seq<Transfer>)
    requires Learned(p.configs, d)
    ensures Sweep(ctx, p, d, rest).configs == p.configs
    decreases rest
  {
    if rest != [] {
      NothingLearned(ctx, Visit(ctx, p, d, rest[0]), d, rest[1..]);
    }
  }

  lemma RestDiffers(ts: seq<Transfer>, t: Transfer)
    requires DistinctIndexes(ts) && ts != [] && t in ts[1..]
    ensures t.logIndex != ts[0].logIndex
  {
    var i :| 0 <= i < |ts[1..]| && ts[1..][i] == t;
    assert ts[i + 1] == t;
  }

  lemma {:induction false} LearnedTells(ctx: Context, p: Progress, d: Detector, ts: seq<Transfer>, t: Transfer)
    requires Learned(p.configs, d) && DistinctIndexes(ts) && t in ts
    ensures Tells(ctx, p, Sweep(ctx, p, d, ts), d, t)
    decreases ts
  {
    var next := Visit(ctx, p, d, ts[0]);
    NothingLearned(ctx, p, d, ts);
    SweepAdds(ctx, ts, p, d, ts);
    SweepAdds(ctx, ts, next, d, ts[1..]);
    SweepClaims(ctx, p, d, ts, t.logIndex);
    SweepClaims(ctx, next, d, ts[1..], t.logIndex);
    if ts[0] == t {
      forall other | other in ts[1..] ensures other.logIndex != t.logIndex {
        RestDiffers(ts, other);
      }
      if t.logIndex !in p.claims && Detect(ctx, p.configs, d, t).Some? {
        assert next.events[|p.events|] == Detect(ctx, p.configs, d, t).value;
        assert Sweep(ctx, p, d, ts).events[|p.events|] == next.events[|p.events|];
      }
    } else {
      RestDiffers(ts, t);
      LearnedTells(ctx, next, d, ts[1..], t);
    }
  }

  lemma AloneTells(ctx: Context, p: Progress, d: Detector, t: Transfer)
    ensures Sweep(ctx, p, d, [t]) == Visit(ctx, p, d, t)
    ensures Tells(ctx, p, Sweep(ctx, p, d, [t]), d, t)
  {
    assert [t][1..] == [];
  }

  /** Transfers the table is about: the only one of its bundle, or one where nothing is left to be learned. */
  ghost predicate Plainly(configs: map<nat, Config>, ts: seq<Transfer>, t: Transfer) {
    DistinctIndexes(ts) && t in ts && (Settled(configs) || ts == [t])
  }

  lemma SweepTells(ctx: Context, p: Progress, d: Detector, ts: seq<Transfer>, t: Transfer)
    requires Plainly(p.configs, ts, t)
    ensures Tells(ctx, p, Sweep(ctx, p, d, ts), d, t)
  {
    if Settled(p.configs) {
      LearnedTells(ctx, p, d, ts, t);
    } else {
      AloneTells(ctx, p, d, t);
    }
  }

  // ---- A decoder, and all of them ----

  /** Among the events is one of the kind, true to the transfer. */
  ghost predicate Shown(ctx: Context, configs: map<nat, Config>, events: seq<Found>, t: Transfer, kind: Kind) {
    exists e :: e in events && e.kind == kind && About(ctx, e, t) && ReviewedRight(ctx, configs, e)
  }

  lemma ShownOnward(ctx: Context, configs: map<nat, Config>, a: seq<Found>, b: seq<Found>, t: Transfer, kind: Kind)
    requires Shown(ctx, configs, a, t, kind) && a <= b
    ensures Shown(ctx, configs, b, t, kind)
  {
    var e :| e in a && e.kind == kind && About(ctx, e, t) && ReviewedRight(ctx, configs, e);
    assert e in b;
  }

  /** From p to q a transfer that was free is claimed, as that kind, or still free, and nothing was learned. */
  ghost predicate Decoded(ctx: Context, p: Progress, q: Progress, t: Transfer, kind: Option<Kind>) {
    && p.events <= q.events
    && match kind
       case None => t.logIndex !in q.claims && q.configs == p.configs
       case Some(k) => t.logIndex in q.claims && Shown(ctx, p.configs, q.events, t, k)
  }

  lemma TellsDecoded(ctx: Context, p: Progress, q: Progress, det: Detector, t: Transfer)
    requires t.logIndex !in p.claims && Tells(ctx, p, q, det, t)
    ensures match Detect(ctx, p.configs, det, t)
            case None => Decoded(ctx, p, q, t, None)
            case Some(found) => Decoded(ctx, p, q, t, Some(found.kind))
  {
    if Detect(ctx, p.configs, det, t).Some? {
      DetectsAbout(ctx, p.configs, det, t);
      assert ReviewedRight(ctx, p.configs, Detect(ctx, p.configs, det, t).value);
    }
  }

  lemma DecodedOnward(ctx: Context, p: Progress, q: Progress, r: Progress, t: Transfer, kind: Option<Kind>)
    requires Decoded(ctx, p, q, t, kind)
    requires kind.Some? ==> q.events <= r.events && q.claims <= r.claims
    requires kind.None? ==> r == q
    ensures Decoded(ctx, p, r, t, kind)
  {
    if kind.Some? {
      ShownOnward(ctx, p.configs, q.events, r.events, t, kind.value);
    }
  }

  lemma DecodedThen(ctx: Context, p: Progress, q: Progress, r: Progress, t: Transfer, kind: Option<Kind>)
    requires Decoded(ctx, p, q, t, None) && Decoded(ctx, q, r, t, kind)
    ensures Decoded(ctx, p, r, t, kind)
  {
  }

  function First<T>(a: Option<T>, b: Option<T>): Option<T> {
    if a.Some? then a else b
  }

  function KindFound(found: Option<Found>): Option<Kind> {
    match found case None => None case Some(e) => Some(e.kind)
  }

  /** The first detector that claims the transfer is the one the table names. */
  lemma FirstDetects(ctx: Context, configs: map<nat, Config>, d: Decoder, t: Transfer)
    ensures d.mintOnly ==> ClaimedAs(ctx, configs, d, t) == KindFound(Detect(ctx, configs, MintOf(d.token, true), t))
    ensures !d.mintOnly ==>
              ClaimedAs(ctx, configs, d, t)
                == First(KindFound(Detect(ctx, configs, RewardOf(d.token), t)),
                   First(KindFound(Detect(ctx, configs, StakeOf(d.token), t)),
                   First(KindFound(Detect(ctx, configs, UnstakeOf(d.token), t)),
                         KindFound(Detect(ctx, configs, MintOf(d.token, false), t)))))
  {
  }

  /** One more detector after those that have not claimed the transfer, or after one that has. */
  lemma NextSweep(ctx: Context, p: Progress, q: Progress, det: Detector, ts: seq<Transfer>, t: Transfer,
                  kind: Option<Kind>)
    requires Plainly(p.configs, ts, t) && Decoded(ctx, p, q, t, kind)
    ensures Decoded(ctx, p, Sweep(ctx, q, det, ts), t, First(kind, KindFound(Detect(ctx, p.configs, det, t))))
  {
    var r := Sweep(ctx, q, det, ts);
    SweepAdds(ctx, ts, q, det, ts);
    SweepClaims(ctx, q, det, ts, t.logIndex);
    if kind.Some? {
      DecodedOnward(ctx, p, q, r, t, kind);
    } else {
      SweepTells(ctx, q, det, ts, t);
      TellsDecoded(ctx, q, r, det, t);
      DecodedThen(ctx, p, q, r, t, KindFound(Detect(ctx, p.configs, det, t)));
    }
  }

  lemma DecodeShows(ctx: Context, p: Progress, d: Decoder, ts: seq<Transfer>, t: Transfer)
    requires Plainly(p.configs, ts, t) && t.logIndex !in p.claims
    ensures Decoded(ctx, p, Decode(ctx, p, d, ts), t, ClaimedAs(ctx, p.configs, d, t))
  {
    FirstDetects(ctx, p.configs, d, t);
    if d.mintOnly {
      NextSweep(ctx, p, p, MintOf(d.token, true), ts, t, None);
    } else {
      var reward, stake, unstake, mint :=
        RewardOf(d.token), StakeOf(d.token), UnstakeOf(d.token), MintOf(d.token, false);
      var p1 := Sweep(ctx, p, reward, ts);
      var p2 := Sweep(ctx, p1, stake, ts);
      var p3 := Sweep(ctx, p2, unstake, ts);
      var k1 := KindFound(Detect(ctx, p.configs, reward, t));
      var k2 := First(k1, KindFound(Detect(ctx, p.configs, stake, t)));
      var k3 := First(k2, KindFound(Detect(ctx, p.configs, unstake, t)));
      NextSweep(ctx, p, p, reward, ts, t, None);
      NextSweep(ctx, p, p1, stake, ts, t, k1);
      NextSweep(ctx, p, p2, unstake, ts, t, k2);
      NextSweep(ctx, p, p3, mint, ts, t, k3);
    }
  }

  lemma {:induction false} DecodeAllShows(ctx: Context, p: Progress, decoders: seq<Decoder>, ts: seq<Transfer>,
                                          t: Transfer)
    requires Plainly(p.configs, ts, t) && t.logIndex !in p.claims
    ensures var q := Sweep(ctx, DecodeAll(ctx, p, decoders, ts), Common, ts);
            Decoded(ctx, p, q, t, KindOf(ctx, p.configs, decoders, t))
    decreases decoders
  {
    if decoders == [] {
      NextSweep(ctx, p, p, Common, ts, t, None);
      assert KindFound(Detect(ctx, p.configs, Common, t)) == PlainKind(ctx, t);
    } else {
      var q := Decode(ctx, p, decoders[0], ts);
      DecodeShows(ctx, p, decoders[0], ts, t);
      if ClaimedAs(ctx, p.configs, decoders[0], t).None? {
        DecodeAllShows(ctx, q, decoders[1..], ts, t);
        var r := Sweep(ctx, DecodeAll(ctx, q, decoders[1..], ts), Common, ts);
        DecodedThen(ctx, p, q, r, t, KindOf(ctx, q.configs, decoders[1..], t));
      } else {
        LaterKeeps(ctx, q, decoders[1..], ts, t);
        var r := Sweep(ctx, DecodeAll(ctx, q, decoders[1..], ts), Common, ts);
        DecodedOnward(ctx, p, q, r, t, ClaimedAs(ctx, p.configs, decoders[0], t));
      }
    }
  }

  lemma {:induction false} DecodeAllClaims(ctx: Context, p: Progress, decoders: seq<Decoder>, ts: seq<Transfer>)
    ensures p.claims <= DecodeAll(ctx, p, decoders, ts).claims
    decreases decoders
  {
    if decoders != [] {
      DecodeClaims(ctx, p, decoders[0], ts);
      DecodeAllClaims(ctx, Decode(ctx, p, decoders[0], ts), decoders[1..], ts);
    }
  }

  lemma DecodeClaims(ctx: Context, p: Progress, d: Decoder, ts: seq<Transfer>)
    ensures p.claims <= Decode(ctx, p, d, ts).claims
  {
    if d.mintOnly {
      SweepClaims(ctx, p, MintOf(d.token, true), ts, 0);
    } else {
      var p1 := Sweep(ctx, p, RewardOf(d.token), ts);
      var p2 := Sweep(ctx, p1, StakeOf(d.token), ts);
      SweepClaims(ctx, p, RewardOf(d.token), ts, 0);
      SweepClaims(ctx, p1, StakeOf(d.token), ts, 0);
      SweepClaims(ctx, p2, UnstakeOf(d.token), ts, 0);
      SweepClaims(ctx, Sweep(ctx, p2, UnstakeOf(d.token), ts), MintOf(d.token, false), ts, 0);
    }
  }

  lemma LaterKeeps(ctx: Context, q: Progress, decoders: seq<Decoder>, ts: seq<Transfer>, t: Transfer)
    ensures var r := Sweep(ctx, DecodeAll(ctx, q, decoders, ts), Common, ts);
            q.events <= r.events && q.claims <= r.claims
  {
    var mid := DecodeAll(ctx, q, decoders, ts);
    DecodeAllAdds(ctx, q, decoders, ts);
    DecodeAllClaims(ctx, q, decoders, ts);
    SweepAdds(ctx, ts, mid, Common, ts);
    SweepClaims(ctx, mid, Common, ts, t.logIndex);
  }

  /** With any decoders, and neither wrap nor redemption, a transfer has exactly the event the table says, or none:
      as the only transfer of its bundle, whatever is known of the tokens, and among any others once both contracts of
      every token are known. */
  lemma KindIsTable(ctx: Context, configs: map<nat, Config>, b: Bundle, decoders: seq<Decoder>, t: Transfer)
    requires !Given(ctx.wrapped) && !Given(ctx.scdt) && Plainly(configs, b.transfers, t)
    ensures var events := EventsOf(ctx, configs, b, decoders);
            match KindOf(ctx, configs, decoders, t)
            case None => Count(events, t.logIndex) == 0
            case Some(kind) => Count(events, t.logIndex) == 1 && Shown(ctx, configs, events, t, kind)
  {
    var p := Progress({}, configs, []);
    assert RecognizeSwap(ctx, b, Progress(Absorbed(ctx, b), configs, WrapEvents(ctx, b))) == p;
    DecodeAllShows(ctx, p, decoders, b.transfers, t);
    OneEventPerTransfer(ctx, configs, b, decoders, t);
    var all := AllPasses(ctx, configs, b, decoders);
    PassesFair(ctx, configs, b, decoders);
    assert FairTo(ctx, b, all, t);
    if KindOf(ctx, configs, decoders, t).Some? {
      ShownOnward(ctx, configs, all.events, EventsOf(ctx, configs, b, decoders), t,
        KindOf(ctx, configs, decoders, t).value);
    }
  }

  // ---- What nobody claims ----

  /** No recognizer and no decoder claims the transfer. */
  predicate Unclaimed(ctx: Context, configs: map<nat, Config>, b: Bundle, decoders: seq<Decoder>, t: Transfer) {
    var wrapped := Progress(Absorbed(ctx, b), configs, WrapEvents(ctx, b));
    t.logIndex !in DecodeAll(ctx, RecognizeSwap(ctx, b, wrapped), decoders, b.transfers).claims
  }

  /** What is left over is a transfer in, a transfer out or a burn, to the last field. */
  lemma UnclaimedIsPlain(ctx: Context, configs: map<nat, Config>, b: Bundle, decoders: seq<Decoder>, t: Transfer)
    requires DistinctIndexes(b.transfers) && t in b.transfers && Unclaimed(ctx, configs, b, decoders, t)
    ensures var events := EventsOf(ctx, configs, b, decoders);
            var amount := if t.nft then Amount(1, 0) else Amount(t.value, t.decimals);
            match PlainKind(ctx, t)
            case None => Count(events, t.logIndex) == 0
            case Some(kind) =>
              Count(events, t.logIndex) == 1
              && Found(kind, t.contract, None, amount, None, false, Plain, t.logIndex) in events
  {
    var wrapped := Progress(Absorbed(ctx, b), configs, WrapEvents(ctx, b));
    WrapFair(ctx, configs, b);
    SwapFair(ctx, b, wrapped);
    var swapped := RecognizeSwap(ctx, b, wrapped);
    DecodeAllFair(ctx, b, swapped, decoders);
    var decoded := DecodeAll(ctx, swapped, decoders, b.transfers);
    LearnedTells(ctx, decoded, Common, b.transfers, t);
    OneEventPerTransfer(ctx, configs, b, decoders, t);
    assert Absorbed(ctx, b) <= decoded.claims;
  }

  // ---- What a decoder learns ----

  /** From a bundle of one transfer a decoder learns who stakes the token from a first unexplained payment, and who
      stakes it and which collection it is from a first NFT staked; it overwrites nothing that is known, and what
      it learns is not confirmed. */
  lemma LearnsFrom(ctx: Context, configs: map<nat, Config>, token: nat, t: Transfer)
    requires !Given(ctx.wrapped) && !Given(ctx.scdt)
    ensures var d := Decoder(token, false); var kind := ClaimedAs(ctx, configs, d, t);
            AllPasses(ctx, configs, Bundle(None, [t], []), [d]).configs
              == if token !in configs then configs
                 else if kind == Some(Kind.Pending) then
                   configs[token := configs[token].(staking := Some(t.from), stakingStatus := Discovered)]
                 else if kind == Some(Staked) then
                   var was := configs[token];
                   configs[token := Config(
                     if Given(was.staking) then was.staking else Some(t.to),
                     if Given(was.staking) then was.stakingStatus else Discovered,
                     was.distributionComplete,
                     if Given(was.nft) then was.nft else Some(t.contract),
                     if Given(was.nft) then was.nftStatus else Discovered)]
                 else configs
  {
    var d, b, p := Decoder(token, false), Bundle(None, [t], []), Progress({}, configs, []);
    assert RecognizeSwap(ctx, b, Progress(Absorbed(ctx, b), configs, WrapEvents(ctx, b))) == p;
    assert [d][1..] == [] && DecodeAll(ctx, p, [d], [t]) == Decode(ctx, p, d, [t]);
    var p1 := Visit(ctx, p, RewardOf(token), t);
    var p2 := Visit(ctx, p1, StakeOf(token), t);
    var p3 := Visit(ctx, p2, UnstakeOf(token), t);
    var p4 := Visit(ctx, p3, MintOf(token, false), t);
    AloneTells(ctx, p, RewardOf(token), t);
    AloneTells(ctx, p1, StakeOf(token), t);
    AloneTells(ctx, p2, UnstakeOf(token), t);
    AloneTells(ctx, p3, MintOf(token, false), t);
    AloneTells(ctx, p4, Common, t);
    FirstDetects(ctx, configs, d, t);
  }
}
