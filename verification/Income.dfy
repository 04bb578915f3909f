/** Nothing a transaction teaches the decoders is trusted as income within that transaction. */
module Income {
  import opened Sequences
  import opened Classify

  /** The configuration was confirmed beforehand, names the sender, and still distributes. */
  predicate ConfirmedSource(configs: map<nat, Config>, token: nat, sender: Addr) {
    && token in configs && configs[token].staking == Some(sender)
    && configs[token].stakingStatus == Confirmed && !configs[token].distributionComplete
  }

  predicate RewardFrom(ctx: Context, before: map<nat, Config>, token: nat, t: Transfer) {
    !t.nft && t.to == ctx.wallet && ConfirmedSource(before, token, t.from)
  }

  /** A reward booked without review is a priced token transfer to the wallet from a confirmed staking contract. */
  ghost predicate Earned(ctx: Context, before: map<nat, Config>, ts: seq<Transfer>, e: Found) {
    e.kind == Rewarded && !e.review ==>
      && e.token.Some? && e.value.Some? && e.value == Lookup(ctx.price, e.token.value)
      && exists t :: t in ts && t.logIndex == e.hint && RewardFrom(ctx, before, e.token.value, t)
  }

  /** What is confirmed now was confirmed before, in the same words. */
  ghost predicate NothingConfirmed(before: map<nat, Config>, now: map<nat, Config>) {
    forall token :: token in now && now[token].stakingStatus == Confirmed ==>
      && token in before && before[token].stakingStatus == Confirmed && before[token].staking == now[token].staking
      && before[token].distributionComplete == now[token].distributionComplete
  }

  ghost predicate Careful(ctx: Context, before: map<nat, Config>, ts: seq<Transfer>, p: Progress) {
    NothingConfirmed(before, p.configs) && forall e :: e in p.events ==> Earned(ctx, before, ts, e)
  }

  lemma LearnConfirmsNothing(before: map<nat, Config>, configs: map<nat, Config>, d: Detector, t: Transfer)
    requires NothingConfirmed(before, configs)
    ensures NothingConfirmed(before, Learn(configs, d, t))
  {
  }

  lemma RewardEarned(ctx: Context, before: map<nat, Config>, configs: map<nat, Config>, ts: seq<Transfer>, d: Detector,
                     t: Transfer)
    requires NothingConfirmed(before, configs) && t in ts && Detect(ctx, configs, d, t).Some?
    ensures Earned(ctx, before, ts, Detect(ctx, configs, d, t).value)
  {
  }

  lemma {:induction false} SweepCareful(ctx: Context, before: map<nat, Config>, ts: seq<Transfer>, p: Progress,
                                        d: Detector, rest: seq<Transfer>)
    requires Careful(ctx, before, ts, p) && forall t :: t in rest ==> t in ts
    ensures Careful(ctx, before, ts, Sweep(ctx, p, d, rest))
    decreases rest
  {
    if rest != [] {
      var t := rest[0];
      if t.logIndex !in p.claims && Detect(ctx, p.configs, d, t).Some? {
        LearnConfirmsNothing(before, p.configs, d, t);
        RewardEarned(ctx, before, p.configs, ts, d, t);
      }
      SweepCareful(ctx, before, ts, Visit(ctx, p, d, t), d, rest[1..]);
    }
  }

  lemma {:induction false} ClaimAllCareful(ctx: Context, before: map<nat, Config>, ts: seq<Transfer>, p: Progress,
                                           rows: seq<Transfer>, note: Note)
    requires Careful(ctx, before, ts, p)
    ensures Careful(ctx, before, ts, ClaimAll(ctx, p, rows, note))
    decreases rows
  {
    if rows != [] {
      var next := Progress(p.claims + {rows[0].logIndex}, p.configs, p.events + [Redeemed(ctx, rows[0], note)]);
      assert Earned(ctx, before, ts, Redeemed(ctx, rows[0], note));
      ClaimAllCareful(ctx, before, ts, next, rows[1..], note);
    }
  }

  lemma DecodeCareful(ctx: Context, before: map<nat, Config>, ts: seq<Transfer>, p: Progress, d: Decoder)
    requires Careful(ctx, before, ts, p)
    ensures Careful(ctx, before, ts, Decode(ctx, p, d, ts))
  {
    if d.mintOnly {
      SweepCareful(ctx, before, ts, p, MintOf(d.token, true), ts);
    } else {
      var rewarded := Sweep(ctx, p, RewardOf(d.token), ts);
      SweepCareful(ctx, before, ts, p, RewardOf(d.token), ts);
      var staked := Sweep(ctx, rewarded, StakeOf(d.token), ts);
      SweepCareful(ctx, before, ts, rewarded, StakeOf(d.token), ts);
      SweepCareful(ctx, before, ts, staked, UnstakeOf(d.token), ts);
      SweepCareful(ctx, before, ts, Sweep(ctx, staked, UnstakeOf(d.token), ts), MintOf(d.token, false), ts);
    }
  }

  lemma {:induction false} DecodeAllCareful(ctx: Context, before: map<nat, Config>, ts: seq<Transfer>, p: Progress,
                                            decoders: seq<Decoder>)
    requires Careful(ctx, before, ts, p)
    ensures Careful(ctx, before, ts, DecodeAll(ctx, p, decoders, ts))
    decreases decoders
  {
    if decoders != [] {
      DecodeCareful(ctx, before, ts, p, decoders[0]);
      DecodeAllCareful(ctx, before, ts, Decode(ctx, p, decoders[0], ts), decoders[1..]);
    }
  }

  lemma {:induction false} NativesEarnNothing(ctx: Context, natives: seq<Native>)
    ensures forall e :: e in NativeEvents(ctx, natives) ==> e.kind != Rewarded
  {
    if natives != [] {
      NativesEarnNothing(ctx, natives[1..]);
    }
  }

  /** Income is only ever booked unreviewed from a staking contract that was confirmed before the transaction
      was looked at, whatever the decoders discover on the way. */
  lemma IncomeIsConfirmed(ctx: Context, configs: map<nat, Config>, b: Bundle, decoders: seq<Decoder>, e: Found)
    requires e in EventsOf(ctx, configs, b, decoders)
    ensures Earned(ctx, configs, b.transfers, e)
  {
    var wrapped := Progress(Absorbed(ctx, b), configs, WrapEvents(ctx, b));
    assert Careful(ctx, configs, b.transfers, wrapped);
    var out := Filter(b.transfers, RedeemedOut(ctx, wrapped.claims));
    var into := Filter(b.transfers, RedeemedIn(ctx, wrapped.claims));
    ClaimAllCareful(ctx, configs, b.transfers, wrapped, out, ScdtOut);
    ClaimAllCareful(ctx, configs, b.transfers, ClaimAll(ctx, wrapped, out, ScdtOut), into, NftIn);
    var swapped := RecognizeSwap(ctx, b, wrapped);
    DecodeAllCareful(ctx, configs, b.transfers, swapped, decoders);
    SweepCareful(ctx, configs, b.transfers, DecodeAll(ctx, swapped, decoders, b.transfers), Common, b.transfers);
    NativesEarnNothing(ctx, NativesOf(b));
  }
}
