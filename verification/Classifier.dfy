/** The classifier as it runs: a claim set that detectors grow while they loop over a transaction's transfers. */
module ClassifierClass {
  import opened Sequences
  import opened Classify

  /** The raw rows that can be claimed. */
  datatype RawRow = TokenTransfer(transfer: Transfer) | InternalTx(traceId: string)

  /** What a row is claimed under: internal transactions and token transfers do not share keys. */
  datatype ClaimKey = TransferKey(logIndex: int) | InternalKey(traceId: string)

  function KeyOf(row: RawRow): ClaimKey {
    match row
    case TokenTransfer(t) => TransferKey(t.logIndex)
    case InternalTx(traceId) => InternalKey(traceId)
  }

  class ClaimSet {
    var claimed: set<ClaimKey>

    /** The log indexes among the claims. */
    function Indexes(): set<int>
      reads this
    {
      set key | key in claimed && key.TransferKey? :: key.logIndex
    }

    constructor ()
      ensures claimed == {} && Indexes() == {}
    {
      claimed := {};
    }

    /** A token transfer claims its log index, an internal transaction its trace, and neither anything else. */
    method Add(row: RawRow)
      modifies this
      ensures claimed == old(claimed) + {KeyOf(row)}
      ensures Indexes() == old(Indexes()) + (if row.TokenTransfer? then {row.transfer.logIndex} else {})
    {
      claimed := claimed + {KeyOf(row)};
      assert forall i :: i in Indexes() <==> TransferKey(i) in claimed;
      assert forall i :: i in old(Indexes()) <==> TransferKey(i) in old(claimed);
    }

    predicate Has(row: RawRow)
      reads this
      ensures row.TokenTransfer? ==> Has(row) == (row.transfer.logIndex in Indexes())
    {
      KeyOf(row) in claimed
    }
  }

  class Classifier {
    const ctx: Context
    const claims: ClaimSet
    var configs: map<nat, Config>
    var events: seq<Found>

    function View(): Progress
      reads this, claims
    {
      Progress(claims.Indexes(), configs, events)
    }

    constructor (ctx: Context, configs: map<nat, Config>)
      ensures this.ctx == ctx && fresh(claims) && View() == Progress({}, configs, [])
    {
      this.ctx, this.configs, events := ctx, configs, [];
      claims := new ClaimSet();
    }

    method RunDetector(d: Detector, transfers: seq<Transfer>)
      modifies this, claims
      ensures View() == Sweep(ctx, old(View()), d, transfers)
    {
      var i := 0;
      while i < |transfers|
        invariant 0 <= i <= |transfers|
        invariant Sweep(ctx, old(View()), d, transfers) == Sweep(ctx, View(), d, transfers[i..])
      {
        var t := transfers[i];
        assert transfers[i..][1..] == transfers[i + 1..];
        if !claims.Has(TokenTransfer(t)) {
          var found := Detect(ctx, configs, d, t);
          if found.Some? {
            configs := Learn(configs, d, t);
            claims.Add(TokenTransfer(t));
            events := events + [found.value];
          }
        }
        i := i + 1;
      }
    }

    method ClaimWrappedMints(transfers: seq<Transfer>)
      modifies claims
      ensures claims.Indexes() == old(claims.Indexes()) + WrappedMints(ctx, transfers)
    {
      var i := 0;
      while i < |transfers|
        invariant 0 <= i <= |transfers|
        invariant claims.Indexes() == old(claims.Indexes()) + WrappedMints(ctx, transfers[..i])
      {
        var t := transfers[i];
        MintsNext(transfers, i);
        if !claims.Has(TokenTransfer(t)) && MintsWrapped(ctx, t) {
          claims.Add(TokenTransfer(t));
        }
        i := i + 1;
      }
      assert transfers[..i] == transfers;
    }

    lemma MintsNext(transfers: seq<Transfer>, i: nat)
      requires i < |transfers|
      ensures WrappedMints(ctx, transfers[..i + 1])
           == WrappedMints(ctx, transfers[..i])
             + (if MintsWrapped(ctx, transfers[i]) then {transfers[i].logIndex} else {})
    {
      assert transfers[..i + 1] == transfers[..i] + [transfers[i]];
    }

    method RecognizeWrap(b: Bundle)
      requires View() == Progress({}, configs, [])
      modifies this`events, claims
      ensures View() == Progress(Absorbed(ctx, b), configs, WrapEvents(ctx, b))
    {
      if b.envelope.None? || !Given(ctx.wrapped) || b.envelope.value.native.to != ctx.wrapped.value {
        return;
      }
      var native := b.envelope.value.native;
      if b.envelope.value.selector == Deposit {
        if native.value <= 0 {
          return;
        }
        ClaimWrappedMints(b.transfers);
        events := [Found(Wrapped, ctx.wrapped.value, None, Amount(native.value, 18), None, false, Plain, -1)];
      } else if b.envelope.value.selector == Withdraw {
        var i := 0;
        while i < |b.transfers|
          invariant 0 <= i <= |b.transfers|
          invariant View() == Progress({}, configs, [])
          invariant FirstBurn(ctx, b.transfers) == FirstBurn(ctx, b.transfers[i..])
        {
          var t := b.transfers[i];
          assert b.transfers[i..][1..] == b.transfers[i + 1..];
          if BurnsWrapped(ctx, t) {
            claims.Add(TokenTransfer(t));
            events := [Found(Unwrapped, ctx.wrapped.value, None, Amount(t.value, 18), None, false, Plain, -1)];
            return;
          }
          i := i + 1;
        }
      }
    }

    method ClaimRows(rows: seq<Transfer>, note: Note)
      modifies this`events, claims
      ensures View() == ClaimAll(ctx, old(View()), rows, note)
    {
      var i := 0;
      while i < |rows|
        invariant 0 <= i <= |rows|
        invariant ClaimAll(ctx, old(View()), rows, note) == ClaimAll(ctx, View(), rows[i..], note)
      {
        assert rows[i..][1..] == rows[i + 1..];
        claims.Add(TokenTransfer(rows[i]));
        events := events + [Redeemed(ctx, rows[i], note)];
        i := i + 1;
      }
    }

    method FindRedemptions(transfers: seq<Transfer>) returns (out: seq<Transfer>, into: seq<Transfer>)
      ensures out == Filter(transfers, RedeemedOut(ctx, claims.Indexes()))
      ensures into == Filter(transfers, RedeemedIn(ctx, claims.Indexes()))
    {
      out, into := [], [];
      var i := 0;
      while i < |transfers|
        invariant 0 <= i <= |transfers|
        invariant out == Filter(transfers[..i], RedeemedOut(ctx, claims.Indexes()))
        invariant into == Filter(transfers[..i], RedeemedIn(ctx, claims.Indexes()))
      {
        var t := transfers[i];
        assert transfers[..i + 1] == transfers[..i] + [t];
        FilterAppend(transfers[..i], [t], RedeemedOut(ctx, claims.Indexes()));
        FilterAppend(transfers[..i], [t], RedeemedIn(ctx, claims.Indexes()));
        if RedeemsOut(ctx, claims.Indexes(), t) {
          out := out + [t];
        }
        if RedeemsIn(ctx, claims.Indexes(), t) {
          into := into + [t];
        }
        i := i + 1;
      }
      assert transfers[..i] == transfers;
    }

    method RecognizeSwaps(b: Bundle)
      modifies this`events, claims
      ensures View() == RecognizeSwap(ctx, b, old(View()))
    {
      if !Given(ctx.scdt) {
        return;
      }
      var out, into := FindRedemptions(b.transfers);
      if out == [] || |into| != |out| {
        return;
      }
      ClaimRows(out, ScdtOut);
      ClaimRows(into, NftIn);
    }

    method DecodeWith(d: Decoder, transfers: seq<Transfer>)
      modifies this, claims
      ensures View() == Decode(ctx, old(View()), d, transfers)
    {
      if d.mintOnly {
        RunDetector(MintOf(d.token, true), transfers);
      } else {
        RunDetector(RewardOf(d.token), transfers);
        RunDetector(StakeOf(d.token), transfers);
        RunDetector(UnstakeOf(d.token), transfers);
        RunDetector(MintOf(d.token, false), transfers);
      }
    }

    /** classify_bundle. */
    method ClassifyBundle(b: Bundle, decoders: seq<Decoder>, wallet: nat, tx: nat) returns (rows: seq<Row>)
      requires View() == Progress({}, configs, [])
      modifies this, claims
      ensures rows == AssignSeq(wallet, tx, EventsOf(ctx, old(configs), b, decoders))
    {
      RecognizeWrap(b);
      RecognizeSwaps(b);
      ghost var swapped := View();
      var i := 0;
      while i < |decoders|
        invariant 0 <= i <= |decoders|
        invariant DecodeAll(ctx, swapped, decoders, b.transfers) == DecodeAll(ctx, View(), decoders[i..], b.transfers)
      {
        assert decoders[i..][1..] == decoders[i + 1..];
        DecodeWith(decoders[i], b.transfers);
        i := i + 1;
      }
      RunDetector(Common, b.transfers);
      var natives := CollectNatives(NativesOf(b));
      rows := AssignSeq(wallet, tx, events + natives);
    }

    method CollectNatives(natives: seq<Native>) returns (found: seq<Found>)
      ensures found == NativeEvents(ctx, natives)
    {
      found := [];
      var i := 0;
      while i < |natives|
        invariant 0 <= i <= |natives|
        invariant NativeEvents(ctx, natives) == found + NativeEvents(ctx, natives[i..])
      {
        assert natives[i..][1..] == natives[i + 1..];
        found := found + NativeEvent(ctx, natives[i]);
        i := i + 1;
      }
    }
  }
}
