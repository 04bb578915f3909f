/** Each token transfer of a transaction becomes one event or none, whatever decoders are registered. */
module Partition {
  import opened Sequences
  import opened Classify

  function Count(events: seq<Found>, hint: int): nat {
    if events == [] then 0 else (if events[0].hint == hint then 1 else 0) + Count(events[1..], hint)
  }

  lemma {:induction false} CountAppend(a: seq<Found>, b: seq<Found>, hint: int)
    ensures Count(a + b, hint) == Count(a, hint) + Count(b, hint)
  {
    if a == [] {
      assert a + b == b;
    } else {
      assert (a + b)[0] == a[0] && (a + b)[1..] == a[1..] + b;
      CountAppend(a[1..], b, hint);
    }
  }

  lemma CountOne(events: seq<Found>, found: Found, hint: int)
    ensures Count(events + [found], hint) == Count(events, hint) + (if found.hint == hint then 1 else 0)
  {
    CountAppend(events, [found], hint);
    assert [found][1..] == [];
  }

  /** To the wallet or from it. */
  predicate Touches(ctx: Context, t: Transfer) {
    t.to == ctx.wallet || t.from == ctx.wallet
  }

  /** Log indexes number a transaction's transfers. */
  ghost predicate DistinctIndexes(ts: seq<Transfer>) {
    && (forall i :: 0 <= i < |ts| ==> ts[i].logIndex >= 0)
    && (forall i, j :: 0 <= i < j < |ts| ==> ts[i].logIndex != ts[j].logIndex)
  }

  lemma SameIndex(ts: seq<Transfer>, a: Transfer, b: Transfer)
    requires DistinctIndexes(ts) && a in ts && b in ts && a.logIndex == b.logIndex
    ensures a == b
  {
    var i :| 0 <= i < |ts| && ts[i] == a;
    var j :| 0 <= j < |ts| && ts[j] == b;
    assert i == j;
  }

  /** A transfer is claimed for one event or by the wrap, and nothing is claimed that is none of the wallet's. */
  ghost predicate FairTo(ctx: Context, b: Bundle, p: Progress, t: Transfer) {
    && Count(p.events, t.logIndex) == (if t.logIndex in p.claims && t.logIndex !in Absorbed(ctx, b) then 1 else 0)
    && (t.logIndex in p.claims ==> Touches(ctx, t))
  }

  /** The event is about a transfer of the bundle, and its contract. */
  ghost predicate OfTransfer(b: Bundle, e: Found) {
    exists t :: t in b.transfers && t.logIndex == e.hint && t.contract == e.contract
  }

  /** What an event can be about: a wrap of the bundle, one of its native movements, or one of its transfers. */
  ghost predicate HasOrigin(ctx: Context, b: Bundle, e: Found) {
    || e in WrapEvents(ctx, b)
    || (exists n :: n in NativesOf(b) && e in NativeEvent(ctx, n))
    || OfTransfer(b, e)
  }

  ghost predicate Fair(ctx: Context, b: Bundle, p: Progress) {
    && Absorbed(ctx, b) <= p.claims
    && (forall t :: t in b.transfers ==> FairTo(ctx, b, p, t))
    && (forall e :: e in p.events ==> e in WrapEvents(ctx, b) || OfTransfer(b, e))
  }

  /** One claim with its event. */
  lemma ClaimFair(ctx: Context, b: Bundle, p: Progress, next: Progress, t: Transfer, found: Found)
    requires DistinctIndexes(b.transfers) && Fair(ctx, b, p) && t in b.transfers && t.logIndex !in p.claims
    requires found.hint == t.logIndex && found.contract == t.contract && Touches(ctx, t)
    requires next.claims == p.claims + {t.logIndex} && next.events == p.events + [found]
    ensures Fair(ctx, b, next)
  {
    forall other | other in b.transfers ensures FairTo(ctx, b, next, other) {
      assert FairTo(ctx, b, p, other);
      CountOne(p.events, found, other.logIndex);
      if other.logIndex == t.logIndex {
        SameIndex(b.transfers, other, t);
      }
    }
    assert OfTransfer(b, found);
  }

  /** Whatever a detector finds is about the row it looks at, and that row is the wallet's. */
  lemma DetectsItsRow(ctx: Context, configs: map<nat, Config>, d: Detector, t: Transfer)
    requires Detect(ctx, configs, d, t).Some?
    ensures var found := Detect(ctx, configs, d, t).value;
            found.hint == t.logIndex && found.contract == t.contract && Touches(ctx, t)
  {
  }

  lemma VisitFair(ctx: Context, b: Bundle, p: Progress, d: Detector, t: Transfer)
    requires DistinctIndexes(b.transfers) && Fair(ctx, b, p) && t in b.transfers
    ensures Fair(ctx, b, Visit(ctx, p, d, t)) && p.claims <= Visit(ctx, p, d, t).claims
  {
    if t.logIndex !in p.claims && Detect(ctx, p.configs, d, t).Some? {
      DetectsItsRow(ctx, p.configs, d, t);
      ClaimFair(ctx, b, p, Visit(ctx, p, d, t), t, Detect(ctx, p.configs, d, t).value);
    }
  }

  lemma {:induction false} SweepFair(ctx: Context, b: Bundle, p: Progress, d: Detector, rest: seq<Transfer>)
    requires DistinctIndexes(b.transfers) && Fair(ctx, b, p) && forall t :: t in rest ==> t in b.transfers
    ensures Fair(ctx, b, Sweep(ctx, p, d, rest)) && p.claims <= Sweep(ctx, p, d, rest).claims
    decreases rest
  {
    if rest != [] {
      VisitFair(ctx, b, p, d, rest[0]);
      SweepFair(ctx, b, Visit(ctx, p, d, rest[0]), d, rest[1..]);
    }
  }

  /** The common layer claims whatever of the wallet's is left. */
  lemma {:induction false} CommonLeavesNothing(ctx: Context, b: Bundle, p: Progress, rest: seq<Transfer>)
    requires DistinctIndexes(b.transfers) && Fair(ctx, b, p) && forall t :: t in rest ==> t in b.transfers
    ensures forall t :: t in rest && Touches(ctx, t) ==> t.logIndex in Sweep(ctx, p, Common, rest).claims
    decreases rest
  {
    if rest != [] {
      var next := Visit(ctx, p, Common, rest[0]);
      VisitFair(ctx, b, p, Common, rest[0]);
      SweepFair(ctx, b, next, Common, rest[1..]);
      CommonLeavesNothing(ctx, b, next, rest[1..]);
      assert Touches(ctx, rest[0]) ==> rest[0].logIndex in next.claims;
    }
  }

  lemma {:induction false} DecodeAllFair(ctx: Context, b: Bundle, p: Progress, decoders: seq<Decoder>)
    requires DistinctIndexes(b.transfers) && Fair(ctx, b, p)
    ensures Fair(ctx, b, DecodeAll(ctx, p, decoders, b.transfers))
    decreases decoders
  {
    if decoders != [] {
      DecodeFair(ctx, b, p, decoders[0]);
      DecodeAllFair(ctx, b, Decode(ctx, p, decoders[0], b.transfers), decoders[1..]);
    }
  }

  lemma DecodeFair(ctx: Context, b: Bundle, p: Progress, d: Decoder)
    requires DistinctIndexes(b.transfers) && Fair(ctx, b, p)
    ensures Fair(ctx, b, Decode(ctx, p, d, b.transfers))
  {
    if d.mintOnly {
      SweepFair(ctx, b, p, MintOf(d.token, true), b.transfers);
    } else {
      var rewarded := Sweep(ctx, p, RewardOf(d.token), b.transfers);
      SweepFair(ctx, b, p, RewardOf(d.token), b.transfers);
      var staked := Sweep(ctx, rewarded, StakeOf(d.token), b.transfers);
      SweepFair(ctx, b, rewarded, StakeOf(d.token), b.transfers);
      var unstaked := Sweep(ctx, staked, UnstakeOf(d.token), b.transfers);
      SweepFair(ctx, b, staked, UnstakeOf(d.token), b.transfers);
      SweepFair(ctx, b, unstaked, MintOf(d.token, false), b.transfers);
    }
  }

  // ---- Recognizers ----

  lemma {:induction false} ClaimAllFair(ctx: Context, b: Bundle, p: Progress, rows: seq<Transfer>, note: Note)
    requires DistinctIndexes(b.transfers) && DistinctIndexes(rows) && Fair(ctx, b, p)
    requires forall t :: t in rows ==> t in b.transfers && Touches(ctx, t) && t.logIndex !in p.claims
    ensures Fair(ctx, b, ClaimAll(ctx, p, rows, note))
    ensures forall x :: x in ClaimAll(ctx, p, rows, note).claims ==>
              x in p.claims || exists t :: t in rows && t.logIndex == x
    decreases rows
  {
    if rows != [] {
      var next := Progress(p.claims + {rows[0].logIndex}, p.configs, p.events + [Redeemed(ctx, rows[0], note)]);
      ClaimFair(ctx, b, p, next, rows[0], Redeemed(ctx, rows[0], note));
      forall t | t in rows[1..] ensures t.logIndex !in next.claims {
        var j :| 0 <= j < |rows[1..]| && rows[1..][j] == t;
        assert rows[0].logIndex != rows[j + 1].logIndex;
      }
      ClaimAllFair(ctx, b, next, rows[1..], note);
    }
  }

  lemma SwapFair(ctx: Context, b: Bundle, p: Progress)
    requires DistinctIndexes(b.transfers) && Fair(ctx, b, p)
    ensures Fair(ctx, b, RecognizeSwap(ctx, b, p))
  {
    var out := Filter(b.transfers, RedeemedOut(ctx, p.claims));
    var into := Filter(b.transfers, RedeemedIn(ctx, p.claims));
    FilterDistinct(b.transfers, RedeemedOut(ctx, p.claims), (t: Transfer) => t.logIndex);
    FilterDistinct(b.transfers, RedeemedIn(ctx, p.claims), (t: Transfer) => t.logIndex);
    assert forall t :: t in b.transfers ==> t.logIndex >= 0;
    ClaimAllFair(ctx, b, p, out, ScdtOut);
    var spent := ClaimAll(ctx, p, out, ScdtOut);
    forall t, paid | t in into && paid in out ensures t.logIndex != paid.logIndex {
      if t.logIndex == paid.logIndex {
        SameIndex(b.transfers, paid, t);
      }
    }
    ClaimAllFair(ctx, b, spent, into, NftIn);
  }

  lemma {:induction false} FirstBurnFound(ctx: Context, ts: seq<Transfer>)
    ensures FirstBurn(ctx, ts).Some? ==> FirstBurn(ctx, ts).value in ts && BurnsWrapped(ctx, FirstBurn(ctx, ts).value)
  {
    if ts != [] {
      FirstBurnFound(ctx, ts[1..]);
    }
  }

  /** What a wrap absorbs are transfers of the wallet's. */
  lemma AbsorbedTouches(ctx: Context, b: Bundle, t: Transfer)
    requires DistinctIndexes(b.transfers) && t in b.transfers && t.logIndex in Absorbed(ctx, b)
    ensures Touches(ctx, t)
  {
    FirstBurnFound(ctx, b.transfers);
    if b.envelope.value.selector == Deposit {
      var other :| other in b.transfers && MintsWrapped(ctx, other) && other.logIndex == t.logIndex;
      SameIndex(b.transfers, other, t);
    } else {
      SameIndex(b.transfers, FirstBurn(ctx, b.transfers).value, t);
    }
  }

  lemma WrapFair(ctx: Context, configs: map<nat, Config>, b: Bundle)
    requires DistinctIndexes(b.transfers)
    ensures Fair(ctx, b, Progress(Absorbed(ctx, b), configs, WrapEvents(ctx, b)))
  {
    var events := WrapEvents(ctx, b);
    assert |events| <= 1 && forall e :: e in events ==> e.hint == -1;
    forall t | t in b.transfers ensures FairTo(ctx, b, Progress(Absorbed(ctx, b), configs, events), t) {
      assert t.logIndex >= 0;
      if events != [] {
        assert events[1..] == [];
      }
      if t.logIndex in Absorbed(ctx, b) {
        AbsorbedTouches(ctx, b, t);
      }
    }
  }

  // ---- The bundle ----

  lemma {:induction false} NativesUncounted(ctx: Context, natives: seq<Native>, hint: int)
    requires hint >= 0
    ensures Count(NativeEvents(ctx, natives), hint) == 0
    ensures forall e :: e in NativeEvents(ctx, natives) ==> e.hint == -1
  {
    if natives != [] {
      NativesUncounted(ctx, natives[1..], hint);
      var first := NativeEvent(ctx, natives[0]);
      CountAppend(first, NativeEvents(ctx, natives[1..]), hint);
      if first != [] {
        assert first[1..] == [];
      }
    }
  }

  lemma {:induction false} NativesOfList(ctx: Context, natives: seq<Native>, e: Found)
    ensures e in NativeEvents(ctx, natives) ==> exists n :: n in natives && e in NativeEvent(ctx, n)
  {
    if natives != [] && e in NativeEvents(ctx, natives) {
      if e in NativeEvent(ctx, natives[0]) {
        assert natives[0] in natives;
      } else {
        NativesOfList(ctx, natives[1..], e);
        var n :| n in natives[1..] && e in NativeEvent(ctx, n);
        assert n in natives;
      }
    }
  }

  lemma PassesFair(ctx: Context, configs: map<nat, Config>, b: Bundle, decoders: seq<Decoder>)
    requires DistinctIndexes(b.transfers)
    ensures Fair(ctx, b, AllPasses(ctx, configs, b, decoders))
    ensures forall t :: t in b.transfers && Touches(ctx, t) ==>
              t.logIndex in AllPasses(ctx, configs, b, decoders).claims
  {
    var absorbed := Absorbed(ctx, b);
    var wrapped := Progress(absorbed, configs, WrapEvents(ctx, b));
    WrapFair(ctx, configs, b);
    var swapped := RecognizeSwap(ctx, b, wrapped);
    SwapFair(ctx, b, wrapped);
    var decoded := DecodeAll(ctx, swapped, decoders, b.transfers);
    DecodeAllFair(ctx, b, swapped, decoders);
    SweepFair(ctx, b, decoded, Common, b.transfers);
    CommonLeavesNothing(ctx, b, decoded, b.transfers);
  }

  /** Claims partition the bundle: whatever the decoders, each transfer to or from the wallet that no wrap
      absorbs yields exactly one event, and every other transfer none. */
  lemma OneEventPerTransfer(ctx: Context, configs: map<nat, Config>, b: Bundle, decoders: seq<Decoder>, t: Transfer)
    requires DistinctIndexes(b.transfers) && t in b.transfers
    ensures Count(EventsOf(ctx, configs, b, decoders), t.logIndex)
         == if Touches(ctx, t) && t.logIndex !in Absorbed(ctx, b) then 1 else 0
  {
    PassesFair(ctx, configs, b, decoders);
    var p := AllPasses(ctx, configs, b, decoders);
    assert FairTo(ctx, b, p, t);
    CountAppend(p.events, NativeEvents(ctx, NativesOf(b)), t.logIndex);
    NativesUncounted(ctx, NativesOf(b), t.logIndex);
  }

  /** And no event is about anything else: it is native, a wrap, or about a transfer of the bundle. */
  lemma EventsHaveOrigin(ctx: Context, configs: map<nat, Config>, b: Bundle, decoders: seq<Decoder>, e: Found)
    requires DistinctIndexes(b.transfers) && e in EventsOf(ctx, configs, b, decoders)
    ensures HasOrigin(ctx, b, e)
  {
    PassesFair(ctx, configs, b, decoders);
    NativesOfList(ctx, NativesOf(b), e);
  }

  // ---- Numbering and replacing ----

  lemma HintKeyTotal()
    ensures TotalPreorder(HintKey())
  {
  }

  function Founds(rows: seq<Row>): (events: seq<Found>)
    ensures |events| == |rows| && forall i :: 0 <= i < |rows| ==> events[i] == rows[i].found
  {
    if rows == [] then [] else [rows[0].found] + Founds(rows[1..])
  }

  /** The kinds as they take precedence among events of one hint. */
  const PRECEDENCE: seq<Kind> :=
    [Minted, Staked, Unstaked, Rewarded, Wrapped, Unwrapped, SwapCreditRedemption, Burned, TransferIn, TransferOut,
     Pending, Unclassified]

  /** The smaller hint goes first, and of one hint the kind listed first. */
  ghost predicate InTurn(a: Found, b: Found) {
    || a.hint < b.hint
    || (a.hint == b.hint
        && exists i, j :: 0 <= i <= j < |PRECEDENCE| && PRECEDENCE[i] == a.kind && PRECEDENCE[j] == b.kind)
  }

  lemma PriorityIsPrecedence(kind: Kind)
    ensures 0 <= Priority(kind) < |PRECEDENCE| && PRECEDENCE[Priority(kind)] == kind
  {
  }

  lemma EarlierInTurn(a: Found, b: Found)
    requires Earlier(a, b)
    ensures InTurn(a, b)
  {
    PriorityIsPrecedence(a.kind);
    PriorityIsPrecedence(b.kind);
  }

  /** event_seq is 0..n-1 in the order of hint and precedence, and no event is lost or made up. */
  lemma SeqIsOrder(wallet: nat, tx: nat, events: seq<Found>)
    ensures var rows := AssignSeq(wallet, tx, events);
            && |rows| == |events|
            && (forall i :: 0 <= i < |rows| ==>
                 rows[i].eventSeq == i && rows[i].wallet == wallet && rows[i].tx == tx && !rows[i].manual)
            && (forall i, j :: 0 <= i < j < |rows| ==> InTurn(rows[i].found, rows[j].found))
            && multiset(Founds(rows)) == multiset(events)
  {
    HintKeyTotal();
    SortSorted(events, HintKey());
    var sorted := Sort(events, HintKey());
    var rows := AssignSeq(wallet, tx, events);
    forall i, j | 0 <= i < j < |rows| ensures InTurn(rows[i].found, rows[j].found) {
      assert HintKey()(sorted[i], sorted[j]);
      EarlierInTurn(rows[i].found, rows[j].found);
    }
    assert Founds(rows) == sorted;
  }

  predicate OfTx(r: Row, wallet: nat, tx: nat) {
    r.wallet == wallet && r.tx == tx
  }

  predicate Pinned(table: seq<Row>, wallet: nat, tx: nat) {
    exists i :: 0 <= i < |table| && OfTx(table[i], wallet, tx) && table[i].manual
  }

  function OfOtherTx(wallet: nat, tx: nat): Row -> bool {
    (r: Row) => !OfTx(r, wallet, tx) || r.manual
  }

  /** Delete and insert, unless a manual override pins the transaction. */
  function ReplaceClassified(table: seq<Row>, wallet: nat, tx: nat, events: seq<Row>): seq<Row> {
    if Pinned(table, wallet, tx) then table else Filter(table, OfOtherTx(wallet, tx)) + events
  }

  function KeyOf(r: Row): (nat, nat, nat) {
    (r.wallet, r.tx, r.eventSeq)
  }

  /** No two rows of a table share wallet, transaction and event_seq. */
  ghost predicate UniqueKeys(table: seq<Row>) {
    forall i, j :: 0 <= i < j < |table| ==> KeyOf(table[i]) != KeyOf(table[j])
  }

  /** Rows numbered for a transaction do not collide with the rows of others. */
  lemma AppendUnique(kept: seq<Row>, rows: seq<Row>, wallet: nat, tx: nat)
    requires UniqueKeys(kept) && forall r :: r in kept ==> !OfTx(r, wallet, tx)
    requires forall i :: 0 <= i < |rows| ==> OfTx(rows[i], wallet, tx) && rows[i].eventSeq == i
    ensures UniqueKeys(kept + rows)
  {
    var all := kept + rows;
    forall i, j | 0 <= i < j < |all| ensures KeyOf(all[i]) != KeyOf(all[j]) {
      if i < |kept| <= j {
        assert kept[i] in kept && OfTx(rows[j - |kept|], wallet, tx);
      }
    }
  }

  lemma KeptAreOthers(table: seq<Row>, wallet: nat, tx: nat)
    requires !Pinned(table, wallet, tx)
    ensures forall r :: r in Filter(table, OfOtherTx(wallet, tx)) <==> r in table && !OfTx(r, wallet, tx)
  {
    forall r | r in table && OfTx(r, wallet, tx) ensures !r.manual {
      var i :| 0 <= i < |table| && table[i] == r;
      assert OfTx(table[i], wallet, tx);
    }
  }

  lemma PinnedIff(table: seq<Row>, wallet: nat, tx: nat)
    ensures Pinned(table, wallet, tx) <==> exists r :: r in table && r.wallet == wallet && r.tx == tx && r.manual
  {
    if r :| r in table && r.wallet == wallet && r.tx == tx && r.manual {
      var i :| 0 <= i < |table| && table[i] == r;
      assert OfTx(table[i], wallet, tx);
    }
  }

  /** Reclassifying a transaction keeps the table's keys unique and other transactions' rows; a pinned
      transaction keeps its own, and any other has exactly the new ones. */
  lemma ReplaceIsClean(table: seq<Row>, wallet: nat, tx: nat, events: seq<Found>)
    requires UniqueKeys(table)
    ensures var rows := AssignSeq(wallet, tx, events); var next := ReplaceClassified(table, wallet, tx, rows);
            var pinned := exists r :: r in table && r.wallet == wallet && r.tx == tx && r.manual;
            && UniqueKeys(next)
            && (forall r: Row :: r.wallet != wallet || r.tx != tx ==> (r in next <==> r in table))
            && (forall r: Row :: r.wallet == wallet && r.tx == tx ==>
                 (r in next <==> r in (if pinned then table else rows)))
  {
    PinnedIff(table, wallet, tx);
    if !Pinned(table, wallet, tx) {
      FilterDistinct(table, OfOtherTx(wallet, tx), KeyOf);
      KeptAreOthers(table, wallet, tx);
      AppendUnique(Filter(table, OfOtherTx(wallet, tx)), AssignSeq(wallet, tx, events), wallet, tx);
    }
  }
}
