/** What an automatic confirmation certifies, and which decisions of the user reach the events. */
module Decisions {
  import opened Decimals
  import opened Sequences
  import opened Pairing
  import opened Bridge
  import Events

  /** The facts about each leg, which no pass changes. */
  type LegBook = map<nat, Leg>

  ghost predicate Drawn(book: LegBook, legs: seq<Leg>) {
    forall leg :: leg in legs ==> leg.id in book && book[leg.id] == leg
  }

  /** Legs sit in the column of their direction; a pair carries the deltas of two eligible legs; and an
      automatic confirmation was earned. */
  ghost predicate Honest(book: LegBook, row: Row) {
    && (row.outflow.Some? ==> row.outflow.value in book && book[row.outflow.value].direction == Outflow)
    && (row.inflow.Some? ==> row.inflow.value in book && book[row.inflow.value].direction == Inflow)
    && (row.outflow.Some? && row.inflow.Some? ==>
          && Eligible(book[row.outflow.value], book[row.inflow.value])
          && row.seconds == Some(DeltaSeconds(book[row.outflow.value], book[row.inflow.value]))
          && row.bps == Some(DeltaBps(book[row.outflow.value], book[row.inflow.value])))
    && (row.status == Confirmed && row.resolvedBy == Some(Auto) ==>
          row.outflow.Some? && row.inflow.Some? && row.custody == Some(Recognized)
          && Abs(Seconds(row)) <= HIGH_SECONDS && Abs(Bps(row)) <= HIGH_BPS)
  }

  ghost predicate AllHonest(book: LegBook, rows: seq<Row>) {
    forall row :: row in rows ==> Honest(book, row)
  }

  /** The hypothesis pairs two legs of the book. */
  ghost predicate Founded(book: LegBook, h: Hypothesis) {
    && h.outflow.id in book && book[h.outflow.id] == h.outflow && h.outflow.direction == Outflow
    && h.inflow.id in book && book[h.inflow.id] == h.inflow && h.inflow.direction == Inflow
    && Eligible(h.outflow, h.inflow)
    && h.seconds == DeltaSeconds(h.outflow, h.inflow) && h.bps == DeltaBps(h.outflow, h.inflow)
  }

  lemma HypothesesFounded(book: LegBook, legs: seq<Leg>)
    requires Drawn(book, legs)
    ensures forall h :: h in Hypotheses(legs) ==> Founded(book, h)
  {
    HypothesesMembers(legs);
  }

  lemma PutHonest(book: LegBook, rows: seq<Row>, row: Row)
    requires AllHonest(book, rows) && Honest(book, row)
    ensures AllHonest(book, Put(rows, row))
  {
    PutMembers(rows, row);
  }

  lemma CompletedHonest(book: LegBook, row: Row, was: Row, h: Hypothesis)
    requires Founded(book, h) && was.resolvedBy.None?
    requires row == was.(outflow := Some(h.outflow.id), inflow := Some(h.inflow.id), seconds := Some(h.seconds),
             bps := Some(h.bps))
    ensures Honest(book, row)
  {
  }

  lemma WritePairHonest(book: LegBook, st: PassState, h: Hypothesis)
    requires AllHonest(book, st.rows) && Founded(book, h)
    ensures AllHonest(book, WritePair(st, h).rows)
  {
    var o, i := h.outflow.id, h.inflow.id;
    match (FindSingleton(st.rows, o, Outflow), FindSingleton(st.rows, i, Inflow)) {
      case (Some(s), _) =>
        var row := s.(inflow := Some(i), seconds := Some(h.seconds), bps := Some(h.bps));
        CompletedHonest(book, row, s, h);
        PutHonest(book, st.rows, row);
      case (None, Some(t)) =>
        var row := t.(outflow := Some(o), seconds := Some(h.seconds), bps := Some(h.bps));
        CompletedHonest(book, row, t, h);
        PutHonest(book, st.rows, row);
      case (None, None) =>
    }
  }

  lemma PairStepHonest(book: LegBook, st: PassState, h: Hypothesis)
    requires AllHonest(book, st.rows) && Founded(book, h)
    ensures AllHonest(book, PairStep(st, h).rows)
  {
    WritePairHonest(book, st, h);
  }

  lemma {:induction false} PairAllHonest(book: LegBook, st: PassState, hyps: seq<Hypothesis>)
    requires AllHonest(book, st.rows) && forall h :: h in hyps ==> Founded(book, h)
    ensures AllHonest(book, PairAll(st, hyps).rows)
    decreases hyps
  {
    if hyps != [] {
      PairStepHonest(book, st, hyps[0]);
      PairAllHonest(book, PairStep(st, hyps[0]), hyps[1..]);
    }
  }

  lemma {:induction false} SingleAllHonest(book: LegBook, st: PassState, legs: seq<Leg>)
    requires AllHonest(book, st.rows) && Drawn(book, legs)
    ensures AllHonest(book, SingleAll(st, legs).rows)
    decreases legs
  {
    if legs != [] {
      assert legs[0] in legs;
      SingleAllHonest(book, SingletonStep(st, legs[0]), legs[1..]);
    }
  }

  lemma PairPassHonest(book: LegBook, rows: seq<Row>, nextId: nat, legs: seq<Leg>)
    requires AllHonest(book, rows) && Drawn(book, legs)
    ensures AllHonest(book, PairPass(rows, nextId, legs).rows)
  {
    var start := PassState(rows, nextId, {}, []);
    HypothesesFounded(book, legs);
    PairAllHonest(book, start, Hypotheses(legs));
    SingleAllHonest(book, PairAll(start, Hypotheses(legs)), legs);
  }

  lemma ScoreStepHonest(book: LegBook, b: BridgeBook, id: nat, facts: CustodyFacts, dispositions: set<nat>)
    requires AllHonest(book, b.rows)
    ensures AllHonest(book, ScoreStep(b, id, facts, dispositions).rows)
  {
    match FindRow(b.rows, id) {
      case None =>
      case Some(row) =>
        if Scorable(row, b.signals) {
          assert Honest(book, row);
          PutHonest(book, b.rows, Scored(row, CustodyOf(facts, row.outflow.value, row.inflow.value)));
        }
    }
  }

  lemma {:induction false} ScoreAllHonest(book: LegBook, b: BridgeBook, todo: seq<nat>, facts: CustodyFacts,
                                          dispositions: set<nat>)
    requires AllHonest(book, b.rows)
    ensures AllHonest(book, ScoreAll(b, todo, facts, dispositions).rows)
    decreases todo
  {
    if todo != [] {
      ScoreStepHonest(book, b, todo[0], facts, dispositions);
      ScoreAllHonest(book, ScoreStep(b, todo[0], facts, dispositions), todo[1..], facts, dispositions);
    }
  }

  lemma AfterHonest(book: LegBook, b: BridgeBook, action: Action)
    requires AllHonest(book, b.rows) && (action.Pass? ==> Drawn(book, action.legs))
    ensures AllHonest(book, After(b, action).rows)
  {
    match action {
      case Pass(legs, facts, dispositions) =>
        PairPassHonest(book, b.rows, b.nextId, legs);
        var st := PairPass(b.rows, b.nextId, legs);
        ScoreAllHonest(book, BridgeBook(st.rows, st.nextId, b.signals), st.written, facts, dispositions);
      case Surface(_, _) =>
      case DecidePair(id, confirm, treatments) =>
        match FindRow(b.rows, id) {
          case None =>
          case Some(found) =>
            assert Honest(book, found);
            PutHonest(book, b.rows,
              found.(status := if confirm then Confirmed else Rejected, resolvedBy := Some(User)));
        }
      case DecideUnmatched(id, resolution) =>
        match FindRow(b.rows, id) {
          case None =>
          case Some(found) =>
            assert Honest(book, found);
            PutHonest(book, b.rows,
              found.(status := if resolution in {Sale, ThirdParty} then Rejected else Unmatched,
                     resolvedBy := Some(User)));
        }
    }
  }

  lemma {:induction false} PlayHonest(book: LegBook, b: BridgeBook, actions: seq<Action>)
    requires AllHonest(book, b.rows)
    requires forall a :: a in actions && a.Pass? ==> Drawn(book, a.legs)
    ensures AllHonest(book, Play(b, actions).rows)
    decreases actions
  {
    if actions != [] {
      assert actions[0] in actions;
      AfterHonest(book, b, actions[0]);
      PlayHonest(book, After(b, actions[0]), actions[1..]);
    }
  }

  const NO_ROWS: seq<Row> := []

  /** Whatever passes, ageing and user decisions came before, a row confirmed automatically joins two legs of
      different chains and one asset whose amounts differ by at most 50 basis points and whose times by at
      most 30 minutes, and recognized custody vouched for it. */
  lemma AutoConfirmedIsEarned(book: LegBook, signals: Signals, actions: seq<Action>, row: Row)
    requires forall a :: a in actions && a.Pass? ==> Drawn(book, a.legs)
    requires row in Play(BridgeBook(NO_ROWS, 0, signals), actions).rows
    requires row.status == Confirmed && row.resolvedBy == Some(Auto)
    ensures row.outflow.Some? && row.inflow.Some? && row.outflow.value in book && row.inflow.value in book
    ensures var out, inf := book[row.outflow.value], book[row.inflow.value];
            && out.direction == Outflow && inf.direction == Inflow
            && out.chain != inf.chain && out.asset == inf.asset
            && Abs(DeltaBps(out, inf)) <= 50 && Abs(DeltaSeconds(out, inf)) <= 30 * 60
            && row.custody == Some(Recognized)
  {
    PlayHonest(book, BridgeBook(NO_ROWS, 0, signals), actions);
    assert Honest(book, row);
  }

  /** In amounts: the inflow of a row confirmed automatically is within 50.5 basis points of a positive outflow;
      the half is what rounding the basis points can hide. */
  lemma AutoConfirmedAmountsAgree(book: LegBook, signals: Signals, actions: seq<Action>, row: Row)
    requires forall a :: a in actions && a.Pass? ==> Drawn(book, a.legs)
    requires row in Play(BridgeBook(NO_ROWS, 0, signals), actions).rows
    requires row.status == Confirmed && row.resolvedBy == Some(Auto)
    ensures row.outflow.Some? && row.inflow.Some? && row.outflow.value in book && row.inflow.value in book
    ensures book[row.outflow.value].amount > 0 ==> AmountsWithin(book[row.outflow.value], book[row.inflow.value], 101)
  {
    AutoConfirmedIsEarned(book, signals, actions, row);
    var out, inf := book[row.outflow.value], book[row.inflow.value];
    if out.amount > 0 {
      BpsMeans(out, inf, 50);
    }
  }

  /** The amounts differ by at most so many half basis points of the outflow. */
  predicate AmountsWithin(out: Leg, inf: Leg, halves: int) {
    20000 * Abs(inf.amount - out.amount) <= halves * out.amount
  }

  /** What a bound on the rounded basis points says of the amounts: a zero outflow apart, the difference is
      within half a basis point of it. */
  lemma BpsMeans(out: Leg, inf: Leg, limit: nat)
    requires out.amount > 0 && Abs(DeltaBps(out, inf)) <= limit
    ensures AmountsWithin(out, inf, 2 * limit + 1)
  {
    var bps, delta := DeltaBps(out, inf), inf.amount - out.amount;
    HalfEvenNearest(delta * 10000, out.amount);
    ProductAtLeast(limit - bps, out.amount, 0);
    ProductAtLeast(limit + bps, out.amount, 0);
    WithinLimit(delta, bps, limit, out.amount);
  }

  lemma WithinLimit(delta: int, bps: int, limit: nat, amount: int)
    requires -amount <= 2 * (delta * 10000 - bps * amount) <= amount
    requires (limit - bps) * amount >= 0 && (limit + bps) * amount >= 0
    ensures 20000 * Abs(delta) <= (2 * limit + 1) * amount
  {
    assert (limit - bps) * amount == limit * amount - bps * amount
           && (limit + bps) * amount == limit * amount + bps * amount;
    assert (2 * limit + 1) * amount == 2 * (limit * amount) + amount;
  }

  // ---- Signals ----

  /** A row's signals touch its own legs only. */
  lemma SetSignalElsewhere(signals: Signals, row: Row, confirmed: bool, dispositions: set<nat>, other: nat)
    requires other in signals && row.outflow != Some(other) && row.inflow != Some(other)
    ensures var next := SetSignal(signals, row, confirmed, dispositions); other in next && next[other] == signals[other]
  {
  }

  ghost predicate Held(book: LegBook, rows: seq<Row>, id: nat) {
    id in book && UserResolved(rows, id, book[id].direction)
  }

  lemma ScoreStepSignals(book: LegBook, b: BridgeBook, written: seq<nat>, id: nat, facts: CustodyFacts,
                         dispositions: set<nat>, leg: nat)
    requires Tidy(b.rows, b.nextId) && AllHonest(book, b.rows) && Clean(b.rows, written) && id in written
    requires Held(book, b.rows, leg) && leg in b.signals
    ensures var next := ScoreStep(b, id, facts, dispositions);
            leg in next.signals && next.signals[leg] == b.signals[leg]
  {
    match FindRow(b.rows, id) {
      case None =>
      case Some(row) =>
        assert Honest(book, row);
        if Scorable(row, b.signals) {
          var scored := Scored(row, CustodyOf(facts, row.outflow.value, row.inflow.value));
          assert !TouchesUser(b.rows, row);
          SetSignalElsewhere(b.signals, scored, scored.status == Confirmed, dispositions, leg);
        }
    }
  }

  lemma HeldStays(book: LegBook, before: seq<Row>, after: seq<Row>, leg: nat)
    requires Held(book, before, leg) && HandsOff(before, after)
    ensures Held(book, after, leg)
  {
    UserResolvedByUserRows(before, leg, book[leg].direction);
    UserResolvedByUserRows(after, leg, book[leg].direction);
  }

  lemma {:induction false} ScoreAllSignals(book: LegBook, b: BridgeBook, written: seq<nat>, todo: seq<nat>,
                                           facts: CustodyFacts, dispositions: set<nat>, leg: nat)
    requires Tidy(b.rows, b.nextId) && AllHonest(book, b.rows) && Clean(b.rows, written)
    requires forall id :: id in todo ==> id in written
    requires Held(book, b.rows, leg) && leg in b.signals
    ensures var next := ScoreAll(b, todo, facts, dispositions);
            leg in next.signals && next.signals[leg] == b.signals[leg]
    decreases todo
  {
    if todo != [] {
      var next := ScoreStep(b, todo[0], facts, dispositions);
      ScoreStepOk(b, written, todo[0], facts, dispositions);
      ScoreStepHonest(book, b, todo[0], facts, dispositions);
      ScoreStepSignals(book, b, written, todo[0], facts, dispositions, leg);
      HeldStays(book, b.rows, next.rows, leg);
      ScoreAllSignals(book, next, written, todo[1..], facts, dispositions, leg);
    }
  }

  /** A pass never rewrites what the user's decision made of an event. */
  lemma PassKeepsHeldSignals(book: LegBook, b: BridgeBook, legs: seq<Leg>, facts: CustodyFacts, dispositions: set<nat>,
                             leg: nat)
    requires Tidy(b.rows, b.nextId) && AllHonest(book, b.rows) && Drawn(book, legs)
    requires Held(book, b.rows, leg) && leg in b.signals
    ensures var next := BridgePass(b, legs, facts, dispositions);
            leg in next.signals && next.signals[leg] == b.signals[leg]
  {
    var st := PairPass(b.rows, b.nextId, legs);
    PairPassOk(b.rows, b.nextId, legs);
    PairPassHonest(book, b.rows, b.nextId, legs);
    HeldStays(book, b.rows, st.rows, leg);
    ScoreAllSignals(book, BridgeBook(st.rows, st.nextId, b.signals), st.written, st.written, facts, dispositions, leg);
  }

  // ---- What the lot engine then does ----

  function EventKind(kind: SignalKind): Events.Kind {
    match kind
    case TransferOut => Events.TransferOut
    case TransferIn => Events.TransferIn
    case BridgeOut => Events.BridgeOut
    case BridgeIn => Events.BridgeIn
  }

  /** The event with what the workflow has written on it. */
  function Marked(e: Events.Event, signals: Signals): Events.Event
    requires e.id in signals
  {
    e.(kind := EventKind(signals[e.id].kind), relocationSource := signals[e.id].source)
  }

  /** Without a transfer resolution the engine goes by the kind. */
  lemma MarkedTreatment(e: Events.Event, signals: Signals)
    requires e.id in signals && e.resolution.None?
    ensures Events.TreatmentOf(Marked(e, signals))
         == match signals[e.id].kind
            case TransferOut => Events.Dispose
            case TransferIn => Events.Acquire
            case BridgeOut => Events.Nothing
            case BridgeIn => Events.Relocate
  {
  }

  /** The engine books what the user decided: a confirmed pair is moved from the outflow's lots and disposes
      of nothing, unless the entity treats bridging as a disposition; a rejected one is sold and bought. */
  lemma DecisionIsBooked(b: BridgeBook, row: Row, confirm: bool, dispositions: set<nat>, out: Events.Event,
                         inf: Events.Event)
    requires FindRow(b.rows, row.id) == Some(row)
    requires !(row.resolvedBy == Some(User) && row.status == (if confirm then Confirmed else Rejected))
    requires row.outflow == Some(out.id) && row.inflow == Some(inf.id) && out.id != inf.id
    requires out.id in b.signals && inf.id in b.signals && out.resolution.None? && inf.resolution.None?
    requires confirm ==> out.id !in dispositions
    ensures ResolvePair(b, row.id, confirm, dispositions).Some?
    ensures var signals := ResolvePair(b, row.id, confirm, dispositions).value.signals;
            && out.id in signals && inf.id in signals
            && Events.TreatmentOf(Marked(out, signals)) == (if confirm then Events.Nothing else Events.Dispose)
            && Events.TreatmentOf(Marked(inf, signals)) == (if confirm then Events.Relocate else Events.Acquire)
            && Marked(inf, signals).relocationSource == (if confirm then Some(out.id) else None)
  {
    var decided := row.(status := if confirm then Confirmed else Rejected, resolvedBy := Some(User));
    SignalsDecided(b.signals, decided, confirm, dispositions, out.id, inf.id);
    var signals := SetSignal(b.signals, decided, confirm, dispositions);
    MarkedTreatment(out, signals);
    MarkedTreatment(inf, signals);
    assert ResolvePair(b, row.id, confirm, dispositions).value.signals == signals;
  }

  lemma SignalsDecided(signals: Signals, row: Row, confirm: bool, dispositions: set<nat>, out: nat, inf: nat)
    requires row.outflow == Some(out) && row.inflow == Some(inf) && out != inf && out in signals && inf in signals
    requires confirm ==> out !in dispositions
    ensures var next := SetSignal(signals, row, confirm, dispositions);
            && out in next && next[out].kind == (if confirm then BridgeOut else TransferOut)
            && next[out].source == signals[out].source
            && inf in next && next[inf].kind == (if confirm then BridgeIn else TransferIn)
            && next[inf].source == (if confirm then Some(out) else None)
  {
  }

  // ---- Ageing out ----

  predicate HasLegId(row: Row, leg: nat) {
    row.outflow == Some(leg) || row.inflow == Some(leg)
  }

  /** The event reads as part of a bridge. */
  predicate Bridged(signals: Signals, leg: nat) {
    leg in signals && signals[leg].kind in {BridgeOut, BridgeIn}
  }

  lemma SurfaceRowKeys(signals: Signals, row: Row, aged: set<nat>, synced: set<nat>)
    ensures SurfaceRow(signals, row, aged, synced).Keys == signals.Keys
  {
  }

  /** Whether a row surfaces does not depend on what earlier rows did to the signals. */
  ghost predicate WillSurface(keys: set<nat>, row: Row, aged: set<nat>, synced: set<nat>) {
    && row.status == Unmatched && row.resolvedBy.None? && row.id in aged
    && LegOf(row).Some? && LegOf(row).value in keys && LegOf(row).value in synced
  }

  lemma {:induction false} SurfacedStaysTaxable(signals: Signals, rows: seq<Row>, aged: set<nat>, synced: set<nat>,
                                                leg: nat)
    requires leg in signals && !Bridged(signals, leg)
    ensures !Bridged(SurfaceAll(signals, rows, aged, synced), leg)
    decreases rows
  {
    if rows != [] {
      SurfaceRowKeys(signals, rows[0], aged, synced);
      SurfacedStaysTaxable(SurfaceRow(signals, rows[0], aged, synced), rows[1..], aged, synced, leg);
    }
  }

  /** Ageing out leaves an event part of its bridge exactly when no row it surfaces holds the event. */
  lemma {:induction false} SurfaceKeepsBridgeIff(signals: Signals, rows: seq<Row>, aged: set<nat>, synced: set<nat>,
                                                 leg: nat)
    requires Bridged(signals, leg)
    ensures Bridged(SurfaceAll(signals, rows, aged, synced), leg)
       <==> !exists row :: row in rows && WillSurface(signals.Keys, row, aged, synced) && HasLegId(row, leg)
    ensures Bridged(SurfaceAll(signals, rows, aged, synced), leg)
        ==> SurfaceAll(signals, rows, aged, synced)[leg] == signals[leg]
    decreases rows
  {
    if rows != [] {
      var row := rows[0];
      var next := SurfaceRow(signals, row, aged, synced);
      SurfaceRowKeys(signals, row, aged, synced);
      if WillSurface(signals.Keys, row, aged, synced) && HasLegId(row, leg) {
        assert row in rows;
        SurfacedStaysTaxable(next, rows[1..], aged, synced, leg);
      } else {
        if Surfaced(row, signals, aged, synced) {
          SetSignalElsewhere(signals, row, false, {}, leg);
        }
        assert Bridged(next, leg) && next[leg] == signals[leg];
        SurfaceKeepsBridgeIff(next, rows[1..], aged, synced, leg);
      }
    }
  }

  // ---- Strays ----

  /** A row that ageing out can reach, and that holds the leg. */
  predicate Stray(signals: Signals, row: Row, leg: nat) {
    && row.status == Unmatched && row.resolvedBy.None? && HasLegId(row, leg)
    && LegOf(row).Some? && LegOf(row).value in signals
  }

  lemma ScoreStepKeys(b: BridgeBook, id: nat, facts: CustodyFacts, dispositions: set<nat>)
    ensures ScoreStep(b, id, facts, dispositions).signals.Keys == b.signals.Keys
  {
  }

  lemma {:induction false} ScoreAllKeys(b: BridgeBook, todo: seq<nat>, facts: CustodyFacts, dispositions: set<nat>)
    ensures ScoreAll(b, todo, facts, dispositions).signals.Keys == b.signals.Keys
    decreases todo
  {
    if todo != [] {
      ScoreStepKeys(b, todo[0], facts, dispositions);
      ScoreAllKeys(ScoreStep(b, todo[0], facts, dispositions), todo[1..], facts, dispositions);
    }
  }

  lemma {:induction false} SurfaceAllKeys(signals: Signals, rows: seq<Row>, aged: set<nat>, synced: set<nat>)
    ensures SurfaceAll(signals, rows, aged, synced).Keys == signals.Keys
    decreases rows
  {
    if rows != [] {
      SurfaceRowKeys(signals, rows[0], aged, synced);
      SurfaceAllKeys(SurfaceRow(signals, rows[0], aged, synced), rows[1..], aged, synced);
    }
  }

  /** A pass adds no stray row for a leg of the user's. */
  lemma PassAddsNoStray(book: LegBook, b: BridgeBook, legs: seq<Leg>, facts: CustodyFacts, dispositions: set<nat>,
                        leg: nat, row: Row)
    requires Tidy(b.rows, b.nextId) && AllHonest(book, b.rows) && Drawn(book, legs) && Held(book, b.rows, leg)
    requires row in BridgePass(b, legs, facts, dispositions).rows
    requires Stray(BridgePass(b, legs, facts, dispositions).signals, row, leg)
    ensures row in b.rows && Stray(b.signals, row, leg)
  {
    var next := BridgePass(b, legs, facts, dispositions);
    PassHandsOff(b, legs, facts, dispositions);
    AfterHonest(book, b, Pass(legs, facts, dispositions));
    assert Honest(book, row);
    assert TouchesUser(b.rows, row);
    var st := PairPass(b.rows, b.nextId, legs);
    ScoreAllKeys(BridgeBook(st.rows, st.nextId, b.signals), st.written, facts, dispositions);
  }

  // ---- A decision that ageing out undoes ----

  const OUT := Leg(1, Outflow, 0, 7, 1000, 0)
  const IN := Leg(2, Inflow, 1, 7, 1000, -1000000)
  const UNTOUCHED := Signal(TransferOut, None, None, false)
  const UNTOUCHED_IN := UNTOUCHED.(kind := TransferIn)
  const START := BridgeBook([], 0, map[1 := UNTOUCHED, 2 := UNTOUCHED_IN, 3 := UNTOUCHED_IN])

  /** The legs a pass is given when it only looks back to `since`. */
  function Since(legs: seq<Leg>, since: int): seq<Leg> {
    if legs == [] then [] else (if legs[0].at >= since then [legs[0]] else []) + Since(legs[1..], since)
  }

  /** The pair found when both legs are candidates, and the singleton a later pass adds when it looks back to
      the outflow only: the inflow was stamped a second earlier. */
  const PAIR := Row(0, 7, Some(1), Some(2), NeedsConfirmation, Some(-1), Some(0), Some(Low), Some(Unknown), None)
  const STRAY := Row(1, 7, Some(1), None, Unmatched, None, None, None, None, None)

  lemma FirstPass()
    ensures BridgePass(START, [OUT, IN], map[], {}).rows == [PAIR]
    ensures BridgePass(START, [OUT, IN], map[], {}).nextId == 1
    ensures BridgePass(START, [OUT, IN], map[], {}).signals == START.signals
  {
    var h := Hypothesis(OUT, IN, -1, 0);
    assert Hypothesise(OUT, IN) == h && Eligible(OUT, IN);
    assert Filter([OUT, IN], Facing(Outflow)) == [OUT] by { assert [OUT, IN][1..] == [IN] && [IN][1..] == []; }
    assert Filter([OUT, IN], Facing(Inflow)) == [IN] by { assert [OUT, IN][1..] == [IN] && [IN][1..] == []; }
    assert [IN][1..] == [] && [OUT][1..] == [];
    assert PairsWith(OUT, [IN]) == [h];
    assert AllPairs([OUT], [IN]) == [h];
    assert Sort([h], Rank()) == [h] by { assert [h][1..] == []; }
    var st := PassState([NewPair(0, h)], 1, {1, 2}, [0]);
    assert PairStep(FRESH, h) == st;
    assert [h][1..] == [] && PairAll(FRESH, [h]) == st;
    assert SingletonStep(st, OUT) == st && SingletonStep(st, IN) == st;
    assert [OUT, IN][1..] == [IN] && [IN][1..] == [];
    assert SingleAll(st, [OUT, IN]) == st by { assert SingleAll(st, [IN]) == st; }
    assert [0][1..] == [];
    var b := BridgeBook(st.rows, 1, START.signals);
    assert FindRow(b.rows, 0) == Some(NewPair(0, h));
    assert Scored(NewPair(0, h), Unknown) == PAIR;
    assert ScoreStep(b, 0, map[], {}) == BridgeBook([PAIR], 1, SetSignal(START.signals, PAIR, false, {}));
    assert SetSignal(START.signals, PAIR, false, {}) == START.signals;
  }

  lemma SecondPass()
    ensures BridgePass(BridgeBook([PAIR], 1, START.signals), [OUT], map[], {})
            == BridgeBook([PAIR, STRAY], 2, START.signals)
  {
    assert [OUT][1..] == [];
    assert Filter([OUT], Facing(Outflow)) == [OUT] && Filter([OUT], Facing(Inflow)) == [];
    assert AllPairs([OUT], []) == [] by { assert [OUT][1..] == []; }
    var st := PassState([PAIR], 1, {}, []);
    assert [OUT][1..] == [] && FindSingleton([PAIR], 1, Outflow) == None;
    var next := PassState([PAIR, STRAY], 2, {}, [1]);
    assert SingletonStep(st, OUT) == next;
    assert SingleAll(st, [OUT]) == next;
    var b := BridgeBook([PAIR, STRAY], 2, START.signals);
    assert [PAIR, STRAY][1..] == [STRAY];
    assert FindRow(b.rows, 1) == Some(STRAY) && [1][1..] == [];
    assert ScoreStep(b, 1, map[], {}) == b;
  }

  const KEPT := PAIR.(status := Confirmed, resolvedBy := Some(User))

  lemma UserConfirms()
    ensures var decided := After(BridgeBook([PAIR, STRAY], 2, START.signals), DecidePair(0, true, {}));
            && decided.rows == [KEPT, STRAY]
            && decided.signals == map[1 := Signal(BridgeOut, Some(0), None, false),
                                      2 := Signal(BridgeIn, Some(0), Some(1), false), 3 := UNTOUCHED_IN]
  {
    var b := BridgeBook([PAIR, STRAY], 2, START.signals);
    assert FindRow(b.rows, 0) == Some(PAIR);
    assert Put(b.rows, KEPT) == [KEPT, STRAY];
  }

  lemma StrayAges(signals: Signals)
    requires 1 in signals
    ensures var next := SurfaceAll(signals, [KEPT, STRAY], {1}, {1}); 1 in next && next[1].kind == TransferOut
  {
    assert [KEPT, STRAY][1..] == [STRAY] && [STRAY][1..] == [];
    assert SurfaceRow(signals, KEPT, {1}, {1}) == signals;
    assert SurfaceAll(signals, [STRAY], {1}, {1}) == SurfaceRow(signals, STRAY, {1}, {1});
  }

  /** A pass that sees only one leg of an unconfirmed pair files that leg again as unmatched.  If the user then
      confirms the pair, ageing out the stray row turns the outflow back into a taxable transfer while the
      pair still reads as confirmed by the user. */
  lemma AgeingCanUndoADecision()
    ensures var found := After(START, Pass([OUT, IN], map[], {}));
            var strayed := After(found, Pass(Since([OUT, IN], OUT.at), map[], {}));
            var decided := After(strayed, DecidePair(0, true, {}));
            var final := After(decided, Surface({1}, {1}));
            && KEPT in final.rows
            && 1 in decided.signals && decided.signals[1].kind == BridgeOut
            && 1 in final.signals && final.signals[1].kind == TransferOut
  {
    assert [OUT, IN][1..] == [IN] && [IN][1..] == [];
    assert Since([OUT, IN], OUT.at) == [OUT] + Since([IN], OUT.at) == [OUT];
    FirstPass();
    SecondPass();
    UserConfirms();
    StrayAges(After(BridgeBook([PAIR, STRAY], 2, START.signals), DecidePair(0, true, {})).signals);
  }
}
