/** The bridge workflow in plain numbers: how a pass grades a pair, and what each action leaves on rows and events. */
module Grades {
  import opened Decimals
  import opened Sequences
  import opened Pairing
  import opened Bridge
  import opened Settling
  import opened Decisions

  // ---- Grades ----

  /** Within so many seconds, the last one unfinished, and so many half hundredths of a percent of what went out. */
  predicate CloseTo(out: Leg, inf: Leg, seconds: int, halves: int) {
    && Abs(inf.at - out.at) < (seconds + 1) * 1000000
    && (out.amount != 0 ==> 20000 * Abs(inf.amount - out.amount) <= halves * Abs(out.amount))
  }

  /** High within half an hour and 50.5 hundredths of a percent, with recognized custody; medium within two hours and
      200.5, with custody at least inferred; otherwise low.  High is confirmed automatically, the rest waits. */
  predicate Graded(row: Row, out: Leg, inf: Leg, custody: Custody) {
    && row.custody == Some(custody) && row.level.Some?
    && (row.level == Some(High) <==> custody == Recognized && CloseTo(out, inf, 1800, 101))
    && (row.level == Some(Low) <==> custody == Unknown || !CloseTo(out, inf, 7200, 401))
    && (if row.level == Some(High) then row.status == Confirmed && row.resolvedBy == Some(Auto)
        else row.status == NeedsConfirmation && row.resolvedBy.None?)
  }

  lemma CloseWithin(out: Leg, inf: Leg, seconds: nat, limit: nat)
    requires limit % 2 == 0
    ensures CloseTo(out, inf, seconds, 2 * limit + 1)
            <==> Abs(DeltaSeconds(out, inf)) <= seconds && Abs(DeltaBps(out, inf)) <= limit
  {
    AmountWithin(out, inf, limit);
    WithinUnits(inf.at - out.at, 1000000, seconds);
  }

  lemma ScoredIsGraded(row: Row, out: Leg, inf: Leg, custody: Custody)
    requires row.seconds == Some(DeltaSeconds(out, inf)) && row.bps == Some(DeltaBps(out, inf))
    ensures Graded(Scored(row, custody), out, inf, custody)
  {
    CloseWithin(out, inf, HIGH_SECONDS, HIGH_BPS);
    CloseWithin(out, inf, MEDIUM_SECONDS, MEDIUM_BPS);
  }

  /** The events of a pair carry what its row says: part of a bridge, linked to it, when it is confirmed, unless the
      sender's entity treats bridging as a disposition; plain transfers, linked to nothing, when it is not. */
  predicate Signalled(signals: Signals, row: Row, dispositions: set<nat>)
    requires IsPair(row) && row.outflow.value in signals && row.inflow.value in signals
  {
    var o, i := signals[row.outflow.value], signals[row.inflow.value];
    if row.status == Confirmed then
      && o.correlation == Some(row.id) && i.correlation == Some(row.id)
      && (row.outflow.value !in dispositions ==>
            o.kind == BridgeOut && i.kind == BridgeIn && i.source == row.outflow)
    else
      && o.kind == TransferOut && o.correlation.None?
      && i.kind == TransferIn && i.correlation.None? && i.source.None?
  }

  lemma SetIsSignalled(signals: Signals, row: Row, dispositions: set<nat>)
    requires IsPair(row) && row.outflow.value in signals && row.inflow.value in signals
    requires row.outflow != row.inflow
    ensures var next := SetSignal(signals, row, row.status == Confirmed, dispositions);
            next.Keys == signals.Keys && Signalled(next, row, dispositions)
  {
  }

  lemma Rescored(b: BridgeBook, legs: seq<Leg>, facts: CustodyFacts, dispositions: set<nat>, row: Row)
    requires Tidy(b.rows, b.nextId)
    requires row in BridgePass(b, legs, facts, dispositions).rows
    requires row.id in PairPass(b.rows, b.nextId, legs).written
    requires IsPair(row) && row.outflow.value in b.signals && row.inflow.value in b.signals
    ensures var final := BridgePass(b, legs, facts, dispositions);
            && Scored(row, CustodyOf(facts, row.outflow.value, row.inflow.value)) == row
            && final.signals.Keys == b.signals.Keys
            && SetSignal(final.signals, row, row.status == Confirmed, dispositions) == final.signals
  {
    var st := PairPass(b.rows, b.nextId, legs);
    var mid := BridgeBook(st.rows, st.nextId, b.signals);
    var final := BridgePass(b, legs, facts, dispositions);
    PairPassWell(b.rows, b.nextId, legs);
    ScoreAllOk(mid, st.written, st.written, facts, dispositions);
    ScoreAllSettles(mid, st.written, {}, st.written, facts, dispositions);
    ScoreAllKeys(mid, st.written, facts, dispositions);
    var found := FindRow(final.rows, row.id);
    SameRow(final.rows, final.nextId, found.value, row);
    assert Settled(final, row.id, facts, dispositions);
  }

  /** After a pass over any table whose pairs were made of known legs, every pair it has written, unless an event is
      gone, is graded by its own amounts and times and by what is known of its custody, and its events say so. */
  lemma PassGrades(book: LegBook, b: BridgeBook, legs: seq<Leg>, facts: CustodyFacts, dispositions: set<nat>, row: Row)
    requires Tidy(b.rows, b.nextId) && AllHonest(book, b.rows) && Drawn(book, legs)
    requires row in BridgePass(b, legs, facts, dispositions).rows
    requires row.id in PairPass(b.rows, b.nextId, legs).written
    requires IsPair(row) && row.outflow.value in b.signals && row.inflow.value in b.signals
    ensures row.outflow.value in book && row.inflow.value in book
    ensures var out, inf := book[row.outflow.value], book[row.inflow.value];
            var known := (row.outflow.value, row.inflow.value);
            && Matchable(out, inf) && Measures(out, inf, Seconds(row), Bps(row))
            && Graded(row, out, inf, if known in facts then facts[known] else Unknown)
    ensures BridgePass(b, legs, facts, dispositions).signals.Keys == b.signals.Keys
    ensures Signalled(BridgePass(b, legs, facts, dispositions).signals, row, dispositions)
  {
    AfterHonest(book, b, Pass(legs, facts, dispositions));
    assert Honest(book, row);
    var out, inf := book[row.outflow.value], book[row.inflow.value];
    EligibleIff(out, inf);
    DeltasMeasure(out, inf, Seconds(row), Bps(row));
    Rescored(b, legs, facts, dispositions, row);
    ScoredIsGraded(row, out, inf, CustodyOf(facts, row.outflow.value, row.inflow.value));
    SetIsSignalled(BridgePass(b, legs, facts, dispositions).signals, row, dispositions);
  }

  // ---- Decisions ----

  /** What a decision does to a row, and that it does nothing to any other. */
  ghost predicate Decided(before: seq<Row>, after: seq<Row>, row: Row, status: Status) {
    && |after| == |before|
    && forall k :: 0 <= k < |before| ==>
         if before[k].id == row.id then after[k] == row.(status := status, resolvedBy := Some(User))
         else after[k] == before[k]
  }

  /** A decision on a pair, unless it repeats the user's last: the row says confirmed or rejected, by the user, its
      events follow, and no other row or event is touched. */
  lemma PairDecided(b: BridgeBook, row: Row, confirm: bool, dispositions: set<nat>)
    requires FindRow(b.rows, row.id) == Some(row)
    requires row.resolvedBy != Some(User) || row.status != (if confirm then Confirmed else Rejected)
    requires IsPair(row) && row.outflow != row.inflow
    requires row.outflow.value in b.signals && row.inflow.value in b.signals
    ensures var next := After(b, DecidePair(row.id, confirm, dispositions));
            var status := if confirm then Confirmed else Rejected;
            && Decided(b.rows, next.rows, row, status) && next.signals.Keys == b.signals.Keys
            && Signalled(next.signals, row.(status := status), dispositions)
            && forall x :: x in b.signals && x !in {row.outflow.value, row.inflow.value} ==>
                 next.signals[x] == b.signals[x]
  {
    var resolved := row.(status := if confirm then Confirmed else Rejected, resolvedBy := Some(User));
    SetIsSignalled(b.signals, resolved, dispositions);
  }

  /** The leg a row is about: what went out, or else what came in. */
  function Subject(row: Row): Option<nat> {
    match (row.outflow, row.inflow)
    case (Some(o), _) => Some(o)
    case (None, i) => i
  }

  /** A leg sold or passed to a third party is rejected and taxable; a bridge still pending stays as it is; anything
      else stays unmatched and wants review. */
  lemma SingleDecided(b: BridgeBook, row: Row, resolution: UserResolution)
    requires FindRow(b.rows, row.id) == Some(row) && !IsPair(row)
    requires Subject(row).Some? && Subject(row).value in b.signals
    ensures var next := After(b, DecideUnmatched(row.id, resolution)); var leg := Subject(row).value;
            && Decided(b.rows, next.rows, row, if resolution in {Sale, ThirdParty} then Rejected else Unmatched)
            && next.signals.Keys == b.signals.Keys
            && (forall x :: x in b.signals && x != leg ==> next.signals[x] == b.signals[x])
            && match resolution
               case Sale | ThirdParty =>
                 && next.signals[leg].kind == (if row.outflow.Some? then TransferOut else TransferIn)
                 && next.signals[leg].correlation.None? && next.signals[leg].review == b.signals[leg].review
               case BridgePending => next.signals[leg] == b.signals[leg]
               case Other => next.signals[leg] == b.signals[leg].(review := true)
  {
  }

  // ---- Ageing ----

  /** The row is unmatched, undecided and old, and its event's wallet is synced past the event. */
  predicate AgedOut(row: Row, leg: nat, aged: set<nat>, synced: set<nat>) {
    row.status == Unmatched && row.resolvedBy.None? && row.id in aged && Subject(row) == Some(leg) && leg in synced
  }

  lemma {:induction false} FlaggedIff(signals: Signals, rows: seq<Row>, aged: set<nat>, synced: set<nat>, leg: nat)
    requires leg in signals
    ensures var next := SurfaceAll(signals, rows, aged, synced);
            && next.Keys == signals.Keys
            && (next[leg].review
                <==> signals[leg].review || exists row :: row in rows && AgedOut(row, leg, aged, synced))
    decreases rows
  {
    if rows != [] {
      var next := SurfaceRow(signals, rows[0], aged, synced);
      SurfaceRowKeys(signals, rows[0], aged, synced);
      FlaggedIff(next, rows[1..], aged, synced, leg);
      FlagsOne(signals, rows[0], aged, synced, leg);
    }
  }

  lemma FlagsOne(signals: Signals, row: Row, aged: set<nat>, synced: set<nat>, leg: nat)
    requires leg in signals
    ensures var next := SurfaceRow(signals, row, aged, synced);
            leg in next && (next[leg].review <==> signals[leg].review || AgedOut(row, leg, aged, synced))
  {
  }

  /** Ageing out puts an event up for review exactly when an aged row of it is found, and changes no row. */
  lemma AgeingFlagsIff(b: BridgeBook, aged: set<nat>, synced: set<nat>, leg: nat)
    requires leg in b.signals
    ensures var next := After(b, Surface(aged, synced));
            && next.rows == b.rows && next.signals.Keys == b.signals.Keys
            && (next.signals[leg].review
                <==> b.signals[leg].review || exists row :: row in b.rows && AgedOut(row, leg, aged, synced))
  {
    FlaggedIff(b.signals, b.rows, aged, synced, leg);
  }
}
