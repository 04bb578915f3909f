/** The bridge workflow: automatic passes, ageing out, and the user's decisions that must survive both. */
module Bridge {
  import opened Decimals
  import opened Sequences
  import opened Pairing

  datatype SignalKind = TransferOut | TransferIn | BridgeOut | BridgeIn

  /** What the workflow writes on a classified event: the engine's treatment hangs on it. */
  datatype Signal = Signal(kind: SignalKind, correlation: Option<nat>, source: Option<nat>, review: bool)

  type Signals = map<nat, Signal>

  datatype UserResolution = BridgePending | Sale | ThirdParty | Other

  datatype BridgeBook = BridgeBook(rows: seq<Row>, nextId: nat, signals: Signals)

  // ---- Confidence ----

  const HIGH_BPS := 50
  const HIGH_SECONDS := 1800
  const MEDIUM_BPS := 200
  const MEDIUM_SECONDS := 7200

  function ScorePair(seconds: int, bps: int, custody: Custody): Level {
    if Abs(bps) <= HIGH_BPS && Abs(seconds) <= HIGH_SECONDS && custody == Recognized then High
    else if Abs(bps) <= MEDIUM_BPS && Abs(seconds) <= MEDIUM_SECONDS && custody != Unknown then Medium
    else Low
  }

  function StatusFor(level: Level): Status {
    if level == High then Confirmed else NeedsConfirmation
  }

  function Standing(level: Level): int {
    match level case High => 2 case Medium => 1 case Low => 0
  }

  function Trust(custody: Custody): int {
    match custody case Recognized => 2 case Inferred => 1 case Unknown => 0
  }

  /** A pair no further apart in amount or time, with custody no weaker, never scores lower; and unknown
      custody is never confirmed without the user. */
  lemma ScoreMonotone(seconds: int, bps: int, custody: Custody, lessSeconds: int, lessBps: int, better: Custody)
    requires Abs(lessSeconds) <= Abs(seconds) && Abs(lessBps) <= Abs(bps) && Trust(custody) <= Trust(better)
    ensures Standing(ScorePair(seconds, bps, custody)) <= Standing(ScorePair(lessSeconds, lessBps, better))
    ensures StatusFor(ScorePair(seconds, bps, Unknown)) == NeedsConfirmation && ScorePair(seconds, bps, Unknown) == Low
  {
  }

  // ---- Signals ----

  function PutSignal(signals: Signals, id: Option<nat>, kind: SignalKind, correlation: Option<nat>,
                     source: Option<nat>): Signals {
    if id.Some? && id.value in signals
    then signals[id.value := Signal(kind, correlation, source, signals[id.value].review)]
    else signals
  }

  function SourceAt(signals: Signals, id: Option<nat>): Option<nat> {
    if id.Some? && id.value in signals then signals[id.value].source else None
  }

  function KindAt(signals: Signals, id: Option<nat>, otherwise: SignalKind): SignalKind {
    if id.Some? && id.value in signals then signals[id.value].kind else otherwise
  }

  /** Not confirmed: both legs are taxable transfers again.  Confirmed: they become a bridge, unless the
      outflow's entity treats bridging as a disposition. */
  function SetSignal(signals: Signals, row: Row, confirmed: bool, dispositions: set<nat>): Signals {
    if !confirmed then
      var restored := PutSignal(signals, row.outflow, TransferOut, None, SourceAt(signals, row.outflow));
      PutSignal(restored, row.inflow, TransferIn, None, None)
    else if row.outflow.Some? && row.outflow.value in signals && row.outflow.value in dispositions then
      var marked := PutSignal(signals, row.outflow, KindAt(signals, row.outflow, TransferOut), Some(row.id),
        SourceAt(signals, row.outflow));
      PutSignal(marked, row.inflow, KindAt(marked, row.inflow, TransferIn), Some(row.id), SourceAt(marked, row.inflow))
    else
      var marked := PutSignal(signals, row.outflow, BridgeOut, Some(row.id), SourceAt(signals, row.outflow));
      PutSignal(marked, row.inflow, BridgeIn, Some(row.id), row.outflow)
  }

  lemma SetSignalKeys(signals: Signals, row: Row, confirmed: bool, dispositions: set<nat>)
    ensures SetSignal(signals, row, confirmed, dispositions).Keys == signals.Keys
  {
  }

  // ---- One automatic pass ----

  function FindRow(rows: seq<Row>, id: nat): (r: Option<Row>)
    ensures r.Some? ==> r.value in rows && r.value.id == id
    ensures r.None? ==> forall row :: row in rows ==> row.id != id
  {
    if rows == [] then None else if rows[0].id == id then Some(rows[0]) else FindRow(rows[1..], id)
  }

  type CustodyFacts = map<(nat, nat), Custody>

  function CustodyOf(facts: CustodyFacts, out: nat, inf: nat): Custody {
    if (out, inf) in facts then facts[(out, inf)] else Unknown
  }

  function Seconds(row: Row): int {
    match row.seconds case Some(s) => s case None => 0
  }

  function Bps(row: Row): int {
    match row.bps case Some(b) => b case None => 0
  }

  function Scored(row: Row, custody: Custody): Row {
    var level := ScorePair(Seconds(row), Bps(row), custody);
    row.(level := Some(level), custody := Some(custody), status := StatusFor(level),
         resolvedBy := if StatusFor(level) == Confirmed then Some(Auto) else None)
  }

  predicate Scorable(row: Row, signals: Signals) {
    && !(row.status in {Confirmed, Rejected} && row.resolvedBy == Some(User))
    && row.outflow.Some? && row.inflow.Some? && row.outflow.value in signals && row.inflow.value in signals
  }

  function ScoreStep(b: BridgeBook, id: nat, facts: CustodyFacts, dispositions: set<nat>): BridgeBook {
    match FindRow(b.rows, id)
    case None => b
    case Some(row) =>
      if !Scorable(row, b.signals) then b
      else
        var scored := Scored(row, CustodyOf(facts, row.outflow.value, row.inflow.value));
        b.(rows := Put(b.rows, scored),
          signals := SetSignal(b.signals, scored, scored.status == Confirmed, dispositions))
  }

  function ScoreAll(b: BridgeBook, written: seq<nat>, facts: CustodyFacts, dispositions: set<nat>): BridgeBook
    decreases written
  {
    if written == [] then b
    else ScoreAll(ScoreStep(b, written[0], facts, dispositions), written[1..], facts, dispositions)
  }

  function BridgePass(b: BridgeBook, legs: seq<Leg>, facts: CustodyFacts, dispositions: set<nat>): BridgeBook {
    var st := PairPass(b.rows, b.nextId, legs);
    ScoreAll(BridgeBook(st.rows, st.nextId, b.signals), st.written, facts, dispositions)
  }

  // ---- Ageing out ----

  /** The leg a singleton is about. */
  function LegOf(row: Row): Option<nat> {
    if row.outflow.Some? then row.outflow else row.inflow
  }

  /** Unresolved, unmatched and old enough, on a wallet synced past the leg. */
  predicate Surfaced(row: Row, signals: Signals, aged: set<nat>, synced: set<nat>) {
    && row.status == Unmatched && row.resolvedBy.None? && row.id in aged
    && LegOf(row).Some? && LegOf(row).value in signals && LegOf(row).value in synced
  }

  function Flag(signals: Signals, id: nat): Signals {
    if id in signals then signals[id := signals[id].(review := true)] else signals
  }

  function SurfaceRow(signals: Signals, row: Row, aged: set<nat>, synced: set<nat>): Signals {
    if Surfaced(row, signals, aged, synced) then Flag(SetSignal(signals, row, false, {}), LegOf(row).value) else signals
  }

  function SurfaceAll(signals: Signals, rows: seq<Row>, aged: set<nat>, synced: set<nat>): Signals
    decreases rows
  {
    if rows == [] then signals else SurfaceAll(SurfaceRow(signals, rows[0], aged, synced), rows[1..], aged, synced)
  }

  // ---- The user's decisions ----

  /** None: no such row, and the call throws. */
  function ResolvePair(b: BridgeBook, id: nat, confirm: bool, dispositions: set<nat>): Option<BridgeBook> {
    match FindRow(b.rows, id)
    case None => None
    case Some(row) =>
      if row.resolvedBy == Some(User) && row.status == (if confirm then Confirmed else Rejected) then Some(b)
      else
        var resolved := row.(status := if confirm then Confirmed else Rejected, resolvedBy := Some(User));
        Some(b.(rows := Put(b.rows, resolved), signals := SetSignal(b.signals, resolved, confirm, dispositions)))
  }

  function ResolveUnmatched(b: BridgeBook, id: nat, resolution: UserResolution): Option<BridgeBook> {
    match FindRow(b.rows, id)
    case None => None
    case Some(row) =>
      var sold := resolution in {Sale, ThirdParty};
      var resolved := row.(status := if sold then Rejected else Unmatched, resolvedBy := Some(User));
      var signals := if sold then SetSignal(b.signals, resolved, false, {})
                     else if resolution == Other && LegOf(row).Some? then Flag(b.signals, LegOf(row).value)
                     else b.signals;
      Some(b.(rows := Put(b.rows, resolved), signals := signals))
  }

  datatype Action =
    | Pass(legs: seq<Leg>, facts: CustodyFacts, dispositions: set<nat>)
    | Surface(aged: set<nat>, synced: set<nat>)
    | DecidePair(row: nat, confirm: bool, treatments: set<nat>)
    | DecideUnmatched(row: nat, resolution: UserResolution)

  function After(b: BridgeBook, action: Action): BridgeBook {
    match action
    case Pass(legs, facts, dispositions) => BridgePass(b, legs, facts, dispositions)
    case Surface(aged, synced) => b.(signals := SurfaceAll(b.signals, b.rows, aged, synced))
    case DecidePair(id, confirm, treatments) =>
      (match ResolvePair(b, id, confirm, treatments) case Some(n) => n case None => b)
    case DecideUnmatched(id, resolution) => (match ResolveUnmatched(b, id, resolution) case Some(n) => n case None => b)
  }

  function Play(b: BridgeBook, actions: seq<Action>): BridgeBook
    decreases actions
  {
    if actions == [] then b else Play(After(b, actions[0]), actions[1..])
  }

  // ---- Row ids ----

  /** Row ids are distinct and below the next one. */
  ghost predicate Tidy(rows: seq<Row>, nextId: nat) {
    && (forall i :: 0 <= i < |rows| ==> rows[i].id < nextId)
    && (forall i, j :: 0 <= i < j < |rows| ==> rows[i].id != rows[j].id)
  }

  lemma SameRow(rows: seq<Row>, nextId: nat, a: Row, b: Row)
    requires Tidy(rows, nextId) && a in rows && b in rows && a.id == b.id
    ensures a == b
  {
    var i :| 0 <= i < |rows| && rows[i] == a;
    var j :| 0 <= j < |rows| && rows[j] == b;
    assert i == j;
  }

  lemma PutMembers(rows: seq<Row>, row: Row)
    ensures forall r :: r in Put(rows, row) ==> r == row || (r in rows && r.id != row.id)
    ensures forall r :: r in rows && r.id != row.id ==> r in Put(rows, row)
  {
    var next := Put(rows, row);
    forall r | r in rows && r.id != row.id ensures r in next {
      var i :| 0 <= i < |rows| && rows[i] == r;
      assert next[i] == r;
    }
  }

  // ---- Hands off ----

  function IsUser(): Row -> bool {
    (row: Row) => row.resolvedBy == Some(User)
  }

  /** One of the row's legs is held, on the same side, by a row the user resolved. */
  predicate TouchesUser(rows: seq<Row>, row: Row) {
    || (row.outflow.Some? && UserResolved(rows, row.outflow.value, Outflow))
    || (row.inflow.Some? && UserResolved(rows, row.inflow.value, Inflow))
  }

  /** The user's rows are all there, unchanged and in order, and every other row is one that was there
      before or has no leg of theirs. */
  ghost predicate HandsOff(before: seq<Row>, after: seq<Row>) {
    && Filter(after, IsUser()) == Filter(before, IsUser())
    && forall row :: row in after ==> row in before || (row.resolvedBy != Some(User) && !TouchesUser(before, row))
  }

  lemma UserResolvedByUserRows(rows: seq<Row>, id: nat, direction: Direction)
    ensures UserResolved(rows, id, direction) <==> UserResolved(Filter(rows, IsUser()), id, direction)
  {
    var users := Filter(rows, IsUser());
    if UserResolved(rows, id, direction) {
      var i :| 0 <= i < |rows| && Holds(rows[i], id, direction) && rows[i].resolvedBy == Some(User);
      assert rows[i] in users;
      var j :| 0 <= j < |users| && users[j] == rows[i];
    }
    if UserResolved(users, id, direction) {
      var i :| 0 <= i < |users| && Holds(users[i], id, direction) && users[i].resolvedBy == Some(User);
      assert users[i] in rows;
      var j :| 0 <= j < |rows| && rows[j] == users[i];
    }
  }

  lemma SameUsersSameTouch(before: seq<Row>, after: seq<Row>, row: Row)
    requires Filter(after, IsUser()) == Filter(before, IsUser())
    ensures TouchesUser(before, row) == TouchesUser(after, row)
  {
    if row.outflow.Some? {
      UserResolvedByUserRows(before, row.outflow.value, Outflow);
      UserResolvedByUserRows(after, row.outflow.value, Outflow);
    }
    if row.inflow.Some? {
      UserResolvedByUserRows(before, row.inflow.value, Inflow);
      UserResolvedByUserRows(after, row.inflow.value, Inflow);
    }
  }

  lemma HandsOffTwice(a: seq<Row>, b: seq<Row>, c: seq<Row>)
    requires HandsOff(a, b) && HandsOff(b, c)
    ensures HandsOff(a, c)
  {
    forall row | row in c ensures row in a || (row.resolvedBy != Some(User) && !TouchesUser(a, row)) {
      SameUsersSameTouch(a, b, row);
    }
  }

  lemma {:induction false} PutKeepsUsers(rows: seq<Row>, row: Row)
    requires row.resolvedBy != Some(User)
    requires forall r :: r in rows && r.id == row.id ==> r.resolvedBy != Some(User)
    ensures Filter(Put(rows, row), IsUser()) == Filter(rows, IsUser())
  {
    if rows != [] {
      PutKeepsUsers(rows[1..], row);
      assert Put(rows, row)[1..] == Put(rows[1..], row);
    }
  }

  /** Replacing an automatic row by one with no leg of the user's. */
  lemma PutHandsOff(rows: seq<Row>, nextId: nat, was: Row, row: Row)
    requires Tidy(rows, nextId) && was in rows && was.id == row.id
    requires was.resolvedBy != Some(User) && row.resolvedBy != Some(User) && !TouchesUser(rows, row)
    ensures HandsOff(rows, Put(rows, row)) && Tidy(Put(rows, row), nextId)
  {
    forall r | r in rows && r.id == row.id ensures r.resolvedBy != Some(User) {
      SameRow(rows, nextId, r, was);
    }
    PutKeepsUsers(rows, row);
    PutMembers(rows, row);
  }

  lemma DeleteTidy(rows: seq<Row>, nextId: nat, id: nat)
    requires Tidy(rows, nextId)
    ensures Tidy(Delete(rows, id), nextId)
  {
    var kept, key := Delete(rows, id), (row: Row) => row.id;
    assert DistinctBy(rows, key);
    FilterDistinct(rows, NotId(id), key);
    forall i | 0 <= i < |kept| ensures kept[i].id < nextId {
      assert kept[i] in rows;
    }
    forall i, j | 0 <= i < j < |kept| ensures kept[i].id != kept[j].id {
      assert key(kept[i]) != key(kept[j]);
    }
  }

  lemma DeleteHandsOff(rows: seq<Row>, nextId: nat, was: Row)
    requires Tidy(rows, nextId) && was in rows && was.resolvedBy != Some(User)
    ensures HandsOff(rows, Delete(rows, was.id)) && Tidy(Delete(rows, was.id), nextId)
  {
    forall r | r in rows && IsUser()(r) ensures NotId(was.id)(r) {
      if r.id == was.id {
        SameRow(rows, nextId, r, was);
      }
    }
    FilterAgain(rows, NotId(was.id), IsUser());
    DeleteTidy(rows, nextId, was.id);
  }

  lemma AppendHandsOff(rows: seq<Row>, nextId: nat, row: Row)
    requires Tidy(rows, nextId) && row.id == nextId && row.resolvedBy != Some(User) && !TouchesUser(rows, row)
    ensures HandsOff(rows, rows + [row]) && Tidy(rows + [row], nextId + 1)
  {
    FilterAppend(rows, [row], IsUser());
  }

  lemma NothingHandsOff(rows: seq<Row>)
    ensures HandsOff(rows, rows)
  {
  }

  /** Every row written so far is automatic and has no leg of the user's. */
  ghost predicate Clean(rows: seq<Row>, written: seq<nat>) {
    forall row :: row in rows && row.id in written ==> row.resolvedBy != Some(User) && !TouchesUser(rows, row)
  }

  lemma CleanStays(before: seq<Row>, after: seq<Row>, written: seq<nat>)
    requires Clean(before, written) && HandsOff(before, after)
    ensures Clean(after, written)
  {
    forall row | row in after && row.id in written ensures row.resolvedBy != Some(User) && !TouchesUser(after, row) {
      SameUsersSameTouch(before, after, row);
    }
  }

  /** What one step of a pass keeps. */
  ghost predicate StepOk(before: seq<Row>, st: PassState) {
    Tidy(st.rows, st.nextId) && HandsOff(before, st.rows) && Clean(st.rows, st.written)
  }

  lemma WrittenOne(before: seq<Row>, after: seq<Row>, nextId: nat, written: seq<nat>, row: Row)
    requires Clean(before, written) && HandsOff(before, after) && Tidy(after, nextId)
    requires row in after && row.resolvedBy != Some(User) && !TouchesUser(before, row)
    ensures Clean(after, written + [row.id])
  {
    CleanStays(before, after, written);
    forall r | r in after && r.id in written + [row.id] ensures r.resolvedBy != Some(User) && !TouchesUser(after, r) {
      if r.id == row.id {
        SameRow(after, nextId, r, row);
        SameUsersSameTouch(before, after, row);
      }
    }
  }

  lemma WritePairOk(st: PassState, h: Hypothesis)
    requires Tidy(st.rows, st.nextId) && Clean(st.rows, st.written)
    requires !UserResolved(st.rows, h.outflow.id, Outflow) && !UserResolved(st.rows, h.inflow.id, Inflow)
    ensures StepOk(st.rows, WritePair(st, h))
  {
    var o, i := h.outflow.id, h.inflow.id;
    var rows := st.rows;
    match (FindSingleton(rows, o, Outflow), FindSingleton(rows, i, Inflow)) {
      case (Some(s), Some(t)) =>
        var row := s.(inflow := Some(i), seconds := Some(h.seconds), bps := Some(h.bps));
        var mid := Put(rows, row);
        PutHandsOff(rows, st.nextId, s, row);
        PutMembers(rows, row);
        PutHolds(rows, s, row);
        if s.id == t.id {
          SameRow(rows, st.nextId, s, t);
        }
        assert t in mid;
        DeleteHandsOff(mid, st.nextId, t);
        HandsOffTwice(rows, mid, Delete(mid, t.id));
        assert row in Delete(mid, t.id);
        WrittenOne(rows, Delete(mid, t.id), st.nextId, st.written, row);
      case (Some(s), None) =>
        var row := s.(inflow := Some(i), seconds := Some(h.seconds), bps := Some(h.bps));
        PutHandsOff(rows, st.nextId, s, row);
        PutHolds(rows, s, row);
        WrittenOne(rows, Put(rows, row), st.nextId, st.written, row);
      case (None, Some(t)) =>
        var row := t.(outflow := Some(o), seconds := Some(h.seconds), bps := Some(h.bps));
        PutHandsOff(rows, st.nextId, t, row);
        PutHolds(rows, t, row);
        WrittenOne(rows, Put(rows, row), st.nextId, st.written, row);
      case (None, None) =>
        var row := NewPair(st.nextId, h);
        AppendHandsOff(rows, st.nextId, row);
        WrittenOne(rows, rows + [row], st.nextId + 1, st.written, row);
    }
  }

  lemma PutHolds(rows: seq<Row>, was: Row, row: Row)
    requires was in rows && was.id == row.id
    ensures row in Put(rows, row)
  {
    var i :| 0 <= i < |rows| && rows[i] == was;
    assert Put(rows, row)[i] == row;
  }

  lemma PairStepOk(st: PassState, h: Hypothesis)
    requires Tidy(st.rows, st.nextId) && Clean(st.rows, st.written)
    ensures StepOk(st.rows, PairStep(st, h))
  {
    var o, i := h.outflow.id, h.inflow.id;
    NothingHandsOff(st.rows);
    if o in st.used || i in st.used || UserResolved(st.rows, o, Outflow) || UserResolved(st.rows, i, Inflow) {
    } else {
      match FindPair(st.rows, o, i) {
        case Some(row) =>
          assert row.resolvedBy != Some(User);
          WrittenOne(st.rows, st.rows, st.nextId, st.written, row);
        case None => WritePairOk(st, h);
      }
    }
  }

  lemma SingletonStepOk(st: PassState, leg: Leg)
    requires Tidy(st.rows, st.nextId) && Clean(st.rows, st.written)
    ensures StepOk(st.rows, SingletonStep(st, leg))
  {
    NothingHandsOff(st.rows);
    if leg.id in st.used || UserResolved(st.rows, leg.id, leg.direction) {
    } else {
      match FindSingleton(st.rows, leg.id, leg.direction) {
        case Some(row) => WrittenOne(st.rows, st.rows, st.nextId, st.written, row);
        case None =>
          var row := NewSingleton(st.nextId, leg);
          AppendHandsOff(st.rows, st.nextId, row);
          WrittenOne(st.rows, st.rows + [row], st.nextId + 1, st.written, row);
      }
    }
  }

  lemma {:induction false} PairAllOk(st: PassState, hyps: seq<Hypothesis>)
    requires Tidy(st.rows, st.nextId) && Clean(st.rows, st.written)
    ensures StepOk(st.rows, PairAll(st, hyps))
    decreases hyps
  {
    NothingHandsOff(st.rows);
    if hyps != [] {
      var next := PairStep(st, hyps[0]);
      PairStepOk(st, hyps[0]);
      PairAllOk(next, hyps[1..]);
      HandsOffTwice(st.rows, next.rows, PairAll(next, hyps[1..]).rows);
    }
  }

  lemma {:induction false} SingleAllOk(st: PassState, legs: seq<Leg>)
    requires Tidy(st.rows, st.nextId) && Clean(st.rows, st.written)
    ensures StepOk(st.rows, SingleAll(st, legs))
    decreases legs
  {
    NothingHandsOff(st.rows);
    if legs != [] {
      var next := SingletonStep(st, legs[0]);
      SingletonStepOk(st, legs[0]);
      SingleAllOk(next, legs[1..]);
      HandsOffTwice(st.rows, next.rows, SingleAll(next, legs[1..]).rows);
    }
  }

  lemma PairPassOk(rows: seq<Row>, nextId: nat, legs: seq<Leg>)
    requires Tidy(rows, nextId)
    ensures StepOk(rows, PairPass(rows, nextId, legs))
  {
    var start := PassState(rows, nextId, {}, []);
    var mid := PairAll(start, Hypotheses(legs));
    PairAllOk(start, Hypotheses(legs));
    SingleAllOk(mid, legs);
    HandsOffTwice(rows, mid.rows, SingleAll(mid, legs).rows);
  }

  lemma ScoreStepOk(b: BridgeBook, written: seq<nat>, id: nat, facts: CustodyFacts, dispositions: set<nat>)
    requires Tidy(b.rows, b.nextId) && Clean(b.rows, written) && id in written
    ensures var next := ScoreStep(b, id, facts, dispositions);
            Tidy(next.rows, next.nextId) && HandsOff(b.rows, next.rows) && Clean(next.rows, written)
  {
    NothingHandsOff(b.rows);
    match FindRow(b.rows, id) {
      case None =>
      case Some(row) =>
        if Scorable(row, b.signals) {
          var scored := Scored(row, CustodyOf(facts, row.outflow.value, row.inflow.value));
          PutHandsOff(b.rows, b.nextId, row, scored);
          CleanStays(b.rows, Put(b.rows, scored), written);
        }
    }
  }

  lemma {:induction false} ScoreAllOk(b: BridgeBook, written: seq<nat>, todo: seq<nat>, facts: CustodyFacts,
                                      dispositions: set<nat>)
    requires Tidy(b.rows, b.nextId) && Clean(b.rows, written) && forall id :: id in todo ==> id in written
    ensures var next := ScoreAll(b, todo, facts, dispositions);
            Tidy(next.rows, next.nextId) && HandsOff(b.rows, next.rows) && Clean(next.rows, written)
    decreases todo
  {
    NothingHandsOff(b.rows);
    if todo != [] {
      var next := ScoreStep(b, todo[0], facts, dispositions);
      ScoreStepOk(b, written, todo[0], facts, dispositions);
      ScoreAllOk(next, written, todo[1..], facts, dispositions);
      HandsOffTwice(b.rows, next.rows, ScoreAll(next, todo[1..], facts, dispositions).rows);
    }
  }

  lemma PassHandsOff(b: BridgeBook, legs: seq<Leg>, facts: CustodyFacts, dispositions: set<nat>)
    requires Tidy(b.rows, b.nextId)
    ensures var next := BridgePass(b, legs, facts, dispositions);
            Tidy(next.rows, next.nextId) && HandsOff(b.rows, next.rows)
  {
    var st := PairPass(b.rows, b.nextId, legs);
    PairPassOk(b.rows, b.nextId, legs);
    var mid := BridgeBook(st.rows, st.nextId, b.signals);
    ScoreAllOk(mid, st.written, st.written, facts, dispositions);
    HandsOffTwice(b.rows, st.rows, ScoreAll(mid, st.written, facts, dispositions).rows);
  }

  predicate Automatic(action: Action) {
    action.Pass? || action.Surface?
  }

  /** User decisions are stable: over any interleaving of automatic passes and ageing out, the user's rows
      are never modified, deleted or reordered, and their legs enter no row that was not there before. */
  lemma {:induction false} AutomationKeepsHandsOff(b: BridgeBook, actions: seq<Action>)
    requires Tidy(b.rows, b.nextId) && forall a :: a in actions ==> Automatic(a)
    ensures HandsOff(b.rows, Play(b, actions).rows)
    decreases actions
  {
    NothingHandsOff(b.rows);
    if actions != [] {
      var next := After(b, actions[0]);
      assert Automatic(actions[0]);
      match actions[0] {
        case Pass(legs, facts, dispositions) => PassHandsOff(b, legs, facts, dispositions);
        case Surface(_, _) =>
      }
      AutomationKeepsHandsOff(next, actions[1..]);
      HandsOffTwice(b.rows, next.rows, Play(next, actions[1..]).rows);
    }
  }

  predicate Decides(action: Action, id: nat) {
    (action.DecidePair? || action.DecideUnmatched?) && action.row == id
  }

  lemma PutTidy(rows: seq<Row>, nextId: nat, was: Row, row: Row)
    requires Tidy(rows, nextId) && was in rows && was.id == row.id
    ensures Tidy(Put(rows, row), nextId)
  {
  }

  lemma AfterTidy(b: BridgeBook, action: Action)
    requires Tidy(b.rows, b.nextId)
    ensures Tidy(After(b, action).rows, After(b, action).nextId)
  {
    match action {
      case Pass(legs, facts, dispositions) => PassHandsOff(b, legs, facts, dispositions);
      case Surface(_, _) =>
      case DecidePair(id, confirm, _) =>
        match FindRow(b.rows, id) {
          case None =>
          case Some(found) =>
            PutTidy(b.rows, b.nextId, found,
                    found.(status := if confirm then Confirmed else Rejected, resolvedBy := Some(User)));
        }
      case DecideUnmatched(id, resolution) =>
        match FindRow(b.rows, id) {
          case None =>
          case Some(found) =>
            var status := if resolution in {Sale, ThirdParty} then Rejected else Unmatched;
            PutTidy(b.rows, b.nextId, found, found.(status := status, resolvedBy := Some(User)));
        }
    }
  }

  lemma AfterKeepsUserRow(b: BridgeBook, action: Action, row: Row)
    requires Tidy(b.rows, b.nextId) && row in b.rows && row.resolvedBy == Some(User) && !Decides(action, row.id)
    ensures row in After(b, action).rows
  {
    match action {
      case Pass(legs, facts, dispositions) =>
        PassHandsOff(b, legs, facts, dispositions);
        assert row in Filter(b.rows, IsUser());
      case Surface(_, _) =>
      case DecidePair(id, confirm, treatments) =>
        match FindRow(b.rows, id) {
          case None =>
          case Some(found) =>
            PutMembers(b.rows, found.(status := if confirm then Confirmed else Rejected, resolvedBy := Some(User)));
        }
      case DecideUnmatched(id, resolution) =>
        match FindRow(b.rows, id) {
          case None =>
          case Some(found) =>
            var status := if resolution in {Sale, ThirdParty} then Rejected else Unmatched;
            PutMembers(b.rows, found.(status := status, resolvedBy := Some(User)));
        }
    }
  }

  /** A row the user resolved changes only when the user decides on that very row. */
  lemma {:induction false} OnlyTheUserReopens(b: BridgeBook, actions: seq<Action>, row: Row)
    requires Tidy(b.rows, b.nextId) && row in b.rows && row.resolvedBy == Some(User)
    requires forall a :: a in actions ==> !Decides(a, row.id)
    ensures row in Play(b, actions).rows
    decreases actions
  {
    if actions != [] {
      assert !Decides(actions[0], row.id);
      AfterTidy(b, actions[0]);
      AfterKeepsUserRow(b, actions[0], row);
      OnlyTheUserReopens(After(b, actions[0]), actions[1..], row);
    }
  }
}
