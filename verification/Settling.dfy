/** A bridge pass repeated over the same legs changes nothing. */
module Settling {
  import opened Sequences
  import opened Pairing
  import opened Bridge

  // ---- What a pass finds again ----

  function PairId(rows: seq<Row>, out: nat, inf: nat): Option<nat> {
    match FindPair(rows, out, inf) case None => None case Some(row) => Some(row.id)
  }

  function SingleId(rows: seq<Row>, id: nat, direction: Direction): Option<nat> {
    match FindSingleton(rows, id, direction) case None => None case Some(row) => Some(row.id)
  }

  /** What was found before is found after, under the same row. */
  ghost predicate FindsPairs(before: seq<Row>, after: seq<Row>) {
    forall out, inf :: PairId(before, out, inf).Some? ==> PairId(after, out, inf) == PairId(before, out, inf)
  }

  ghost predicate FindsSingles(before: seq<Row>, after: seq<Row>) {
    forall id, side :: SingleId(before, id, side).Some? ==> SingleId(after, id, side) == SingleId(before, id, side)
  }

  ghost predicate SameUsers(before: seq<Row>, after: seq<Row>) {
    Filter(before, IsUser()) == Filter(after, IsUser())
  }

  lemma {:induction false} PairIdPut(rows: seq<Row>, row: Row, out: nat, inf: nat)
    requires forall r :: r in rows && r.id == row.id ==> IsLivePair(r, out, inf) == IsLivePair(row, out, inf)
    ensures PairId(Put(rows, row), out, inf) == PairId(rows, out, inf)
  {
    if rows != [] {
      PairIdPut(rows[1..], row, out, inf);
      assert Put(rows, row)[1..] == Put(rows[1..], row);
    }
  }

  /** Completing a row makes it the one the pair is found under. */
  lemma {:induction false} PairIdCompleted(rows: seq<Row>, was: Row, row: Row, out: nat, inf: nat)
    requires was in rows && was.id == row.id && IsLivePair(row, out, inf) && PairId(rows, out, inf).None?
    ensures PairId(Put(rows, row), out, inf) == Some(row.id)
  {
    if rows[0].id != row.id {
      PairIdCompleted(rows[1..], was, row, out, inf);
      assert Put(rows, row)[1..] == Put(rows[1..], row);
    }
  }

  lemma {:induction false} PairIdDelete(rows: seq<Row>, id: nat, out: nat, inf: nat)
    requires forall r :: r in rows && r.id == id ==> !IsLivePair(r, out, inf)
    ensures PairId(Delete(rows, id), out, inf) == PairId(rows, out, inf)
  {
    if rows != [] {
      assert rows[0] in rows;
      PairIdDelete(rows[1..], id, out, inf);
    }
  }

  lemma {:induction false} PairIdAppend(rows: seq<Row>, row: Row, out: nat, inf: nat)
    ensures PairId(rows + [row], out, inf)
         == if PairId(rows, out, inf).Some? then PairId(rows, out, inf)
            else if IsLivePair(row, out, inf) then Some(row.id) else None
  {
    if rows == [] {
      assert [] + [row] == [row];
    } else {
      PairIdAppend(rows[1..], row, out, inf);
      assert (rows + [row])[1..] == rows[1..] + [row];
    }
  }

  lemma {:induction false} SingleIdPut(rows: seq<Row>, row: Row, id: nat, side: Direction)
    requires forall r :: r in rows && r.id == row.id ==> IsSingleton(r, id, side) == IsSingleton(row, id, side)
    ensures SingleId(Put(rows, row), id, side) == SingleId(rows, id, side)
  {
    if rows != [] {
      SingleIdPut(rows[1..], row, id, side);
      assert Put(rows, row)[1..] == Put(rows[1..], row);
    }
  }

  lemma {:induction false} SingleIdAppend(rows: seq<Row>, row: Row, id: nat, side: Direction)
    ensures SingleId(rows + [row], id, side)
         == if SingleId(rows, id, side).Some? then SingleId(rows, id, side)
            else if IsSingleton(row, id, side) then Some(row.id) else None
  {
    if rows == [] {
      assert [] + [row] == [row];
    } else {
      SingleIdAppend(rows[1..], row, id, side);
      assert (rows + [row])[1..] == rows[1..] + [row];
    }
  }

  // ---- One hypothesis ----

  /** Completing a singleton is no news about any other pair. */
  lemma CompletedKeeps(rows: seq<Row>, nextId: nat, was: Row, row: Row, out: nat, inf: nat)
    requires Tidy(rows, nextId) && was in rows && was.id == row.id
    requires !IsLivePair(was, out, inf) && !IsLivePair(row, out, inf)
    ensures PairId(Put(rows, row), out, inf) == PairId(rows, out, inf)
  {
    forall r | r in rows && r.id == row.id ensures r == was {
      SameRow(rows, nextId, r, was);
    }
    PairIdPut(rows, row, out, inf);
  }

  /** Nor is deleting one. */
  lemma DeletedKeeps(rows: seq<Row>, nextId: nat, row: Row, gone: Row, out: nat, inf: nat)
    requires Tidy(rows, nextId) && gone in rows && gone.id != row.id && !IsLivePair(gone, out, inf)
    ensures PairId(Delete(Put(rows, row), gone.id), out, inf) == PairId(Put(rows, row), out, inf)
  {
    PutMembers(rows, row);
    forall r | r in Put(rows, row) && r.id == gone.id ensures r == gone {
      SameRow(rows, nextId, r, gone);
    }
    PairIdDelete(Put(rows, row), gone.id, out, inf);
  }

  lemma WritePairKeeps(st: PassState, h: Hypothesis, out: nat, inf: nat)
    requires Tidy(st.rows, st.nextId) && (out, inf) != (h.outflow.id, h.inflow.id)
    ensures PairId(WritePair(st, h).rows, out, inf) == PairId(st.rows, out, inf)
  {
    var o, i := h.outflow.id, h.inflow.id;
    match (FindSingleton(st.rows, o, Outflow), FindSingleton(st.rows, i, Inflow)) {
      case (Some(s), Some(t)) =>
        var row := s.(inflow := Some(i), seconds := Some(h.seconds), bps := Some(h.bps));
        CompletedKeeps(st.rows, st.nextId, s, row, out, inf);
        TwoSingletons(st.rows, st.nextId, s, t);
        DeletedKeeps(st.rows, st.nextId, row, t, out, inf);
      case (Some(s), None) =>
        var row := s.(inflow := Some(i), seconds := Some(h.seconds), bps := Some(h.bps));
        CompletedKeeps(st.rows, st.nextId, s, row, out, inf);
      case (None, Some(t)) =>
        var row := t.(outflow := Some(o), seconds := Some(h.seconds), bps := Some(h.bps));
        CompletedKeeps(st.rows, st.nextId, t, row, out, inf);
      case (None, None) => PairIdAppend(st.rows, NewPair(st.nextId, h), out, inf);
    }
  }

  lemma TwoSingletons(rows: seq<Row>, nextId: nat, s: Row, t: Row)
    requires Tidy(rows, nextId) && s in rows && t in rows && s.outflow.Some? && t.outflow.None?
    ensures s.id != t.id
  {
    if s.id == t.id {
      SameRow(rows, nextId, s, t);
    }
  }

  /** The pair that is written is found under the row that is written. */
  lemma WritePairFinds(st: PassState, h: Hypothesis)
    requires Tidy(st.rows, st.nextId) && PairId(st.rows, h.outflow.id, h.inflow.id).None?
    ensures PairId(WritePair(st, h).rows, h.outflow.id, h.inflow.id).Some?
    ensures WritePair(st, h).written
         == st.written + [PairId(WritePair(st, h).rows, h.outflow.id, h.inflow.id).value]
  {
    var o, i := h.outflow.id, h.inflow.id;
    match (FindSingleton(st.rows, o, Outflow), FindSingleton(st.rows, i, Inflow)) {
      case (Some(s), Some(t)) =>
        var row := s.(inflow := Some(i), seconds := Some(h.seconds), bps := Some(h.bps));
        PairIdCompleted(st.rows, s, row, o, i);
        TwoSingletons(st.rows, st.nextId, s, t);
        DeletedKeeps(st.rows, st.nextId, row, t, o, i);
      case (Some(s), None) =>
        PairIdCompleted(st.rows, s, s.(inflow := Some(i), seconds := Some(h.seconds), bps := Some(h.bps)), o, i);
      case (None, Some(t)) =>
        PairIdCompleted(st.rows, t, t.(outflow := Some(o), seconds := Some(h.seconds), bps := Some(h.bps)), o, i);
      case (None, None) => PairIdAppend(st.rows, NewPair(st.nextId, h), o, i);
    }
  }

  lemma WritePairKeepsAll(st: PassState, h: Hypothesis)
    requires Tidy(st.rows, st.nextId) && PairId(st.rows, h.outflow.id, h.inflow.id).None?
    ensures FindsPairs(st.rows, WritePair(st, h).rows)
  {
    forall out, inf | PairId(st.rows, out, inf).Some?
      ensures PairId(WritePair(st, h).rows, out, inf) == PairId(st.rows, out, inf)
    {
      WritePairKeeps(st, h, out, inf);
    }
  }

  lemma PairStepWrites(st: PassState, h: Hypothesis)
    ensures PairStep(st, h).rows == st.rows
            || (PairStep(st, h) == WritePair(st, h) && PairId(st.rows, h.outflow.id, h.inflow.id).None?)
  {
  }

  lemma PairStepKeeps(st: PassState, h: Hypothesis)
    requires Tidy(st.rows, st.nextId)
    ensures FindsPairs(st.rows, PairStep(st, h).rows)
  {
    PairStepWrites(st, h);
    if PairStep(st, h).rows != st.rows {
      WritePairKeepsAll(st, h);
    }
  }

  lemma {:induction false} PairAllKeeps(st: PassState, hyps: seq<Hypothesis>)
    requires Tidy(st.rows, st.nextId) && Clean(st.rows, st.written)
    ensures FindsPairs(st.rows, PairAll(st, hyps).rows)
    decreases hyps
  {
    if hyps != [] {
      PairStepKeeps(st, hyps[0]);
      PairStepOk(st, hyps[0]);
      PairAllKeeps(PairStep(st, hyps[0]), hyps[1..]);
    }
  }

  /** The same state of a pass over a table that already holds what it will write. */
  ghost function Over(st: PassState, rows: seq<Row>, nextId: nat): PassState {
    PassState(rows, nextId, st.used, st.written)
  }

  lemma SameUsersSameAnswer(before: seq<Row>, after: seq<Row>, id: nat, side: Direction)
    requires SameUsers(before, after)
    ensures UserResolved(before, id, side) == UserResolved(after, id, side)
  {
    UserResolvedByUserRows(before, id, side);
    UserResolvedByUserRows(after, id, side);
  }

  lemma PairStepAgain(st: PassState, h: Hypothesis, rows: seq<Row>, nextId: nat)
    requires Tidy(st.rows, st.nextId) && SameUsers(st.rows, rows) && FindsPairs(PairStep(st, h).rows, rows)
    ensures PairStep(Over(st, rows, nextId), h) == Over(PairStep(st, h), rows, nextId)
  {
    var o, i := h.outflow.id, h.inflow.id;
    SameUsersSameAnswer(st.rows, rows, o, Outflow);
    SameUsersSameAnswer(st.rows, rows, i, Inflow);
    if o !in st.used && i !in st.used && !UserResolved(st.rows, o, Outflow) && !UserResolved(st.rows, i, Inflow) {
      match FindPair(st.rows, o, i) {
        case Some(row) => assert PairId(st.rows, o, i).Some?;
        case None => WritePairFinds(st, h);
      }
      assert PairId(PairStep(st, h).rows, o, i).Some?;
      assert PairId(rows, o, i) == PairId(PairStep(st, h).rows, o, i);
    }
  }

  lemma {:induction false} PairAllAgain(st: PassState, hyps: seq<Hypothesis>, rows: seq<Row>, nextId: nat)
    requires Tidy(st.rows, st.nextId) && Clean(st.rows, st.written)
    requires SameUsers(st.rows, rows) && FindsPairs(PairAll(st, hyps).rows, rows)
    ensures PairAll(Over(st, rows, nextId), hyps) == Over(PairAll(st, hyps), rows, nextId)
    decreases hyps
  {
    if hyps != [] {
      var next := PairStep(st, hyps[0]);
      PairStepOk(st, hyps[0]);
      PairAllKeeps(next, hyps[1..]);
      assert FindsPairs(next.rows, rows);
      PairStepAgain(st, hyps[0], rows, nextId);
      PairAllAgain(next, hyps[1..], rows, nextId);
    }
  }

  // ---- The legs left over ----

  lemma SingletonStepKeeps(st: PassState, leg: Leg)
    ensures FindsPairs(st.rows, SingletonStep(st, leg).rows) && FindsSingles(st.rows, SingletonStep(st, leg).rows)
  {
    if SingletonStep(st, leg).rows != st.rows {
      var row := NewSingleton(st.nextId, leg);
      forall out, inf | PairId(st.rows, out, inf).Some?
        ensures PairId(st.rows + [row], out, inf) == PairId(st.rows, out, inf)
      {
        PairIdAppend(st.rows, row, out, inf);
      }
      forall id, side | SingleId(st.rows, id, side).Some?
        ensures SingleId(st.rows + [row], id, side) == SingleId(st.rows, id, side)
      {
        SingleIdAppend(st.rows, row, id, side);
      }
    }
  }

  lemma {:induction false} SingleAllKeeps(st: PassState, legs: seq<Leg>)
    ensures FindsPairs(st.rows, SingleAll(st, legs).rows) && FindsSingles(st.rows, SingleAll(st, legs).rows)
    decreases legs
  {
    if legs != [] {
      SingletonStepKeeps(st, legs[0]);
      SingleAllKeeps(SingletonStep(st, legs[0]), legs[1..]);
    }
  }

  lemma SingletonStepAgain(st: PassState, leg: Leg, rows: seq<Row>, nextId: nat)
    requires SameUsers(st.rows, rows) && FindsSingles(SingletonStep(st, leg).rows, rows)
    ensures SingletonStep(Over(st, rows, nextId), leg) == Over(SingletonStep(st, leg), rows, nextId)
  {
    SameUsersSameAnswer(st.rows, rows, leg.id, leg.direction);
    if leg.id !in st.used && !UserResolved(st.rows, leg.id, leg.direction) {
      if FindSingleton(st.rows, leg.id, leg.direction).None? {
        SingleIdAppend(st.rows, NewSingleton(st.nextId, leg), leg.id, leg.direction);
      }
      assert SingleId(SingletonStep(st, leg).rows, leg.id, leg.direction).Some?;
      assert SingleId(rows, leg.id, leg.direction) == SingleId(SingletonStep(st, leg).rows, leg.id, leg.direction);
    }
  }

  lemma {:induction false} SingleAllAgain(st: PassState, legs: seq<Leg>, rows: seq<Row>, nextId: nat)
    requires Tidy(st.rows, st.nextId) && Clean(st.rows, st.written)
    requires SameUsers(st.rows, rows) && FindsSingles(SingleAll(st, legs).rows, rows)
    ensures SingleAll(Over(st, rows, nextId), legs) == Over(SingleAll(st, legs), rows, nextId)
    decreases legs
  {
    if legs != [] {
      var next := SingletonStep(st, legs[0]);
      SingletonStepOk(st, legs[0]);
      SingleAllKeeps(next, legs[1..]);
      assert FindsSingles(next.rows, rows);
      SingletonStepAgain(st, legs[0], rows, nextId);
      SingleAllAgain(next, legs[1..], rows, nextId);
    }
  }

  /** Over a table where everything it would write is found, and with the same rows of the user's, a pass writes
      nothing and lists the same rows. */
  lemma PairPassAgain(before: seq<Row>, firstId: nat, legs: seq<Leg>, rows: seq<Row>, nextId: nat)
    requires Tidy(before, firstId)
    requires var st := PairPass(before, firstId, legs);
             SameUsers(st.rows, rows) && FindsPairs(st.rows, rows) && FindsSingles(st.rows, rows)
    ensures PairPass(rows, nextId, legs) == Over(PairPass(before, firstId, legs), rows, nextId)
  {
    var start := PassState(before, firstId, {}, []);
    var mid := PairAll(start, Hypotheses(legs));
    PairAllOk(start, Hypotheses(legs));
    SingleAllOk(mid, legs);
    SingleAllKeeps(mid, legs);
    PairAllAgain(start, Hypotheses(legs), rows, nextId);
    SingleAllAgain(mid, legs, rows, nextId);
  }

  /** Pairing is idempotent: from any table, a second pass over the same legs leaves the rows as they are. */
  lemma PairingIsIdempotent(rows: seq<Row>, nextId: nat, legs: seq<Leg>)
    requires Tidy(rows, nextId)
    ensures var once := PairPass(rows, nextId, legs); PairPass(once.rows, once.nextId, legs) == once
  {
    var once := PairPass(rows, nextId, legs);
    PairPassAgain(rows, nextId, legs, once.rows, once.nextId);
  }

  // ---- Scoring again ----

  /** No written row is a rejected one. */
  ghost predicate LiveRows(rows: seq<Row>, written: seq<nat>) {
    forall row :: row in rows && row.id in written ==> row.status != Rejected
  }

  predicate Apart(a: Row, b: Row) {
    !IsPair(a) || !IsPair(b)
    || {a.outflow.value, a.inflow.value} !! {b.outflow.value, b.inflow.value}
  }

  /** Written pairs share no leg. */
  ghost predicate PairsApart(rows: seq<Row>, written: seq<nat>) {
    forall a, b :: a in rows && b in rows && a.id in written && b.id in written && a.id != b.id ==> Apart(a, b)
  }

  /** Every written row is a pair, whose legs are used: so it is before the legs left over are filed. */
  ghost predicate PairsUsed(rows: seq<Row>, written: seq<nat>, used: set<nat>) {
    forall row :: row in rows && row.id in written ==>
      IsPair(row) && row.outflow.value in used && row.inflow.value in used
  }

  ghost predicate Well(st: PassState) {
    Tidy(st.rows, st.nextId) && LiveRows(st.rows, st.written) && PairsApart(st.rows, st.written)
      && forall id :: id in st.written ==> id < st.nextId
  }

  /** A pair of unused legs joins the written ones. */
  lemma Joins(st: PassState, h: Hypothesis, rows: seq<Row>, nextId: nat, row: Row)
    requires Well(st) && PairsUsed(st.rows, st.written, st.used) && Tidy(rows, nextId) && st.nextId <= nextId
    requires row in rows && row.outflow == Some(h.outflow.id) && row.inflow == Some(h.inflow.id)
    requires row.status != Rejected && h.outflow.id !in st.used && h.inflow.id !in st.used
    requires forall r :: r in rows && r.id != row.id && r.id in st.written ==> r in st.rows
    ensures var next := Assign(st, h, rows, nextId, row.id);
            Well(next) && PairsUsed(next.rows, next.written, next.used)
  {
    forall r | r in rows && r.id == row.id ensures r == row {
      SameRow(rows, nextId, r, row);
    }
  }

  lemma WritePairJoins(st: PassState, h: Hypothesis)
    requires Well(st) && PairsUsed(st.rows, st.written, st.used) && Tidy(WritePair(st, h).rows, WritePair(st, h).nextId)
    requires h.outflow.id !in st.used && h.inflow.id !in st.used
    ensures var next := WritePair(st, h); Well(next) && PairsUsed(next.rows, next.written, next.used)
  {
    var o, i, rows, next := h.outflow.id, h.inflow.id, st.rows, WritePair(st, h);
    match (FindSingleton(rows, o, Outflow), FindSingleton(rows, i, Inflow)) {
      case (Some(s), Some(t)) =>
        var row := s.(inflow := Some(i), seconds := Some(h.seconds), bps := Some(h.bps));
        PutMembers(rows, row);
        PutHolds(rows, s, row);
        TwoSingletons(rows, st.nextId, s, t);
        Joins(st, h, next.rows, next.nextId, row);
      case (Some(s), None) =>
        var row := s.(inflow := Some(i), seconds := Some(h.seconds), bps := Some(h.bps));
        PutMembers(rows, row);
        PutHolds(rows, s, row);
        Joins(st, h, next.rows, next.nextId, row);
      case (None, Some(t)) =>
        var row := t.(outflow := Some(o), seconds := Some(h.seconds), bps := Some(h.bps));
        PutMembers(rows, row);
        PutHolds(rows, t, row);
        Joins(st, h, next.rows, next.nextId, row);
      case (None, None) => Joins(st, h, next.rows, next.nextId, NewPair(st.nextId, h));
    }
  }

  lemma PairStepWell(st: PassState, h: Hypothesis)
    requires Well(st) && PairsUsed(st.rows, st.written, st.used) && Clean(st.rows, st.written)
    ensures var next := PairStep(st, h); Well(next) && PairsUsed(next.rows, next.written, next.used)
  {
    var o, i := h.outflow.id, h.inflow.id;
    PairStepOk(st, h);
    if o !in st.used && i !in st.used && !UserResolved(st.rows, o, Outflow) && !UserResolved(st.rows, i, Inflow) {
      match FindPair(st.rows, o, i) {
        case Some(row) => Joins(st, h, st.rows, st.nextId, row);
        case None => WritePairJoins(st, h);
      }
    }
  }

  lemma {:induction false} PairAllWell(st: PassState, hyps: seq<Hypothesis>)
    requires Well(st) && PairsUsed(st.rows, st.written, st.used) && Clean(st.rows, st.written)
    ensures Well(PairAll(st, hyps))
    decreases hyps
  {
    if hyps != [] {
      PairStepOk(st, hyps[0]);
      PairStepWell(st, hyps[0]);
      PairAllWell(PairStep(st, hyps[0]), hyps[1..]);
    }
  }

  /** A row for a leg left over joins them too. */
  lemma SingleJoins(st: PassState, rows: seq<Row>, nextId: nat, row: Row)
    requires Well(st) && Tidy(rows, nextId) && st.nextId <= nextId
    requires row in rows && !IsPair(row) && row.status != Rejected
    requires forall r :: r in rows && r.id != row.id ==> r in st.rows
    ensures Well(PassState(rows, nextId, st.used, st.written + [row.id]))
  {
    forall r | r in rows && r.id == row.id ensures r == row {
      SameRow(rows, nextId, r, row);
    }
  }

  lemma SingletonStepWell(st: PassState, leg: Leg)
    requires Well(st) && Clean(st.rows, st.written)
    ensures Well(SingletonStep(st, leg))
  {
    SingletonStepOk(st, leg);
    if leg.id !in st.used && !UserResolved(st.rows, leg.id, leg.direction) {
      match FindSingleton(st.rows, leg.id, leg.direction) {
        case Some(row) => SingleJoins(st, st.rows, st.nextId, row);
        case None =>
          var row := NewSingleton(st.nextId, leg);
          SingleJoins(st, st.rows + [row], st.nextId + 1, row);
      }
    }
  }

  lemma {:induction false} SingleAllWell(st: PassState, legs: seq<Leg>)
    requires Well(st) && Clean(st.rows, st.written)
    ensures Well(SingleAll(st, legs))
    decreases legs
  {
    if legs != [] {
      SingletonStepOk(st, legs[0]);
      SingletonStepWell(st, legs[0]);
      SingleAllWell(SingletonStep(st, legs[0]), legs[1..]);
    }
  }

  lemma PairPassWell(rows: seq<Row>, nextId: nat, legs: seq<Leg>)
    requires Tidy(rows, nextId)
    ensures Well(PairPass(rows, nextId, legs)) && StepOk(rows, PairPass(rows, nextId, legs))
  {
    var start := PassState(rows, nextId, {}, []);
    PairAllOk(start, Hypotheses(legs));
    PairAllWell(start, Hypotheses(legs));
    SingleAllWell(PairAll(start, Hypotheses(legs)), legs);
    PairPassOk(rows, nextId, legs);
  }

  // ---- Rows whose score has settled ----

  /** Scoring the row again, if it can be scored, changes neither it nor the signals of its legs. */
  ghost predicate Settled(b: BridgeBook, id: nat, facts: CustodyFacts, dispositions: set<nat>) {
    match FindRow(b.rows, id)
    case None => true
    case Some(row) =>
      Scorable(row, b.signals) ==>
        && Scored(row, CustodyOf(facts, row.outflow.value, row.inflow.value)) == row
        && SetSignal(b.signals, row, row.status == Confirmed, dispositions) == b.signals
  }

  lemma {:induction false} PutSame(rows: seq<Row>, row: Row)
    requires forall r :: r in rows && r.id == row.id ==> r == row
    ensures Put(rows, row) == rows
  {
    if rows != [] {
      PutSame(rows[1..], row);
    }
  }

  lemma SettledStep(b: BridgeBook, id: nat, facts: CustodyFacts, dispositions: set<nat>)
    requires Tidy(b.rows, b.nextId) && Settled(b, id, facts, dispositions)
    ensures ScoreStep(b, id, facts, dispositions) == b
  {
    match FindRow(b.rows, id) {
      case None =>
      case Some(row) =>
        forall r | r in b.rows && r.id == row.id ensures r == row {
          SameRow(b.rows, b.nextId, r, row);
        }
        PutSame(b.rows, row);
    }
  }

  lemma {:induction false} SettledAll(b: BridgeBook, todo: seq<nat>, facts: CustodyFacts, dispositions: set<nat>)
    requires Tidy(b.rows, b.nextId) && forall id :: id in todo ==> Settled(b, id, facts, dispositions)
    ensures ScoreAll(b, todo, facts, dispositions) == b
    decreases todo
  {
    if todo != [] {
      SettledStep(b, todo[0], facts, dispositions);
      SettledAll(b, todo[1..], facts, dispositions);
    }
  }

  lemma SetSignalTwice(signals: Signals, row: Row, confirmed: bool, dispositions: set<nat>)
    ensures var once := SetSignal(signals, row, confirmed, dispositions);
            SetSignal(once, row, confirmed, dispositions) == once
  {
  }

  lemma {:induction false} PutFound(rows: seq<Row>, row: Row, id: nat)
    ensures FindRow(Put(rows, row), id)
         == if id == row.id && FindRow(rows, id).Some? then Some(row) else FindRow(rows, id)
  {
    if rows != [] {
      PutFound(rows[1..], row, id);
      assert Put(rows, row)[1..] == Put(rows[1..], row);
    }
  }

  lemma ScoringSettles(b: BridgeBook, id: nat, facts: CustodyFacts, dispositions: set<nat>)
    ensures Settled(ScoreStep(b, id, facts, dispositions), id, facts, dispositions)
  {
    match FindRow(b.rows, id) {
      case None =>
      case Some(row) =>
        if Scorable(row, b.signals) {
          var scored := Scored(row, CustodyOf(facts, row.outflow.value, row.inflow.value));
          PutFound(b.rows, scored, id);
          SetSignalTwice(b.signals, scored, scored.status == Confirmed, dispositions);
        }
    }
  }

  /** Signals of a row that another row's signals do not touch stay as its own would set them. */
  lemma SetSignalApart(signals: Signals, row: Row, other: Row, confirmed: bool, dispositions: set<nat>, otherwise: bool)
    requires IsPair(row) && IsPair(other) && Apart(row, other)
    requires SetSignal(signals, other, otherwise, dispositions) == signals
    ensures var next := SetSignal(signals, row, confirmed, dispositions);
            SetSignal(next, other, otherwise, dispositions) == next
  {
  }

  lemma ScoringSpares(b: BridgeBook, id: nat, other: nat, facts: CustodyFacts, dispositions: set<nat>)
    requires id != other && Settled(b, other, facts, dispositions)
    requires forall x, y :: x in b.rows && y in b.rows && x.id == id && y.id == other ==> Apart(x, y)
    ensures Settled(ScoreStep(b, id, facts, dispositions), other, facts, dispositions)
  {
    var next := ScoreStep(b, id, facts, dispositions);
    match FindRow(b.rows, id) {
      case None =>
      case Some(row) =>
        if Scorable(row, b.signals) {
          var scored := Scored(row, CustodyOf(facts, row.outflow.value, row.inflow.value));
          PutFound(b.rows, scored, other);
          assert FindRow(next.rows, other) == FindRow(b.rows, other);
          SetSignalKeys(b.signals, scored, scored.status == Confirmed, dispositions);
          if FindRow(b.rows, other).Some? && Scorable(FindRow(b.rows, other).value, b.signals) {
            var kept := FindRow(b.rows, other).value;
            assert Apart(row, kept) && Apart(scored, kept);
            SetSignalApart(b.signals, scored, kept, scored.status == Confirmed, dispositions,
                           kept.status == Confirmed);
          }
        }
    }
  }

  // ---- The whole pass ----

  /** What scoring keeps of the written rows: they stay live and apart, and everything is found again. */
  lemma ScoreStepKeepsWell(b: BridgeBook, written: seq<nat>, id: nat, facts: CustodyFacts, dispositions: set<nat>)
    requires Tidy(b.rows, b.nextId) && LiveRows(b.rows, written) && PairsApart(b.rows, written) && id in written
    ensures var next := ScoreStep(b, id, facts, dispositions);
            && LiveRows(next.rows, written) && PairsApart(next.rows, written)
            && FindsPairs(b.rows, next.rows) && FindsSingles(b.rows, next.rows)
  {
    match FindRow(b.rows, id) {
      case None =>
      case Some(row) =>
        if Scorable(row, b.signals) {
          var scored := Scored(row, CustodyOf(facts, row.outflow.value, row.inflow.value));
          PutMembers(b.rows, scored);
          ScoredApart(b.rows, written, row, scored);
          ScoredFound(b.rows, b.nextId, row, scored);
        }
    }
  }

  lemma ScoredApart(rows: seq<Row>, written: seq<nat>, row: Row, scored: Row)
    requires PairsApart(rows, written) && row in rows && row.id == scored.id
    requires scored.outflow == row.outflow && scored.inflow == row.inflow
    ensures PairsApart(Put(rows, scored), written)
  {
    PutMembers(rows, scored);
    forall a, b | a in Put(rows, scored) && b in Put(rows, scored) && a.id in written && b.id in written && a.id != b.id
      ensures Apart(a, b)
    {
      assert Apart(if a == scored then row else a, if b == scored then row else b);
    }
  }

  lemma ScoredFound(rows: seq<Row>, nextId: nat, row: Row, scored: Row)
    requires Tidy(rows, nextId) && row in rows && row.id == scored.id && IsPair(row)
    requires scored.outflow == row.outflow && scored.inflow == row.inflow
    requires row.status != Rejected && scored.status != Rejected
    ensures FindsPairs(rows, Put(rows, scored)) && FindsSingles(rows, Put(rows, scored))
  {
    forall r | r in rows && r.id == scored.id ensures r == row {
      SameRow(rows, nextId, r, row);
    }
    forall out, inf ensures PairId(Put(rows, scored), out, inf) == PairId(rows, out, inf) {
      PairIdPut(rows, scored, out, inf);
    }
    forall id, side ensures SingleId(Put(rows, scored), id, side) == SingleId(rows, id, side) {
      SingleIdPut(rows, scored, id, side);
    }
  }

  /** Scoring settles every written row, one after the other, and leaves the settled ones alone. */
  lemma {:induction false} ScoreAllSettles(b: BridgeBook, written: seq<nat>, done: set<nat>, todo: seq<nat>,
                                           facts: CustodyFacts, dispositions: set<nat>)
    requires Tidy(b.rows, b.nextId) && Clean(b.rows, written)
    requires LiveRows(b.rows, written) && PairsApart(b.rows, written)
    requires (forall id :: id in todo ==> id in written) && (forall id :: id in done ==> id in written)
    requires forall id :: id in done ==> Settled(b, id, facts, dispositions)
    ensures var final := ScoreAll(b, todo, facts, dispositions);
            && (forall id :: id in done || id in todo ==> Settled(final, id, facts, dispositions))
            && FindsPairs(b.rows, final.rows) && FindsSingles(b.rows, final.rows)
    decreases todo
  {
    if todo != [] {
      var next := ScoreStep(b, todo[0], facts, dispositions);
      ScoreStepOk(b, written, todo[0], facts, dispositions);
      ScoreStepKeepsWell(b, written, todo[0], facts, dispositions);
      ScoringSettles(b, todo[0], facts, dispositions);
      forall id | id in done && id != todo[0] ensures Settled(next, id, facts, dispositions) {
        ScoringSpares(b, todo[0], id, facts, dispositions);
      }
      ScoreAllSettles(next, written, done + {todo[0]}, todo[1..], facts, dispositions);
    }
  }

  /** A bridge pass is idempotent: from any table and signals, repeating it over the same legs, with the same
      custody facts and treatments, changes no row and no signal. */
  lemma BridgePassIsIdempotent(b: BridgeBook, legs: seq<Leg>, facts: CustodyFacts, dispositions: set<nat>)
    requires Tidy(b.rows, b.nextId)
    ensures var once := BridgePass(b, legs, facts, dispositions); BridgePass(once, legs, facts, dispositions) == once
  {
    var st := PairPass(b.rows, b.nextId, legs);
    var mid := BridgeBook(st.rows, st.nextId, b.signals);
    var once := BridgePass(b, legs, facts, dispositions);
    PairPassWell(b.rows, b.nextId, legs);
    ScoreAllOk(mid, st.written, st.written, facts, dispositions);
    ScoreAllSettles(mid, st.written, {}, st.written, facts, dispositions);
    PairPassAgain(b.rows, b.nextId, legs, once.rows, once.nextId);
    SettledAll(once, st.written, facts, dispositions);
  }
}
