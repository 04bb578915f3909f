/** Matching bridge outflows with inflows: global greedy over all eligible pairs. */
module Pairing {
  import opened Decimals
  import opened Sequences

  datatype Direction = Outflow | Inflow

  /** A candidate leg; `at` is a timestamp in microseconds. */
  datatype Leg = Leg(id: nat, direction: Direction, chain: nat, asset: nat, amount: int, at: int)

  datatype Status = Confirmed | NeedsConfirmation | Rejected | Unmatched

  datatype Level = High | Medium | Low

  datatype Custody = Recognized | Inferred | Unknown

  datatype Resolver = Auto | User

  /** A row of bridge_correlations. */
  datatype Row = Row(id: nat, asset: nat, outflow: Option<nat>, inflow: Option<nat>, status: Status,
                     seconds: Option<int>, bps: Option<int>, level: Option<Level>, custody: Option<Custody>,
                     resolvedBy: Option<Resolver>)

  datatype Hypothesis = Hypothesis(outflow: Leg, inflow: Leg, seconds: int, bps: int)

  const WINDOW_SECONDS := 14400
  const TOLERANCE_BPS := 500

  /** Signed difference of the amounts in hundredths of a percent of the outflow, rounded half even. */
  function DeltaBps(out: Leg, inf: Leg): int {
    if out.amount == 0 then 0
    else if out.amount > 0 then HalfEven((inf.amount - out.amount) * 10000, out.amount)
    else HalfEven((out.amount - inf.amount) * 10000, -out.amount)
  }

  function DeltaSeconds(out: Leg, inf: Leg): int {
    Truncate(inf.at - out.at, 1000000)
  }

  predicate Eligible(out: Leg, inf: Leg) {
    && out.direction == Outflow && inf.direction == Inflow
    && out.chain != inf.chain
    && out.asset == inf.asset
    && Abs(DeltaSeconds(out, inf)) <= WINDOW_SECONDS
    && Abs(DeltaBps(out, inf)) <= TOLERANCE_BPS
  }

  // ---- What may be paired, in plain numbers ----

  /** Opposite sides of one asset on two chains, at most four hours and an unfinished second apart, and at most
      500.5 hundredths of a percent of what went out apart, whatever its sign; a tie rounds to the even 500.
      Against an outflow of nothing any amount passes. */
  predicate Matchable(out: Leg, inf: Leg) {
    && out.direction == Outflow && inf.direction == Inflow && out.chain != inf.chain && out.asset == inf.asset
    && Abs(inf.at - out.at) < 14401 * 1000000
    && (out.amount != 0 ==> 20000 * Abs(inf.amount - out.amount) <= 1001 * Abs(out.amount))
  }

  /** The seconds between the two, cut off, and the difference in hundredths of a percent, to the nearest and even
      on a tie; none against an outflow of nothing. */
  predicate Measures(out: Leg, inf: Leg, seconds: int, bps: int) {
    && 1000000 * Abs(seconds) <= Abs(inf.at - out.at) < 1000000 * (Abs(seconds) + 1)
    && (seconds != 0 ==> (seconds > 0 <==> inf.at > out.at))
    && (out.amount == 0 ==> bps == 0)
    && (out.amount != 0 ==>
          var off := Abs(2 * (10000 * (inf.amount - out.amount) - bps * out.amount));
          off <= Abs(out.amount) && (off == Abs(out.amount) ==> bps % 2 == 0))
  }

  lemma WithinUnits(x: int, den: int, limit: int)
    requires den > 0 && limit >= 0
    ensures Abs(Truncate(x, den)) <= limit <==> Abs(x) < (limit + 1) * den
  {
    TruncateTowardsZero(x, den);
    var t := Abs(Truncate(x, den));
    assert t * den <= Abs(x) < t * den + den by {
      if x < 0 { NegatedProduct(t, den); }
    }
    if t <= limit {
      ProductAtLeast(limit, den, t);
    } else {
      ProductAtLeast(t, den, limit + 1);
    }
  }

  lemma NearestUpTo(num: int, den: int, q: int, limit: int)
    requires den > 0 && limit % 2 == 0
    requires -den <= 2 * (num - q * den) <= den && (Abs(2 * (num - q * den)) == den ==> q % 2 == 0)
    ensures q <= limit <==> 2 * num <= (2 * limit + 1) * den
  {
    var over, rest := (q - limit) * den, num - q * den;
    assert q * den == limit * den + over;
    assert (2 * limit + 1) * den == 2 * (limit * den) + den;
    if q <= limit {
      ProductAtLeast(limit - q, den, 0);
      NegatedProduct(limit - q, den);
    } else if q == limit + 1 {
      assert over == den;
    } else {
      ProductAtLeast(q - limit, den, 2);
    }
  }

  /** A half-even quotient is within an even limit exactly when the number is within half a unit beyond it. */
  lemma WithinTolerance(num: int, den: int, limit: int)
    requires den > 0 && limit % 2 == 0
    ensures Abs(HalfEven(num, den)) <= limit <==> 2 * Abs(num) <= (2 * limit + 1) * den
  {
    HalfEvenNearest(num, den);
    var q := HalfEven(num, den);
    NegatedProduct(q, den);
    NearestUpTo(num, den, q, limit);
    NearestUpTo(-num, den, -q, limit);
  }

  lemma NearestIff(num: int, den: int, q: int)
    requires den > 0
    ensures (var off := Abs(2 * (num - q * den)); off <= den && (off == den ==> q % 2 == 0))
            <==> q == HalfEven(num, den)
  {
    HalfEvenNearest(num, den);
    if var off := Abs(2 * (num - q * den)); off <= den && (off == den ==> q % 2 == 0) {
      HalfEvenUnique(num, den, q);
    }
  }

  lemma AmountWithin(out: Leg, inf: Leg, limit: nat)
    requires limit % 2 == 0
    ensures Abs(DeltaBps(out, inf)) <= limit
            <==> (out.amount != 0 ==> 20000 * Abs(inf.amount - out.amount) <= (2 * limit + 1) * Abs(out.amount))
  {
    var diff := inf.amount - out.amount;
    if out.amount > 0 {
      WithinTolerance(diff * 10000, out.amount, limit);
    } else if out.amount < 0 {
      WithinTolerance(-diff * 10000, -out.amount, limit);
    }
  }

  /** Eligible is exactly that. */
  lemma EligibleIff(out: Leg, inf: Leg)
    ensures Eligible(out, inf) <==> Matchable(out, inf)
  {
    AmountWithin(out, inf, TOLERANCE_BPS);
    WithinUnits(inf.at - out.at, 1000000, WINDOW_SECONDS);
  }

  lemma MeasuredSeconds(out: Leg, inf: Leg)
    ensures var seconds := DeltaSeconds(out, inf);
            && 1000000 * Abs(seconds) <= Abs(inf.at - out.at) < 1000000 * (Abs(seconds) + 1)
            && (seconds != 0 ==> (seconds > 0 <==> inf.at > out.at))
  {
    TruncateTowardsZero(inf.at - out.at, 1000000);
  }

  /** The deltas measure the legs, and nothing else does. */
  lemma DeltasMeasure(out: Leg, inf: Leg, seconds: int, bps: int)
    ensures Measures(out, inf, seconds, bps) <==> seconds == DeltaSeconds(out, inf) && bps == DeltaBps(out, inf)
  {
    MeasuredSeconds(out, inf);
    MeasuredAmount(out.amount, inf.amount - out.amount, bps);
    if Measures(out, inf, seconds, bps) {
      SameSeconds(inf.at - out.at, seconds, DeltaSeconds(out, inf));
    }
  }

  lemma MeasuredAmount(amount: int, diff: int, bps: int)
    ensures amount > 0 ==>
              (bps == HalfEven(diff * 10000, amount)
               <==> var off := Abs(2 * (10000 * diff - bps * amount));
                    off <= Abs(amount) && (off == Abs(amount) ==> bps % 2 == 0))
    ensures amount < 0 ==>
              (bps == HalfEven(-diff * 10000, -amount)
               <==> var off := Abs(2 * (10000 * diff - bps * amount));
                    off <= Abs(amount) && (off == Abs(amount) ==> bps % 2 == 0))
  {
    if amount > 0 {
      NearestIff(diff * 10000, amount, bps);
    } else if amount < 0 {
      NearestIff(-diff * 10000, -amount, bps);
      assert bps * -amount == -(bps * amount);
    }
  }

  lemma SameSeconds(at: int, x: int, y: int)
    requires 1000000 * Abs(x) <= Abs(at) < 1000000 * (Abs(x) + 1)
    requires 1000000 * Abs(y) <= Abs(at) < 1000000 * (Abs(y) + 1)
    requires x != 0 ==> (x > 0 <==> at > 0)
    requires y != 0 ==> (y > 0 <==> at > 0)
    ensures x == y
  {
  }

  function Hypothesise(out: Leg, inf: Leg): Hypothesis {
    Hypothesis(out, inf, DeltaSeconds(out, inf), DeltaBps(out, inf))
  }

  function PairsWith(out: Leg, inflows: seq<Leg>): seq<Hypothesis> {
    if inflows == [] then []
    else (if Eligible(out, inflows[0]) then [Hypothesise(out, inflows[0])] else []) + PairsWith(out, inflows[1..])
  }

  function AllPairs(outflows: seq<Leg>, inflows: seq<Leg>): seq<Hypothesis> {
    if outflows == [] then [] else PairsWith(outflows[0], inflows) + AllPairs(outflows[1..], inflows)
  }

  /** Better: closer in amount, then closer in time. */
  predicate NoWorse(a: Hypothesis, b: Hypothesis) {
    Abs(a.bps) < Abs(b.bps) || (Abs(a.bps) == Abs(b.bps) && Abs(a.seconds) <= Abs(b.seconds))
  }

  function Rank(): (Hypothesis, Hypothesis) -> bool {
    (a, b) => NoWorse(a, b)
  }

  lemma RankTotal()
    ensures TotalPreorder(Rank())
  {
  }

  function Facing(direction: Direction): Leg -> bool {
    (leg: Leg) => leg.direction == direction
  }

  function Hypotheses(legs: seq<Leg>): seq<Hypothesis> {
    Sort(AllPairs(Filter(legs, Facing(Outflow)), Filter(legs, Facing(Inflow))), Rank())
  }

  /** An eligible pair of these legs, with its deltas. */
  predicate Proper(outflows: seq<Leg>, inflows: seq<Leg>, h: Hypothesis) {
    && h.outflow in outflows && h.inflow in inflows && Eligible(h.outflow, h.inflow)
    && h == Hypothesise(h.outflow, h.inflow)
  }

  lemma {:induction false} PairsWithMembers(out: Leg, inflows: seq<Leg>)
    ensures forall h :: h in PairsWith(out, inflows) <==> Proper([out], inflows, h)
  {
    if inflows != [] {
      PairsWithMembers(out, inflows[1..]);
    }
  }

  lemma {:induction false} AllPairsMembers(outflows: seq<Leg>, inflows: seq<Leg>)
    ensures forall h :: h in AllPairs(outflows, inflows) <==> Proper(outflows, inflows, h)
  {
    if outflows != [] {
      PairsWithMembers(outflows[0], inflows);
      AllPairsMembers(outflows[1..], inflows);
    }
  }

  /** The hypotheses are the eligible pairs of legs, each with its deltas, best first. */
  lemma HypothesesMembers(legs: seq<Leg>)
    ensures Sorted(Hypotheses(legs), Rank())
    ensures forall h :: h in Hypotheses(legs) <==> Proper(legs, legs, h)
  {
    var pairs := AllPairs(Filter(legs, Facing(Outflow)), Filter(legs, Facing(Inflow)));
    AllPairsMembers(Filter(legs, Facing(Outflow)), Filter(legs, Facing(Inflow)));
    RankTotal();
    SortSorted(pairs, Rank());
    SortMembers(pairs, Rank());
  }

  // ---- Queries on the table ----

  predicate Holds(row: Row, id: nat, direction: Direction) {
    match direction
    case Outflow => row.outflow == Some(id)
    case Inflow => row.inflow == Some(id)
  }

  predicate UserResolved(rows: seq<Row>, id: nat, direction: Direction) {
    exists i :: 0 <= i < |rows| && Holds(rows[i], id, direction) && rows[i].resolvedBy == Some(User)
  }

  predicate IsSingleton(row: Row, id: nat, direction: Direction) {
    && Holds(row, id, direction)
    && (match direction case Outflow => row.inflow.None? case Inflow => row.outflow.None?)
    && row.status == Unmatched && row.resolvedBy.None?
  }

  function FindSingleton(rows: seq<Row>, id: nat, direction: Direction): (r: Option<Row>)
    ensures r.Some? ==> r.value in rows && IsSingleton(r.value, id, direction)
    ensures r.None? ==> forall row :: row in rows ==> !IsSingleton(row, id, direction)
  {
    if rows == [] then None
    else if IsSingleton(rows[0], id, direction) then Some(rows[0])
    else FindSingleton(rows[1..], id, direction)
  }

  predicate IsLivePair(row: Row, out: nat, inf: nat) {
    row.outflow == Some(out) && row.inflow == Some(inf) && row.status != Rejected
  }

  function FindPair(rows: seq<Row>, out: nat, inf: nat): (r: Option<Row>)
    ensures r.Some? ==> r.value in rows && IsLivePair(r.value, out, inf)
    ensures r.None? ==> forall row :: row in rows ==> !IsLivePair(row, out, inf)
  {
    if rows == [] then None
    else if IsLivePair(rows[0], out, inf) then Some(rows[0])
    else FindPair(rows[1..], out, inf)
  }

  // ---- Updates ----

  function Put(rows: seq<Row>, row: Row): (r: seq<Row>)
    ensures |r| == |rows|
    ensures forall i :: 0 <= i < |rows| ==> r[i] == if rows[i].id == row.id then row else rows[i]
  {
    if rows == [] then [] else [if rows[0].id == row.id then row else rows[0]] + Put(rows[1..], row)
  }

  function NotId(id: nat): Row -> bool {
    (row: Row) => row.id != id
  }

  function Delete(rows: seq<Row>, id: nat): seq<Row> {
    Filter(rows, NotId(id))
  }

  /** What a pass carries along: the table, the next row id, the legs assigned and the rows written. */
  datatype PassState = PassState(rows: seq<Row>, nextId: nat, used: set<nat>, written: seq<nat>)

  function NewPair(id: nat, h: Hypothesis): Row {
    Row(id, h.outflow.asset, Some(h.outflow.id), Some(h.inflow.id), NeedsConfirmation, Some(h.seconds), Some(h.bps),
        None, None, None)
  }

  function NewSingleton(id: nat, leg: Leg): Row {
    Row(id, leg.asset,
        if leg.direction == Outflow then Some(leg.id) else None,
        if leg.direction == Inflow then Some(leg.id) else None,
        Unmatched, None, None, None, None, None)
  }

  function Assign(st: PassState, h: Hypothesis, rows: seq<Row>, nextId: nat, id: nat): PassState {
    PassState(rows, nextId, st.used + {h.outflow.id, h.inflow.id}, st.written + [id])
  }

  /** Completes a singleton when its partner arrives, or adds a row for the pair. */
  function WritePair(st: PassState, h: Hypothesis): PassState {
    var o, i := h.outflow.id, h.inflow.id;
    match (FindSingleton(st.rows, o, Outflow), FindSingleton(st.rows, i, Inflow))
    case (Some(s), Some(t)) =>
      var row := s.(inflow := Some(i), seconds := Some(h.seconds), bps := Some(h.bps));
      Assign(st, h, Delete(Put(st.rows, row), t.id), st.nextId, s.id)
    case (Some(s), None) =>
      var row := s.(inflow := Some(i), seconds := Some(h.seconds), bps := Some(h.bps));
      Assign(st, h, Put(st.rows, row), st.nextId, s.id)
    case (None, Some(t)) =>
      var row := t.(outflow := Some(o), seconds := Some(h.seconds), bps := Some(h.bps));
      Assign(st, h, Put(st.rows, row), st.nextId, t.id)
    case (None, None) =>
      Assign(st, h, st.rows + [NewPair(st.nextId, h)], st.nextId + 1, st.nextId)
  }

  function PairStep(st: PassState, h: Hypothesis): PassState {
    var o, i := h.outflow.id, h.inflow.id;
    if o in st.used || i in st.used then st
    else if UserResolved(st.rows, o, Outflow) then st.(used := st.used + {o})
    else if UserResolved(st.rows, i, Inflow) then st.(used := st.used + {i})
    else match FindPair(st.rows, o, i)
      case Some(row) => Assign(st, h, st.rows, st.nextId, row.id)
      case None => WritePair(st, h)
  }

  function PairAll(st: PassState, hyps: seq<Hypothesis>): PassState
    decreases hyps
  {
    if hyps == [] then st else PairAll(PairStep(st, hyps[0]), hyps[1..])
  }

  function SingletonStep(st: PassState, leg: Leg): PassState {
    if leg.id in st.used || UserResolved(st.rows, leg.id, leg.direction) then st
    else match FindSingleton(st.rows, leg.id, leg.direction)
      case Some(row) => st.(written := st.written + [row.id])
      case None => PassState(st.rows + [NewSingleton(st.nextId, leg)], st.nextId + 1, st.used, st.written + [st.nextId])
  }

  function SingleAll(st: PassState, legs: seq<Leg>): PassState
    decreases legs
  {
    if legs == [] then st else SingleAll(SingletonStep(st, legs[0]), legs[1..])
  }

  /** One pairing pass over the table. */
  function PairPass(rows: seq<Row>, nextId: nat, legs: seq<Leg>): PassState {
    SingleAll(PairAll(PassState(rows, nextId, {}, []), Hypotheses(legs)), legs)
  }

  // ---- A pass over an empty table ----

  ghost predicate DistinctLegs(legs: seq<Leg>) {
    forall i, j :: 0 <= i < j < |legs| ==> legs[i].id != legs[j].id
  }

  lemma SameIdSameLeg(legs: seq<Leg>, a: Leg, b: Leg)
    requires DistinctLegs(legs) && a in legs && b in legs && a.id == b.id
    ensures a == b
  {
    var i :| 0 <= i < |legs| && legs[i] == a;
    var j :| 0 <= j < |legs| && legs[j] == b;
    assert i == j;
  }

  predicate Mentions(row: Row, id: nat) {
    row.outflow == Some(id) || row.inflow == Some(id)
  }

  predicate HasLeg(h: Hypothesis, id: nat) {
    h.outflow.id == id || h.inflow.id == id
  }

  predicate InUse(hyps: seq<Hypothesis>, id: nat) {
    exists r :: 0 <= r < |hyps| && HasLeg(hyps[r], id)
  }

  predicate Shares(a: Hypothesis, b: Hypothesis) {
    HasLeg(b, a.outflow.id) || HasLeg(b, a.inflow.id)
  }

  /** No leg in two pairs. */
  ghost predicate Matching(hyps: seq<Hypothesis>) {
    forall r, s :: 0 <= r < s < |hyps| ==> !Shares(hyps[r], hyps[s])
  }

  /** The table as rows for the chosen pairs, in the order chosen. */
  ghost predicate RowsFor(rows: seq<Row>, chosen: seq<Hypothesis>) {
    |rows| == |chosen| && forall r :: 0 <= r < |chosen| ==> rows[r] == NewPair(r, chosen[r])
  }

  ghost predicate Chosen(st: PassState, chosen: seq<Hypothesis>) {
    && RowsFor(st.rows, chosen) && st.nextId == |chosen|
    && (forall id :: id in st.used <==> InUse(chosen, id))
    && Matching(chosen)
  }

  lemma InUseSnoc(hyps: seq<Hypothesis>, h: Hypothesis, id: nat)
    ensures InUse(hyps + [h], id) <==> InUse(hyps, id) || HasLeg(h, id)
  {
    if InUse(hyps, id) {
      var r :| 0 <= r < |hyps| && HasLeg(hyps[r], id);
      assert HasLeg((hyps + [h])[r], id);
    }
    if HasLeg(h, id) {
      assert HasLeg((hyps + [h])[|hyps|], id);
    }
  }

  /** Both legs are free. */
  predicate Free(st: PassState, h: Hypothesis) {
    h.outflow.id !in st.used && h.inflow.id !in st.used
  }

  lemma RowsHoldChosen(st: PassState, chosen: seq<Hypothesis>, h: Hypothesis, row: Row)
    requires Chosen(st, chosen) && Free(st, h) && row in st.rows
    ensures row.outflow.Some? && row.inflow.Some? && row.outflow != Some(h.outflow.id)
            && row.inflow != Some(h.inflow.id)
  {
    var r :| 0 <= r < |st.rows| && st.rows[r] == row;
    assert HasLeg(chosen[r], chosen[r].outflow.id) && HasLeg(chosen[r], chosen[r].inflow.id);
  }

  lemma NothingStored(st: PassState, chosen: seq<Hypothesis>, h: Hypothesis)
    requires Chosen(st, chosen) && Free(st, h)
    ensures PairStep(st, h) == Assign(st, h, st.rows + [NewPair(st.nextId, h)], st.nextId + 1, st.nextId)
  {
    forall row | row in st.rows
      ensures row.outflow.Some? && row.inflow.Some? && row.outflow != Some(h.outflow.id)
              && row.inflow != Some(h.inflow.id)
    {
      RowsHoldChosen(st, chosen, h, row);
    }
    assert !UserResolved(st.rows, h.outflow.id, Outflow) && !UserResolved(st.rows, h.inflow.id, Inflow);
  }

  lemma MatchingSnoc(st: PassState, chosen: seq<Hypothesis>, h: Hypothesis)
    requires Chosen(st, chosen) && Free(st, h)
    ensures Matching(chosen + [h])
  {
    forall r | 0 <= r < |chosen| ensures !Shares(chosen[r], h) {
      assert HasLeg(chosen[r], chosen[r].outflow.id) && HasLeg(chosen[r], chosen[r].inflow.id);
      assert InUse(chosen, chosen[r].outflow.id) && InUse(chosen, chosen[r].inflow.id);
    }
  }

  lemma ChooseStep(st: PassState, chosen: seq<Hypothesis>, h: Hypothesis)
    requires Chosen(st, chosen)
    ensures Free(st, h) ==> Chosen(PairStep(st, h), chosen + [h])
    ensures !Free(st, h) ==> PairStep(st, h) == st
  {
    if Free(st, h) {
      NothingStored(st, chosen, h);
      MatchingSnoc(st, chosen, h);
      forall id ensures id in PairStep(st, h).used <==> InUse(chosen + [h], id) {
        InUseSnoc(chosen, h, id);
      }
    }
  }

  /** A chosen pair shares a leg with the hypothesis and is no worse. */
  ghost predicate Beaten(chosen: seq<Hypothesis>, h: Hypothesis) {
    exists r :: 0 <= r < |chosen| && Shares(chosen[r], h) && NoWorse(chosen[r], h)
  }

  lemma BeatenByMore(chosen: seq<Hypothesis>, more: Hypothesis, h: Hypothesis)
    requires Beaten(chosen, h)
    ensures Beaten(chosen + [more], h)
  {
    var r :| 0 <= r < |chosen| && Shares(chosen[r], h) && NoWorse(chosen[r], h);
    assert (chosen + [more])[r] == chosen[r];
  }

  lemma BeatenByItself(chosen: seq<Hypothesis>, h: Hypothesis)
    ensures Beaten(chosen + [h], h)
  {
    assert (chosen + [h])[|chosen|] == h;
  }

  lemma BeatenBySeen(st: PassState, chosen: seq<Hypothesis>, ranked: seq<Hypothesis>, at: nat)
    requires Sorted(ranked, Rank()) && at < |ranked|
    requires Chosen(st, chosen) && !Free(st, ranked[at])
    requires forall c :: c in chosen ==> c in ranked[..at]
    ensures Beaten(chosen, ranked[at])
  {
    var id := if ranked[at].outflow.id in st.used then ranked[at].outflow.id else ranked[at].inflow.id;
    assert InUse(chosen, id);
    var r :| 0 <= r < |chosen| && HasLeg(chosen[r], id);
    assert chosen[r] in ranked[..at];
    var k :| 0 <= k < at && ranked[k] == chosen[r];
    assert Rank()(ranked[k], ranked[at]);
  }

  /** The greedy loop from any point on: what is chosen comes from the ranked list, forms a matching, and
      beats everything seen. */
  lemma {:induction false} GreedyFrom(ranked: seq<Hypothesis>, at: nat, st: PassState, chosen: seq<Hypothesis>)
    returns (final: seq<Hypothesis>)
    requires Sorted(ranked, Rank()) && at <= |ranked| && Chosen(st, chosen)
    requires forall c :: c in chosen ==> c in ranked[..at]
    requires forall i :: 0 <= i < at ==> Beaten(chosen, ranked[i])
    ensures Chosen(PairAll(st, ranked[at..]), final)
    ensures forall c :: c in final ==> c in ranked
    ensures forall i :: 0 <= i < |ranked| ==> Beaten(final, ranked[i])
    decreases |ranked| - at
  {
    if at == |ranked| {
      final := chosen;
      assert ranked[..at] == ranked;
    } else {
      var h := ranked[at];
      assert ranked[at..][1..] == ranked[at + 1..];
      assert ranked[..at + 1] == ranked[..at] + [h];
      ChooseStep(st, chosen, h);
      if Free(st, h) {
        forall i | 0 <= i < at + 1 ensures Beaten(chosen + [h], ranked[i]) {
          if i < at {
            BeatenByMore(chosen, h, ranked[i]);
          } else {
            BeatenByItself(chosen, h);
          }
        }
        final := GreedyFrom(ranked, at + 1, PairStep(st, h), chosen + [h]);
      } else {
        BeatenBySeen(st, chosen, ranked, at);
        final := GreedyFrom(ranked, at + 1, st, chosen);
      }
    }
  }

  const FRESH := PassState([], 0, {}, [])

  /** The pairs a pass over an empty table chooses. */
  lemma GreedyOutcome(legs: seq<Leg>) returns (chosen: seq<Hypothesis>)
    ensures Chosen(PairAll(FRESH, Hypotheses(legs)), chosen)
    ensures forall c :: c in chosen ==> c in Hypotheses(legs)
    ensures forall h :: h in Hypotheses(legs) ==> Beaten(chosen, h)
  {
    HypothesesMembers(legs);
    assert Hypotheses(legs)[0..] == Hypotheses(legs);
    chosen := GreedyFrom(Hypotheses(legs), 0, FRESH, []);
  }

  // ---- Leftover legs ----

  function NotIn(used: set<nat>): Leg -> bool {
    (leg: Leg) => leg.id !in used
  }

  /** Rows for the leftover legs follow the rows for the pairs. */
  ghost predicate RowsForAll(rows: seq<Row>, chosen: seq<Hypothesis>, singles: seq<Leg>) {
    && |rows| == |chosen| + |singles|
    && (forall r :: 0 <= r < |chosen| ==> rows[r] == NewPair(r, chosen[r]))
    && (forall k :: 0 <= k < |singles| ==> rows[|chosen| + k] == NewSingleton(|chosen| + k, singles[k]))
  }

  lemma SingletonAdded(st: PassState, chosen: seq<Hypothesis>, singles: seq<Leg>, leg: Leg)
    requires RowsForAll(st.rows, chosen, singles) && st.nextId == |st.rows|
    requires leg.id !in st.used
    requires forall id :: id in st.used <==> InUse(chosen, id)
    requires forall other :: other in singles ==> other.id != leg.id
    ensures SingletonStep(st, leg)
            == PassState(st.rows + [NewSingleton(st.nextId, leg)], st.nextId + 1, st.used, st.written + [st.nextId])
    ensures RowsForAll(st.rows + [NewSingleton(st.nextId, leg)], chosen, singles + [leg])
  {
    forall i | 0 <= i < |st.rows| ensures !Mentions(st.rows[i], leg.id) && st.rows[i].resolvedBy.None? {
      if i < |chosen| {
        assert HasLeg(chosen[i], chosen[i].outflow.id) && HasLeg(chosen[i], chosen[i].inflow.id);
      } else {
        assert singles[i - |chosen|] in singles;
      }
    }
  }

  lemma FilterNextLeg(legs: seq<Leg>, at: nat, used: set<nat>)
    requires at < |legs|
    ensures Filter(legs[..at + 1], NotIn(used))
         == Filter(legs[..at], NotIn(used)) + if legs[at].id in used then [] else [legs[at]]
  {
    assert legs[..at + 1] == legs[..at] + [legs[at]];
    FilterAppend(legs[..at], [legs[at]], NotIn(used));
    assert [legs[at]][1..] == [];
  }

  lemma {:induction false} SinglesFrom(legs: seq<Leg>, at: nat, st: PassState, chosen: seq<Hypothesis>,
                                       singles: seq<Leg>)
    requires DistinctLegs(legs) && at <= |legs|
    requires RowsForAll(st.rows, chosen, singles) && st.nextId == |st.rows|
    requires forall id :: id in st.used <==> InUse(chosen, id)
    requires singles == Filter(legs[..at], NotIn(st.used))
    ensures var final := SingleAll(st, legs[at..]);
            RowsForAll(final.rows, chosen, Filter(legs, NotIn(st.used)))
    decreases |legs| - at
  {
    if at == |legs| {
      assert legs[..at] == legs;
    } else {
      var leg := legs[at];
      assert legs[at..][1..] == legs[at + 1..];
      FilterNextLeg(legs, at, st.used);
      if leg.id in st.used {
        SinglesFrom(legs, at + 1, st, chosen, singles);
      } else {
        forall other | other in singles ensures other.id != leg.id {
          assert other in legs[..at];
        }
        SingletonAdded(st, chosen, singles, leg);
        SinglesFrom(legs, at + 1, SingletonStep(st, leg), chosen, singles + [leg]);
      }
    }
  }

  /** A pass over an empty table writes one row for each pair of a matching of eligible legs that beats
      every hypothesis, and one for each leg the matching leaves over. */
  lemma FreshPass(legs: seq<Leg>) returns (chosen: seq<Hypothesis>, singles: seq<Leg>)
    requires DistinctLegs(legs)
    ensures RowsForAll(PairPass([], 0, legs).rows, chosen, singles)
    ensures Matching(chosen) && forall c :: c in chosen ==> c in Hypotheses(legs)
    ensures forall h :: h in Hypotheses(legs) ==> Beaten(chosen, h)
    ensures forall leg :: leg in singles <==> leg in legs && !InUse(chosen, leg.id)
    ensures forall i, j :: 0 <= i < j < |singles| ==> singles[i].id != singles[j].id
  {
    chosen := GreedyOutcome(legs);
    var st := PairAll(FRESH, Hypotheses(legs));
    singles := Filter(legs, NotIn(st.used));
    assert legs[0..] == legs && Filter(legs[..0], NotIn(st.used)) == [];
    SinglesFrom(legs, 0, st, chosen, []);
    FilterDistinct(legs, NotIn(st.used), (leg: Leg) => leg.id);
  }

  /** The row is the one row of the table that mentions the leg. */
  ghost predicate OnlyRow(rows: seq<Row>, r: nat, id: nat) {
    && r < |rows| && Mentions(rows[r], id)
    && forall s :: 0 <= s < |rows| && s != r ==> !Mentions(rows[s], id)
  }

  lemma PairedLegOnce(legs: seq<Leg>, leg: Leg, rows: seq<Row>, chosen: seq<Hypothesis>, singles: seq<Leg>, r: nat)
    requires DistinctLegs(legs) && leg in legs && RowsForAll(rows, chosen, singles) && Matching(chosen)
    requires r < |chosen| && HasLeg(chosen[r], leg.id)
    requires forall other :: other in singles ==> other in legs && !InUse(chosen, other.id)
    ensures OnlyRow(rows, r, leg.id)
  {
    forall s | 0 <= s < |rows| && s != r ensures !Mentions(rows[s], leg.id) {
      if s < |chosen| {
        assert !Shares(chosen[if r < s then r else s], chosen[if r < s then s else r]);
      } else {
        var single := singles[s - |chosen|];
        assert single in singles;
        SameIdOrNot(legs, single, leg);
      }
    }
  }

  lemma SingleLegOnce(leg: Leg, rows: seq<Row>, chosen: seq<Hypothesis>, singles: seq<Leg>, k: nat)
    requires RowsForAll(rows, chosen, singles) && !InUse(chosen, leg.id)
    requires k < |singles| && singles[k] == leg
    requires forall i, j :: 0 <= i < j < |singles| ==> singles[i].id != singles[j].id
    ensures OnlyRow(rows, |chosen| + k, leg.id)
  {
    forall s | 0 <= s < |rows| && s != |chosen| + k ensures !Mentions(rows[s], leg.id) {
      if s < |chosen| {
        assert !HasLeg(chosen[s], leg.id);
      } else if s - |chosen| < k {
        assert singles[s - |chosen|].id != singles[k].id;
      } else {
        assert singles[k].id != singles[s - |chosen|].id;
      }
    }
  }

  /** Every leg ends up in exactly one row. */
  lemma PassPartitionsLegs(legs: seq<Leg>, leg: Leg)
    requires DistinctLegs(legs) && leg in legs
    ensures exists r :: OnlyRow(PairPass([], 0, legs).rows, r, leg.id)
  {
    var chosen, singles := FreshPass(legs);
    var rows := PairPass([], 0, legs).rows;
    if InUse(chosen, leg.id) {
      var r :| 0 <= r < |chosen| && HasLeg(chosen[r], leg.id);
      PairedLegOnce(legs, leg, rows, chosen, singles, r);
    } else {
      assert leg in singles;
      var k :| 0 <= k < |singles| && singles[k] == leg;
      SingleLegOnce(leg, rows, chosen, singles, k);
    }
  }

  lemma SameIdOrNot(legs: seq<Leg>, a: Leg, b: Leg)
    requires DistinctLegs(legs) && a in legs && b in legs
    ensures a.id == b.id ==> a == b
  {
    if a.id == b.id {
      SameIdSameLeg(legs, a, b);
    }
  }

  /** The row is a pair that has one of the hypothesis' legs on its own side and is no worse a match. */
  ghost predicate Blocks(row: Row, h: Hypothesis) {
    && row.outflow.Some? && row.inflow.Some? && row.bps.Some? && row.seconds.Some?
    && (row.outflow == Some(h.outflow.id) || row.inflow == Some(h.inflow.id))
    && (Abs(row.bps.value) < Abs(h.bps)
       || (Abs(row.bps.value) == Abs(h.bps) && Abs(row.seconds.value) <= Abs(h.seconds)))
  }

  /** Directions keep outflows out of inflow columns. */
  lemma SameSide(legs: seq<Leg>, a: Hypothesis, b: Hypothesis)
    requires DistinctLegs(legs) && a in Hypotheses(legs) && b in Hypotheses(legs) && Shares(a, b)
    ensures a.outflow.id == b.outflow.id || a.inflow.id == b.inflow.id
  {
    Sides(legs, a);
    Sides(legs, b);
    SameIdOrNot(legs, a.outflow, b.inflow);
    SameIdOrNot(legs, a.inflow, b.outflow);
  }

  lemma Sides(legs: seq<Leg>, h: Hypothesis)
    requires h in Hypotheses(legs)
    ensures h.outflow in legs && h.inflow in legs && h.outflow.direction == Outflow && h.inflow.direction == Inflow
  {
    HypothesesMembers(legs);
  }

  lemma EligibleIsHypothesis(legs: seq<Leg>, out: Leg, inf: Leg)
    requires out in legs && inf in legs && Eligible(out, inf)
    ensures Hypothesise(out, inf) in Hypotheses(legs)
  {
    HypothesesMembers(legs);
  }

  lemma HypothesisBlocked(legs: seq<Leg>, h: Hypothesis)
    requires DistinctLegs(legs) && h in Hypotheses(legs)
    ensures exists row :: row in PairPass([], 0, legs).rows && Blocks(row, h)
  {
    var chosen, singles := FreshPass(legs);
    var rows := PairPass([], 0, legs).rows;
    assert Beaten(chosen, h);
    var r :| 0 <= r < |chosen| && Shares(chosen[r], h) && NoWorse(chosen[r], h);
    SameSide(legs, chosen[r], h);
    assert Blocks(rows[r], h);
    assert rows[r] in rows;
  }

  /** Two legs are a hypothesis exactly when they may be paired. */
  lemma HypothesisIff(legs: seq<Leg>, out: Leg, inf: Leg)
    requires out in legs && inf in legs
    ensures Hypothesise(out, inf) in Hypotheses(legs) <==> Matchable(out, inf)
  {
    HypothesesMembers(legs);
    EligibleIff(out, inf);
  }

  /** The row pairs two legs of these that may be paired, as far apart as it says. */
  ghost predicate PairRow(legs: seq<Leg>, row: Row) {
    exists out, inf :: out in legs && inf in legs && PairsLegs(row, out, inf)
  }

  predicate PairsLegs(row: Row, out: Leg, inf: Leg) {
    && row.outflow == Some(out.id) && row.inflow == Some(inf.id) && Matchable(out, inf)
    && row.seconds.Some? && row.bps.Some? && Measures(out, inf, row.seconds.value, row.bps.value)
  }

  predicate IsPair(row: Row) {
    row.outflow.Some? && row.inflow.Some?
  }

  /** Every pair in the table was there before or is one of these legs. */
  ghost predicate PairsOf(before: seq<Row>, legs: seq<Leg>, rows: seq<Row>) {
    forall row :: row in rows && IsPair(row) ==> row in before || PairRow(legs, row)
  }

  lemma WrittenPair(legs: seq<Leg>, h: Hypothesis, row: Row)
    requires h in Hypotheses(legs)
    requires row.outflow == Some(h.outflow.id) && row.inflow == Some(h.inflow.id)
    requires row.seconds == Some(h.seconds) && row.bps == Some(h.bps)
    ensures PairRow(legs, row)
  {
    HypothesesMembers(legs);
    EligibleIff(h.outflow, h.inflow);
    DeltasMeasure(h.outflow, h.inflow, h.seconds, h.bps);
    assert PairsLegs(row, h.outflow, h.inflow);
  }

  lemma PutPairs(before: seq<Row>, legs: seq<Leg>, rows: seq<Row>, row: Row)
    requires PairsOf(before, legs, rows) && PairRow(legs, row)
    ensures PairsOf(before, legs, Put(rows, row))
  {
    forall x | x in Put(rows, row) && IsPair(x) ensures x in before || PairRow(legs, x) {
      var i :| 0 <= i < |rows| && Put(rows, row)[i] == x;
      assert x == row || x == rows[i];
    }
  }

  lemma WritePairs(before: seq<Row>, legs: seq<Leg>, st: PassState, h: Hypothesis)
    requires PairsOf(before, legs, st.rows) && h in Hypotheses(legs)
    ensures PairsOf(before, legs, WritePair(st, h).rows)
  {
    var o, i := h.outflow.id, h.inflow.id;
    match (FindSingleton(st.rows, o, Outflow), FindSingleton(st.rows, i, Inflow)) {
      case (Some(s), _) =>
        var row := s.(inflow := Some(i), seconds := Some(h.seconds), bps := Some(h.bps));
        WrittenPair(legs, h, row);
        PutPairs(before, legs, st.rows, row);
      case (None, Some(t)) =>
        var row := t.(outflow := Some(o), seconds := Some(h.seconds), bps := Some(h.bps));
        WrittenPair(legs, h, row);
        PutPairs(before, legs, st.rows, row);
      case (None, None) =>
        WrittenPair(legs, h, NewPair(st.nextId, h));
    }
  }

  lemma {:induction false} PairAllPairs(before: seq<Row>, legs: seq<Leg>, st: PassState, hyps: seq<Hypothesis>)
    requires PairsOf(before, legs, st.rows) && forall h :: h in hyps ==> h in Hypotheses(legs)
    ensures PairsOf(before, legs, PairAll(st, hyps).rows)
    decreases hyps
  {
    if hyps != [] {
      WritePairs(before, legs, st, hyps[0]);
      PairAllPairs(before, legs, PairStep(st, hyps[0]), hyps[1..]);
    }
  }

  lemma {:induction false} SingleAllPairs(before: seq<Row>, legs: seq<Leg>, st: PassState, rest: seq<Leg>)
    requires PairsOf(before, legs, st.rows)
    ensures PairsOf(before, legs, SingleAll(st, rest).rows)
    decreases rest
  {
    if rest != [] {
      SingleAllPairs(before, legs, SingletonStep(st, rest[0]), rest[1..]);
    }
  }

  /** Whatever is in the table before a pass, every pair it writes is of two legs that may be paired, no further
      apart in time and amount than that, and the row says by how much. */
  lemma PassPairsMatchable(rows: seq<Row>, nextId: nat, legs: seq<Leg>)
    ensures PairsOf(rows, legs, PairPass(rows, nextId, legs).rows)
  {
    var st := PassState(rows, nextId, {}, []);
    PairAllPairs(rows, legs, st, Hypotheses(legs));
    SingleAllPairs(rows, legs, PairAll(st, Hypotheses(legs)), legs);
  }

  /** A row of a pass over an empty table, field by field: a pair to be confirmed or a leg left over, and nobody
      has decided anything. */
  ghost predicate FreshRow(legs: seq<Leg>, row: Row) {
    && row.resolvedBy.None? && row.level.None? && row.custody.None?
    && exists leg :: leg in legs && row.asset == leg.asset &&
         if IsPair(row) then PairRow(legs, row) && row.status == NeedsConfirmation && row.outflow == Some(leg.id)
         else
           && row.status == Unmatched && row.seconds.None? && row.bps.None?
           && row.outflow == (if leg.direction == Outflow then Some(leg.id) else None)
           && row.inflow == (if leg.direction == Inflow then Some(leg.id) else None)
  }

  lemma FreshRows(legs: seq<Leg>, row: Row)
    requires DistinctLegs(legs) && row in PairPass([], 0, legs).rows
    ensures FreshRow(legs, row)
  {
    var chosen, singles := FreshPass(legs);
    var rows := PairPass([], 0, legs).rows;
    var r :| 0 <= r < |rows| && rows[r] == row;
    if r < |chosen| {
      assert chosen[r] in chosen;
      WrittenPair(legs, chosen[r], row);
      HypothesesMembers(legs);
      assert chosen[r].outflow in legs;
    } else {
      assert rows[r] == NewSingleton(r, singles[r - |chosen|]);
      assert singles[r - |chosen|] in singles;
    }
  }

  /** No blocking pair: whenever two legs may be paired, a written pair holds one of them on its own side and is
      at least as close, in hundredths of a percent and then in seconds. */
  lemma NoBlockingPair(legs: seq<Leg>, out: Leg, inf: Leg, seconds: int, bps: int)
    requires DistinctLegs(legs) && out in legs && inf in legs
    requires Matchable(out, inf) && Measures(out, inf, seconds, bps)
    ensures exists row :: row in PairPass([], 0, legs).rows && PairRow(legs, row)
              && (row.outflow == Some(out.id) || row.inflow == Some(inf.id))
              && (Abs(row.bps.value) < Abs(bps)
                  || (Abs(row.bps.value) == Abs(bps) && Abs(row.seconds.value) <= Abs(seconds)))
  {
    EligibleIff(out, inf);
    DeltasMeasure(out, inf, seconds, bps);
    EligibleIsHypothesis(legs, out, inf);
    HypothesisBlocked(legs, Hypothesise(out, inf));
    var row :| row in PairPass([], 0, legs).rows && Blocks(row, Hypothesise(out, inf));
    PassPairsMatchable([], 0, legs);
  }

  function IdsOf(hyps: seq<Hypothesis>): (ids: set<nat>)
    ensures |ids| <= 2 * |hyps|
    ensures forall r :: 0 <= r < |hyps| ==> hyps[r].outflow.id in ids && hyps[r].inflow.id in ids
  {
    if hyps == [] then {}
    else
      var rest := IdsOf(hyps[1..]);
      rest + {hyps[0].outflow.id} + {hyps[0].inflow.id}
  }

  /** A matching each of whose pairs hits the set has at most as many pairs as the set has members. */
  lemma {:induction false} MatchingHits(matching: seq<Hypothesis>, ids: set<nat>)
    requires Matching(matching)
    requires forall r :: 0 <= r < |matching| ==> matching[r].outflow.id in ids || matching[r].inflow.id in ids
    ensures |matching| <= |ids|
  {
    if matching != [] {
      var head := matching[0];
      var id := if head.outflow.id in ids then head.outflow.id else head.inflow.id;
      forall r | 0 <= r < |matching[1..]|
        ensures matching[1..][r].outflow.id in ids - {id} || matching[1..][r].inflow.id in ids - {id}
      {
        assert !Shares(matching[0], matching[r + 1]);
      }
      forall r, s | 0 <= r < s < |matching[1..]| ensures !Shares(matching[1..][r], matching[1..][s]) {
        assert !Shares(matching[r + 1], matching[s + 1]);
      }
      MatchingHits(matching[1..], ids - {id});
    }
  }

  function PairCount(rows: seq<Row>): nat {
    if rows == [] then 0 else (if rows[0].outflow.Some? && rows[0].inflow.Some? then 1 else 0) + PairCount(rows[1..])
  }

  lemma {:induction false} PairCountOf(rows: seq<Row>, pairs: nat)
    requires pairs <= |rows|
    requires forall r :: 0 <= r < |rows| ==> ((rows[r].outflow.Some? && rows[r].inflow.Some?) <==> r < pairs)
    ensures PairCount(rows) == pairs
  {
    if rows != [] {
      forall r | 0 <= r < |rows[1..]|
        ensures (rows[1..][r].outflow.Some? && rows[1..][r].inflow.Some?) <==> r < (if pairs == 0 then 0 else pairs - 1)
      {
        assert rows[1..][r] == rows[r + 1];
      }
      assert (rows[0].outflow.Some? && rows[0].inflow.Some?) <==> 0 < pairs;
      PairCountOf(rows[1..], if pairs == 0 then 0 else pairs - 1);
    }
  }

  lemma BeatenHits(chosen: seq<Hypothesis>, h: Hypothesis)
    requires Beaten(chosen, h)
    ensures h.outflow.id in IdsOf(chosen) || h.inflow.id in IdsOf(chosen)
  {
    var k :| 0 <= k < |chosen| && Shares(chosen[k], h) && NoWorse(chosen[k], h);
  }

  /** Half-optimal: no matching of legs that may be paired has more than twice the pairs a pass finds. */
  lemma GreedyIsHalfOptimal(legs: seq<Leg>, matching: seq<Hypothesis>)
    requires DistinctLegs(legs) && Matching(matching)
    requires forall m :: m in matching ==> m.outflow in legs && m.inflow in legs && Matchable(m.outflow, m.inflow)
    ensures |matching| <= 2 * PairCount(PairPass([], 0, legs).rows)
  {
    var chosen, singles := FreshPass(legs);
    var ids := IdsOf(chosen);
    forall r | 0 <= r < |matching| ensures matching[r].outflow.id in ids || matching[r].inflow.id in ids {
      assert matching[r] in matching;
      EligibleIff(matching[r].outflow, matching[r].inflow);
      EligibleIsHypothesis(legs, matching[r].outflow, matching[r].inflow);
      BeatenHits(chosen, Hypothesise(matching[r].outflow, matching[r].inflow));
    }
    MatchingHits(matching, ids);
    var rows := PairPass([], 0, legs).rows;
    forall r | 0 <= r < |rows| ensures (rows[r].outflow.Some? && rows[r].inflow.Some?) <==> r < |chosen| {
      if r >= |chosen| {
        assert rows[r] == NewSingleton(r, singles[r - |chosen|]);
      }
    }
    PairCountOf(rows, |chosen|);
  }
}
