/** The bridge module as it runs: rows and signals edited in place, each method proved against module Bridge. */
module Workflow {
  import opened Sequences
  import opened Pairing
  import opened Bridge

  lemma {:induction false} PairsWithAppend(out: Leg, a: seq<Leg>, b: seq<Leg>)
    ensures PairsWith(out, a + b) == PairsWith(out, a) + PairsWith(out, b)
  {
    if a == [] {
      assert a + b == b;
    } else {
      PairsWithAppend(out, a[1..], b);
      assert (a + b)[1..] == a[1..] + b;
    }
  }

  lemma {:induction false} AllPairsAppend(a: seq<Leg>, b: seq<Leg>, inflows: seq<Leg>)
    ensures AllPairs(a + b, inflows) == AllPairs(a, inflows) + AllPairs(b, inflows)
  {
    if a == [] {
      assert a + b == b;
    } else {
      AllPairsAppend(a[1..], b, inflows);
      assert (a + b)[1..] == a[1..] + b;
    }
  }

  lemma PairsWithOne(out: Leg, inf: Leg)
    ensures PairsWith(out, [inf]) == if Eligible(out, inf) then [Hypothesise(out, inf)] else []
  {
    assert [inf][1..] == [];
  }

  lemma AllPairsOne(out: Leg, inflows: seq<Leg>)
    ensures AllPairs([out], inflows) == PairsWith(out, inflows)
  {
    assert [out][1..] == [] && AllPairs([], inflows) == [];
  }

  method BuildHypotheses(legs: seq<Leg>) returns (hyps: seq<Hypothesis>)
    ensures hyps == Hypotheses(legs)
  {
    var outflows, inflows := Filter(legs, Facing(Outflow)), Filter(legs, Facing(Inflow));
    hyps := [];
    var i := 0;
    while i < |outflows|
      invariant 0 <= i <= |outflows|
      invariant hyps == AllPairs(outflows[..i], inflows)
    {
      var out := outflows[i];
      ghost var before := hyps;
      var j := 0;
      while j < |inflows|
        invariant 0 <= j <= |inflows|
        invariant hyps == before + PairsWith(out, inflows[..j])
      {
        assert inflows[..j + 1] == inflows[..j] + [inflows[j]];
        PairsWithAppend(out, inflows[..j], [inflows[j]]);
        PairsWithOne(out, inflows[j]);
        if Eligible(out, inflows[j]) {
          hyps := hyps + [Hypothesise(out, inflows[j])];
        }
        j := j + 1;
      }
      assert inflows[..j] == inflows;
      assert outflows[..i + 1] == outflows[..i] + [out];
      AllPairsAppend(outflows[..i], [out], inflows);
      AllPairsOne(out, inflows);
      i := i + 1;
    }
    assert outflows[..i] == outflows;
    hyps := Sort(hyps, Rank());
  }

  class Correlations {
    var rows: seq<Row>
    var nextId: nat
    var signals: Signals

    function View(): BridgeBook
      reads this
    {
      BridgeBook(rows, nextId, signals)
    }

    constructor (signals: Signals)
      ensures View() == BridgeBook([], 0, signals)
    {
      rows, nextId, this.signals := [], 0, signals;
    }

    method CompleteOrInsert(h: Hypothesis) returns (id: nat)
      modifies this`rows, this`nextId
      ensures forall used, written :: WritePair(PassState(old(rows), old(nextId), used, written), h)
                == Assign(PassState(old(rows), old(nextId), used, written), h, rows, nextId, id)
    {
      var o, i := h.outflow.id, h.inflow.id;
      var outSingle := FindSingleton(rows, o, Outflow);
      var inSingle := FindSingleton(rows, i, Inflow);
      if outSingle.Some? {
        id := outSingle.value.id;
        rows := Put(rows, outSingle.value.(inflow := Some(i), seconds := Some(h.seconds), bps := Some(h.bps)));
        if inSingle.Some? {
          rows := Delete(rows, inSingle.value.id);
        }
      } else if inSingle.Some? {
        id := inSingle.value.id;
        rows := Put(rows, inSingle.value.(outflow := Some(o), seconds := Some(h.seconds), bps := Some(h.bps)));
      } else {
        id := nextId;
        rows := rows + [NewPair(id, h)];
        nextId := nextId + 1;
      }
    }

    method PairAndPersist(legs: seq<Leg>) returns (written: seq<nat>)
      modifies this`rows, this`nextId
      ensures var st := PairPass(old(rows), old(nextId), legs);
              rows == st.rows && nextId == st.nextId && written == st.written
    {
      var hyps := BuildHypotheses(legs);
      var used: set<nat>;
      used, written := PairHypotheses(hyps);
      written := FileLeftovers(legs, used, written);
    }

    method PairHypotheses(hyps: seq<Hypothesis>) returns (used: set<nat>, written: seq<nat>)
      modifies this`rows, this`nextId
      ensures PairAll(PassState(old(rows), old(nextId), {}, []), hyps) == PassState(rows, nextId, used, written)
    {
      used, written := {}, [];
      var k := 0;
      while k < |hyps|
        invariant 0 <= k <= |hyps|
        invariant PairAll(PassState(old(rows), old(nextId), {}, []), hyps)
               == PairAll(PassState(rows, nextId, used, written), hyps[k..])
      {
        var h := hyps[k];
        assert hyps[k..][1..] == hyps[k + 1..];
        ghost var st := PassState(rows, nextId, used, written);
        var o, i := h.outflow.id, h.inflow.id;
        if o in used || i in used {
        } else if UserResolved(rows, o, Outflow) {
          used := used + {o};
        } else if UserResolved(rows, i, Inflow) {
          used := used + {i};
        } else {
          var pair := FindPair(rows, o, i);
          var id: nat;
          if pair.Some? {
            id := pair.value.id;
          } else {
            id := CompleteOrInsert(h);
          }
          used := used + {o, i};
          written := written + [id];
        }
        assert PairStep(st, h) == PassState(rows, nextId, used, written);
        k := k + 1;
      }
    }

    method FileLeftovers(legs: seq<Leg>, used: set<nat>, paired: seq<nat>) returns (written: seq<nat>)
      modifies this`rows, this`nextId
      ensures SingleAll(PassState(old(rows), old(nextId), used, paired), legs) == PassState(rows, nextId, used, written)
    {
      written := paired;
      var k := 0;
      while k < |legs|
        invariant 0 <= k <= |legs|
        invariant SingleAll(PassState(old(rows), old(nextId), used, paired), legs)
               == SingleAll(PassState(rows, nextId, used, written), legs[k..])
      {
        var leg := legs[k];
        assert legs[k..][1..] == legs[k + 1..];
        ghost var st := PassState(rows, nextId, used, written);
        if leg.id in used || UserResolved(rows, leg.id, leg.direction) {
        } else {
          var single := FindSingleton(rows, leg.id, leg.direction);
          if single.Some? {
            written := written + [single.value.id];
          } else {
            rows := rows + [NewSingleton(nextId, leg)];
            written := written + [nextId];
            nextId := nextId + 1;
          }
        }
        assert SingletonStep(st, leg) == PassState(rows, nextId, used, written);
        k := k + 1;
      }
    }

    method RunPass(legs: seq<Leg>, facts: CustodyFacts, dispositions: set<nat>)
      modifies this
      ensures View() == BridgePass(old(View()), legs, facts, dispositions)
    {
      var written := PairAndPersist(legs);
      var k := 0;
      while k < |written|
        invariant 0 <= k <= |written|
        invariant BridgePass(old(View()), legs, facts, dispositions)
                  == ScoreAll(View(), written[k..], facts, dispositions)
      {
        assert written[k..][1..] == written[k + 1..];
        ScoreOne(written[k], facts, dispositions);
        k := k + 1;
      }
    }

    method ScoreOne(id: nat, facts: CustodyFacts, dispositions: set<nat>)
      modifies this
      ensures View() == ScoreStep(old(View()), id, facts, dispositions)
    {
      var found := FindRow(rows, id);
      if found.None? {
        return;
      }
      var row := found.value;
      if row.status in {Confirmed, Rejected} {
        if row.resolvedBy == Some(User) {
          return;
        }
      }
      if row.outflow.None? || row.inflow.None? {
        return;
      }
      if row.outflow.value !in signals || row.inflow.value !in signals {
        return;
      }
      var level := ScorePair(Seconds(row), Bps(row), CustodyOf(facts, row.outflow.value, row.inflow.value));
      var status := StatusFor(level);
      row := row.(level := Some(level), custody := Some(CustodyOf(facts, row.outflow.value, row.inflow.value)),
                  status := status, resolvedBy := if status == Confirmed then Some(Auto) else None);
      rows := Put(rows, row);
      signals := SetSignal(signals, row, status == Confirmed, dispositions);
    }

    method SurfaceAged(aged: set<nat>, synced: set<nat>)
      modifies this`signals
      ensures signals == SurfaceAll(old(signals), rows, aged, synced)
    {
      var k := 0;
      while k < |rows|
        invariant 0 <= k <= |rows|
        invariant SurfaceAll(old(signals), rows, aged, synced) == SurfaceAll(signals, rows[k..], aged, synced)
      {
        assert rows[k..][1..] == rows[k + 1..];
        var row := rows[k];
        if Surfaced(row, signals, aged, synced) {
          signals := Flag(SetSignal(signals, row, false, {}), LegOf(row).value);
        }
        k := k + 1;
      }
    }

    method Decide(id: nat, confirm: bool, dispositions: set<nat>) returns (ok: bool)
      modifies this
      ensures ok <==> ResolvePair(old(View()), id, confirm, dispositions).Some?
      ensures View() == if ok then ResolvePair(old(View()), id, confirm, dispositions).value else old(View())
    {
      var found := FindRow(rows, id);
      ok := found.Some?;
      if !ok {
        return;
      }
      var row := found.value;
      if row.resolvedBy == Some(User) && row.status == (if confirm then Confirmed else Rejected) {
        return;
      }
      row := row.(status := if confirm then Confirmed else Rejected, resolvedBy := Some(User));
      rows := Put(rows, row);
      signals := SetSignal(signals, row, confirm, dispositions);
    }

    method DecideSingle(id: nat, resolution: UserResolution) returns (ok: bool)
      modifies this
      ensures ok <==> ResolveUnmatched(old(View()), id, resolution).Some?
      ensures View() == if ok then ResolveUnmatched(old(View()), id, resolution).value else old(View())
    {
      var found := FindRow(rows, id);
      ok := found.Some?;
      if !ok {
        return;
      }
      var row := found.value.(resolvedBy := Some(User));
      match resolution {
        case Sale | ThirdParty =>
          row := row.(status := Rejected);
          signals := SetSignal(signals, row, false, {});
        case BridgePending =>
          row := row.(status := Unmatched);
        case Other =>
          row := row.(status := Unmatched);
          if LegOf(row).Some? {
            signals := Flag(signals, LegOf(row).value);
          }
      }
      rows := Put(rows, row);
    }
  }
}
