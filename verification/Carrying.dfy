/** How much a relocation carries along: whole lots, not the event's amount. */
module Carrying {
  import opened Calendar
  import opened Sequences
  import opened Lots
  import opened Events
  import opened Books
  import opened Conservation
  import opened Guarantees

  function MovedSources(relocations: seq<RelocationRow>, tx: nat): set<nat> {
    set row | row in relocations && row.tx == tx :: row.lot
  }

  /** What remains in the lots that the books say an event has moved. */
  function Carried(b: Books, tx: nat): int {
    RemainingIn(b.lots, MovedSources(b.relocations, tx))
  }

  lemma {:induction false} RemainingNone(lots: seq<Lot>)
    ensures RemainingIn(lots, {}) == 0
  {
    if lots != [] {
      RemainingNone(lots[1..]);
    }
  }

  lemma {:induction false} RemainingUnlisted(lots: seq<Lot>, sources: set<nat>, source: nat)
    requires forall lot :: lot in lots ==> lot.source != source
    ensures RemainingIn(lots, sources + {source}) == RemainingIn(lots, sources)
  {
    if lots != [] {
      assert lots[0] in lots;
      RemainingUnlisted(lots[1..], sources, source);
    }
  }

  lemma {:induction false} RemainingAdds(lots: seq<Lot>, sources: set<nat>, lot: Lot)
    requires DistinctSources(lots) && lot in lots && lot.source !in sources
    ensures RemainingIn(lots, sources + {lot.source}) == RemainingIn(lots, sources) + lot.remaining
  {
    if lots[0] == lot {
      forall other | other in lots[1..] ensures other.source != lot.source {
        var j :| 0 <= j < |lots[1..]| && lots[1..][j] == other;
        assert lots[j + 1].source != lots[0].source;
      }
      RemainingUnlisted(lots[1..], sources, lot.source);
    } else {
      var j :| 0 <= j < |lots[1..]| && lots[1..][j] == lot;
      assert lots[0].source != lots[j + 1].source;
      RemainingAdds(lots[1..], sources, lot);
    }
  }

  function SourceSet(slices: seq<Slice>): set<nat> {
    if slices == [] then {} else SourceSet(slices[1..]) + {slices[0].lot.source}
  }

  lemma {:induction false} SourceSetMembers(slices: seq<Slice>)
    ensures forall s :: s in SourceSet(slices) <==> exists i :: 0 <= i < |slices| && slices[i].lot.source == s
  {
    if slices != [] {
      SourceSetMembers(slices[1..]);
      forall i | 0 <= i < |slices| ensures slices[i].lot.source in SourceSet(slices) {
        if i > 0 {
          assert slices[1..][i - 1] == slices[i];
        }
      }
      forall i | 0 <= i < |slices[1..]| ensures slices[1..][i] == slices[i + 1] {
      }
    }
  }

  lemma {:induction false} SlicesHold(lots: seq<Lot>, slices: seq<Slice>)
    requires DistinctSources(lots) && DistinctSlices(slices) && forall i :: 0 <= i < |slices| ==> slices[i].lot in lots
    ensures RemainingIn(lots, SourceSet(slices)) == Held(slices)
  {
    if slices == [] {
      RemainingNone(lots);
    } else {
      var rest := slices[1..];
      forall i | 0 <= i < |rest| ensures rest[i].lot.source != slices[0].lot.source {
        assert rest[i] == slices[i + 1];
      }
      SourceSetMembers(rest);
      SlicesHold(lots, rest);
      RemainingAdds(lots, SourceSet(rest), slices[0].lot);
    }
  }

  lemma {:induction false} MoveRemaining(lots: seq<Lot>, slices: seq<Slice>, to: nat, entity: Option<nat>,
                                         acquisition: Option<AcquisitionType>, sources: set<nat>)
    ensures RemainingIn(Move(lots, slices, to, entity, acquisition), sources) == RemainingIn(lots, sources)
  {
    if lots != [] {
      MoveRemaining(lots[1..], slices, to, entity, acquisition, sources);
      assert Move(lots, slices, to, entity, acquisition)[1..] == Move(lots[1..], slices, to, entity, acquisition);
    }
  }

  lemma NewMoves(b: Books, e: Event, slices: seq<Slice>, from: nat, reason: MoveReason)
    requires !HasRelocation(b, e.id)
    ensures MovedSources(b.relocations + RelocationRows(e, slices, from, e.wallet, reason), e.id) == SourceSet(slices)
  {
    var rows := RelocationRows(e, slices, from, e.wallet, reason);
    SourceSetMembers(slices);
    forall row | row in b.relocations ensures row.tx != e.id {
      var i :| 0 <= i < |b.relocations| && b.relocations[i] == row;
    }
    forall source | source in SourceSet(slices) ensures source in MovedSources(b.relocations + rows, e.id) {
      var i :| 0 <= i < |slices| && slices[i].lot.source == source;
      assert rows[i] in b.relocations + rows && rows[i].lot == source;
    }
    forall source | source in MovedSources(b.relocations + rows, e.id) ensures source in SourceSet(slices) {
      var row :| row in b.relocations + rows && row.tx == e.id && row.lot == source;
      var i :| 0 <= i < |rows| && rows[i] == row;
      assert slices[i].lot.source == source;
    }
  }

  /** What a relocation carries is what its slices' lots hold. */
  lemma CarriesHeld(reg: Registry, b: Books, e: Event, from: nat, pool: Pool, slices: seq<Slice>)
    requires DistinctSources(b.lots) && Cutting(b.lots, from, pool, slices) && !HasRelocation(b, e.id)
    ensures Carried(PostMove(reg, b, e, from, slices), e.id) == Held(slices)
  {
    var entity := EntityFor(reg.assignments, e.wallet, e.occurredAt.date);
    NewMoves(b, e, slices, from, MoveReasonOf(e));
    MoveRemaining(b.lots, slices, e.wallet, entity, RetypedAs(e), SourceSet(slices));
    SlicesFromTable(b.lots, from, pool, slices);
    SlicesHold(b.lots, slices);
  }

  lemma SlicesFromTable(lots: seq<Lot>, from: nat, pool: Pool, slices: seq<Slice>)
    requires Cutting(lots, from, pool, slices)
    ensures DistinctSlices(slices) && forall i :: 0 <= i < |slices| ==> slices[i].lot in lots
  {
  }

  lemma {:induction false} AvailableMonotone(open: seq<Lot>, i: nat, j: nat)
    requires AllOpen(open) && i <= j <= |open|
    ensures 0 <= Available(open[..i]) <= Available(open[..j])
    ensures i < j ==> Available(open[..i]) + open[i].remaining <= Available(open[..j])
  {
    if j > 0 {
      assert Open(open[0]);
      assert open[..j][1..] == open[1..][..j - 1];
      if i > 0 {
        assert open[..i][1..] == open[1..][..i - 1];
        AvailableMonotone(open[1..], i - 1, j - 1);
      } else {
        AvailableMonotone(open[1..], 0, j - 1);
      }
    }
  }

  lemma {:induction false} HeldIsAvailable(slices: seq<Slice>, open: seq<Lot>)
    requires |slices| <= |open| && forall i :: 0 <= i < |slices| ==> slices[i].lot == open[i]
    ensures Held(slices) == Available(open[..|slices|])
  {
    if slices != [] {
      HeldIsAvailable(slices[1..], open[1..]);
      assert open[..|slices|][1..] == open[1..][..|slices| - 1];
    }
  }

  lemma HeldExactIff(slices: seq<Slice>, open: seq<Lot>, amount: int)
    requires AllOpen(open) && Prefix(slices, open, amount)
    ensures Held(slices) == amount <==> exists k :: 0 <= k <= |open| && Available(open[..k]) == amount
  {
    var n := |slices|;
    HeldIsAvailable(slices, open);
    HeldIsAvailable(slices[..n - 1], open);
    LastHeld(slices);
    assert Available(open[..n - 1]) < amount <= Available(open[..n]);
    forall k | 0 <= k <= |open| && Available(open[..k]) == amount ensures Held(slices) == amount {
      if k < n {
        AvailableMonotone(open, k, n - 1);
      } else {
        AvailableMonotone(open, n, k);
      }
    }
  }

  lemma {:induction false} LastHeld(slices: seq<Slice>)
    requires slices != []
    ensures Held(slices) == Held(slices[..|slices| - 1]) + slices[|slices| - 1].lot.remaining
  {
    if |slices| == 1 {
      assert slices[1..] == [] && slices[..0] == [];
    } else {
      LastHeld(slices[1..]);
      assert slices[1..][..|slices| - 2] == slices[..|slices| - 1][1..];
    }
  }

  /** A relocation carries exactly the event's amount if and only if some first lots of the source pool, oldest
      first, hold exactly that; otherwise it carries more. */
  lemma RelocationMovesExactlyIff(reg: Registry, b: Books, e: Event, outflow: Event, token: nat)
    requires Sound(b) && !HasRelocation(b, e.id) && SourceEvent(reg, e) == Some(outflow) && e.token == Some(token)
    requires ApplyRelocation(reg, b, e).Posted?
    ensures var open := OpenLots(b.lots, outflow.wallet, CanonicalPool(reg, token));
            var carried := Carried(ApplyRelocation(reg, b, e).books, e.id);
            && (carried == e.amount <==> exists k :: 0 <= k <= |open| && Available(open[..k]) == e.amount)
            && carried >= e.amount
  {
    var pool := CanonicalPool(reg, token);
    var open := OpenLots(b.lots, outflow.wallet, pool);
    SelectionCuts(b.lots, outflow.wallet, pool, Fifo, e.amount);
    var slices := Select(b.lots, outflow.wallet, pool, Fifo, e.amount).slices;
    var next := PostMove(reg, b, e, outflow.wallet, slices);
    assert ApplyRelocation(reg, b, e).books == FlagGift(next, e);
    CarriesHeld(reg, b, e, outflow.wallet, pool, slices);
    if e.amount > 0 {
      FifoPrefix(b, outflow.wallet, pool, e.amount, slices);
      HeldExactIff(slices, open, e.amount);
    } else {
      NoneAsked(open, e.amount);
    }
  }

  /** Asked for nothing, the first no lots hold exactly that; less than nothing is held by none. */
  lemma NoneAsked(open: seq<Lot>, amount: int)
    requires AllOpen(open) && amount <= 0
    ensures 0 == amount <==> exists k :: 0 <= k <= |open| && Available(open[..k]) == amount
  {
    assert open[..0] == [];
    forall k | 0 <= k <= |open| ensures Available(open[..k]) >= 0 {
      AvailableMonotone(open, 0, k);
    }
  }

  // ---- More than the amount ----

  const DAY := Instant(Date(2026, 1, 1), 0)
  const TEN := Lot(1, 1, 7, None, 0, DAY, Buy, Fungible, 10, 10, 100)
  const SENT := Event(2, 1, 1, DAY, 1, 0, BridgeOut, "", Some(7), 10, None, None, None)
  const RECEIVED := Event(3, 2, 2, DAY, 1, 0, BridgeIn, "", Some(7), 9, None, None, Some(2))
  const TABLES := Registry(map[], {}, map[], [], {}, [SENT, RECEIVED])
  const HOLDING_TEN := EMPTY.(lots := [TEN])

  /** One lot of 10 is sent and 9 arrive: all 10 go along. */
  lemma FeeGoesAlong()
    ensures SourceEvent(TABLES, RECEIVED) == Some(SENT) && ApplyRelocation(TABLES, HOLDING_TEN, RECEIVED).Posted?
    ensures ApplyRelocation(TABLES, HOLDING_TEN, RECEIVED).books.lots == [TEN.(wallet := 2)]
    ensures Carried(ApplyRelocation(TABLES, HOLDING_TEN, RECEIVED).books, RECEIVED.id) == 10 > RECEIVED.amount
  {
    assert [SENT, RECEIVED][1..] == [RECEIVED];
    var slice := Slice(TEN, 9, SliceBasis(TEN, 9));
    NineOfTen(slice);
    assert Touches([slice], 1) by {
      assert [slice][0].lot.source == 1;
    }
    var next := ApplyRelocation(TABLES, HOLDING_TEN, RECEIVED).books;
    assert next.relocations == [RelocationRow(1, 1, 2, Bridge, 3, DAY)] by {
      assert [slice][1..] == [];
    }
    assert MovedSources(next.relocations, 3) == {1} by {
      assert next.relocations[0] in next.relocations;
    }
    var moved := TEN.(wallet := 2);
    assert next.lots == [moved] && [moved][1..] == [];
    assert RemainingIn([moved], {1}) == 10 + RemainingIn([], {1});
  }

  lemma NineOfTen(slice: Slice)
    requires slice == Slice(TEN, 9, SliceBasis(TEN, 9))
    ensures Select([TEN], 1, Token(7), Fifo, 9) == Covered([slice])
  {
    assert [TEN][1..] == [];
    assert OpenLots([TEN], 1, Token(7)) == [TEN];
    assert OrderLots(Fifo, [TEN]) == [TEN];
    assert Consume([TEN], 9) == Covered([slice]) by {
      assert Consume([], 0) == Covered([]);
    }
  }
}
