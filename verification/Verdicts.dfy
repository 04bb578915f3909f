/** When a leg of a confirmed bridge stays part of it, the user's own later decisions included. */
module Verdicts {
  import opened Sequences
  import opened Pairing
  import opened Bridge
  import opened Decisions

  // ---- One action ----

  /** The action makes the leg a plain transfer again: it ages out a stray row that holds it, or the user
      rejects or sells a row that does. */
  ghost predicate Undoes(b: BridgeBook, action: Action, leg: nat) {
    match action
    case Pass(_, _, _) => false
    case Surface(aged, synced) =>
      exists row :: row in b.rows && WillSurface(b.signals.Keys, row, aged, synced) && HasLegId(row, leg)
    case DecidePair(id, confirm, _) =>
      !confirm && match FindRow(b.rows, id) {
        case None => false
        case Some(row) => HasLegId(row, leg) && !(row.resolvedBy == Some(User) && row.status == Rejected)
      }
    case DecideUnmatched(id, resolution) =>
      resolution in {Sale, ThirdParty} && match FindRow(b.rows, id) {
        case None => false
        case Some(row) => HasLegId(row, leg)
      }
  }

  lemma RestoredIsTaxable(signals: Signals, row: Row, leg: nat)
    requires leg in signals && HasLegId(row, leg)
    ensures !Bridged(SetSignal(signals, row, false, {}), leg)
  {
  }

  lemma ConfirmedStaysBridged(signals: Signals, row: Row, dispositions: set<nat>, leg: nat)
    requires Bridged(signals, leg)
    ensures Bridged(SetSignal(signals, row, true, dispositions), leg)
  {
  }

  lemma PairDecisionIff(b: BridgeBook, id: nat, confirm: bool, treatments: set<nat>, leg: nat)
    requires Bridged(b.signals, leg)
    ensures Bridged(After(b, DecidePair(id, confirm, treatments)).signals, leg)
            <==> !Undoes(b, DecidePair(id, confirm, treatments), leg)
  {
    match FindRow(b.rows, id) {
      case None =>
      case Some(row) =>
        var decided := row.(status := if confirm then Confirmed else Rejected, resolvedBy := Some(User));
        if confirm {
          ConfirmedStaysBridged(b.signals, decided, treatments, leg);
        } else if HasLegId(row, leg) {
          RestoredIsTaxable(b.signals, decided, leg);
        } else {
          SetSignalElsewhere(b.signals, decided, false, treatments, leg);
        }
    }
  }

  lemma UnmatchedDecisionIff(b: BridgeBook, id: nat, resolution: UserResolution, leg: nat)
    requires Bridged(b.signals, leg)
    ensures Bridged(After(b, DecideUnmatched(id, resolution)).signals, leg)
            <==> !Undoes(b, DecideUnmatched(id, resolution), leg)
  {
    match FindRow(b.rows, id) {
      case None =>
      case Some(row) =>
        if resolution in {Sale, ThirdParty} {
          var decided := row.(status := Rejected, resolvedBy := Some(User));
          if HasLegId(row, leg) {
            RestoredIsTaxable(b.signals, decided, leg);
          } else {
            SetSignalElsewhere(b.signals, decided, false, {}, leg);
          }
        }
    }
  }

  /** Whatever is done next, by a pass, by ageing out or by the user: a leg of a row the user resolved stops
      being part of its bridge exactly when the action undoes it. */
  lemma StepIff(book: LegBook, b: BridgeBook, action: Action, leg: nat)
    requires Tidy(b.rows, b.nextId) && AllHonest(book, b.rows) && (action.Pass? ==> Drawn(book, action.legs))
    requires Held(book, b.rows, leg) && Bridged(b.signals, leg)
    ensures Bridged(After(b, action).signals, leg) <==> !Undoes(b, action, leg)
  {
    match action {
      case Pass(legs, facts, dispositions) => PassKeepsHeldSignals(book, b, legs, facts, dispositions, leg);
      case Surface(aged, synced) => SurfaceKeepsBridgeIff(b.signals, b.rows, aged, synced, leg);
      case DecidePair(id, confirm, treatments) => PairDecisionIff(b, id, confirm, treatments, leg);
      case DecideUnmatched(id, resolution) => UnmatchedDecisionIff(b, id, resolution, leg);
    }
  }

  // ---- Any number of them ----

  lemma PutHeld(book: LegBook, rows: seq<Row>, nextId: nat, was: Row, row: Row, leg: nat)
    requires Tidy(rows, nextId) && was in rows && Held(book, rows, leg)
    requires row == was.(status := row.status, resolvedBy := Some(User))
    ensures Held(book, Put(rows, row), leg)
  {
    var next, side := Put(rows, row), book[leg].direction;
    var i :| 0 <= i < |rows| && Holds(rows[i], leg, side) && rows[i].resolvedBy == Some(User);
    if rows[i].id == was.id {
      SameRow(rows, nextId, rows[i], was);
    }
    assert Holds(next[i], leg, side) && next[i].resolvedBy == Some(User);
  }

  lemma AfterHeld(book: LegBook, b: BridgeBook, action: Action, leg: nat)
    requires Tidy(b.rows, b.nextId) && Held(book, b.rows, leg)
    ensures Held(book, After(b, action).rows, leg)
  {
    match action {
      case Pass(legs, facts, dispositions) =>
        PassHandsOff(b, legs, facts, dispositions);
        HeldStays(book, b.rows, After(b, action).rows, leg);
      case Surface(_, _) =>
      case DecidePair(id, confirm, _) =>
        match FindRow(b.rows, id) {
          case None =>
          case Some(row) =>
            PutHeld(book, b.rows, b.nextId, row,
                    row.(status := if confirm then Confirmed else Rejected, resolvedBy := Some(User)), leg);
        }
      case DecideUnmatched(id, resolution) =>
        match FindRow(b.rows, id) {
          case None =>
          case Some(row) =>
            var status := if resolution in {Sale, ThirdParty} then Rejected else Unmatched;
            PutHeld(book, b.rows, b.nextId, row, row.(status := status, resolvedBy := Some(User)), leg);
        }
    }
  }

  ghost predicate AllDrawn(book: LegBook, actions: seq<Action>) {
    forall a :: a in actions && a.Pass? ==> Drawn(book, a.legs)
  }

  /** The leg is part of its bridge now and after each of the actions. */
  ghost predicate BridgedThroughout(b: BridgeBook, actions: seq<Action>, leg: nat)
    decreases actions
  {
    Bridged(b.signals, leg) && (actions != [] ==> BridgedThroughout(After(b, actions[0]), actions[1..], leg))
  }

  /** None of the actions undoes it, at the time it is taken. */
  ghost predicate NeverUndone(b: BridgeBook, actions: seq<Action>, leg: nat)
    decreases actions
  {
    actions != [] ==> !Undoes(b, actions[0], leg) && NeverUndone(After(b, actions[0]), actions[1..], leg)
  }

  /** Over any passes, ageing out and decisions of the user, a leg of a row the user resolved is part of its
      bridge all along exactly when no action ages out, rejects or sells a row that holds it. */
  lemma {:induction false} BridgedThroughoutIff(book: LegBook, b: BridgeBook, actions: seq<Action>, leg: nat)
    requires Tidy(b.rows, b.nextId) && AllHonest(book, b.rows) && AllDrawn(book, actions)
    requires Held(book, b.rows, leg) && Bridged(b.signals, leg)
    ensures BridgedThroughout(b, actions, leg) <==> NeverUndone(b, actions, leg)
    decreases actions
  {
    if actions != [] {
      var next := After(b, actions[0]);
      assert actions[0] in actions;
      StepIff(book, b, actions[0], leg);
      if Bridged(next.signals, leg) {
        AfterTidy(b, actions[0]);
        AfterHonest(book, b, actions[0]);
        AfterHeld(book, b, actions[0], leg);
        BridgedThroughoutIff(book, next, actions[1..], leg);
      }
    }
  }

  // ---- What can be told beforehand ----

  /** The action is no decision of the user's against a row that holds the leg. */
  ghost predicate Spares(rows: seq<Row>, action: Action, leg: nat) {
    var against := match action
      case DecidePair(_, confirm, _) => !confirm
      case DecideUnmatched(_, resolution) => resolution in {Sale, ThirdParty}
      case _ => false;
    against ==> forall row :: row in rows && row.id == action.row ==> !HasLegId(row, leg)
  }

  /** Every row that holds the leg now did so before, under the same id. */
  ghost predicate NoNewHolder(before: seq<Row>, after: seq<Row>, leg: nat) {
    forall row :: row in after && HasLegId(row, leg) ==>
      exists was :: was in before && was.id == row.id && HasLegId(was, leg)
  }

  lemma SparesLater(before: seq<Row>, after: seq<Row>, action: Action, leg: nat)
    requires NoNewHolder(before, after, leg) && Spares(before, action, leg)
    ensures Spares(after, action, leg)
  {
  }

  lemma PutNoNewHolder(rows: seq<Row>, was: Row, row: Row, leg: nat)
    requires was in rows && row == was.(status := row.status, resolvedBy := Some(User))
    ensures NoNewHolder(rows, Put(rows, row), leg)
  {
    PutMembers(rows, row);
  }

  lemma AfterNoNewHolder(book: LegBook, b: BridgeBook, action: Action, leg: nat)
    requires Tidy(b.rows, b.nextId) && AllHonest(book, b.rows) && (action.Pass? ==> Drawn(book, action.legs))
    requires Held(book, b.rows, leg)
    ensures NoNewHolder(b.rows, After(b, action).rows, leg)
  {
    match action {
      case Pass(legs, facts, dispositions) =>
        PassHandsOff(b, legs, facts, dispositions);
        AfterHonest(book, b, action);
        forall row | row in After(b, action).rows && HasLegId(row, leg) ensures row in b.rows {
          assert Honest(book, row);
          assert TouchesUser(b.rows, row);
        }
      case Surface(_, _) =>
      case DecidePair(id, confirm, _) =>
        match FindRow(b.rows, id) {
          case None =>
          case Some(row) =>
            PutNoNewHolder(b.rows, row,
                           row.(status := if confirm then Confirmed else Rejected, resolvedBy := Some(User)), leg);
        }
      case DecideUnmatched(id, resolution) =>
        match FindRow(b.rows, id) {
          case None =>
          case Some(row) =>
            var status := if resolution in {Sale, ThirdParty} then Rejected else Unmatched;
            PutNoNewHolder(b.rows, row, row.(status := status, resolvedBy := Some(User)), leg);
        }
    }
  }

  ghost predicate NoStray(b: BridgeBook, leg: nat) {
    forall row :: row in b.rows ==> !Stray(b.signals, row, leg)
  }

  /** A decision strays nothing: its row is the user's from then on, and no event comes or goes. */
  lemma DecidedNoStray(b: BridgeBook, row: Row, signals: Signals, leg: nat)
    requires NoStray(b, leg) && row.resolvedBy == Some(User) && signals.Keys == b.signals.Keys
    ensures NoStray(b.(rows := Put(b.rows, row), signals := signals), leg)
  {
    PutMembers(b.rows, row);
  }

  lemma PassNoStray(book: LegBook, b: BridgeBook, legs: seq<Leg>, facts: CustodyFacts, dispositions: set<nat>, leg: nat)
    requires Tidy(b.rows, b.nextId) && AllHonest(book, b.rows) && Drawn(book, legs)
    requires Held(book, b.rows, leg) && NoStray(b, leg)
    ensures NoStray(BridgePass(b, legs, facts, dispositions), leg)
  {
    var next := BridgePass(b, legs, facts, dispositions);
    forall row | row in next.rows ensures !Stray(next.signals, row, leg) {
      if Stray(next.signals, row, leg) {
        PassAddsNoStray(book, b, legs, facts, dispositions, leg, row);
      }
    }
  }

  lemma AfterNoStray(book: LegBook, b: BridgeBook, action: Action, leg: nat)
    requires Tidy(b.rows, b.nextId) && AllHonest(book, b.rows) && (action.Pass? ==> Drawn(book, action.legs))
    requires Held(book, b.rows, leg) && NoStray(b, leg)
    ensures NoStray(After(b, action), leg)
  {
    match action {
      case Pass(legs, facts, dispositions) => PassNoStray(book, b, legs, facts, dispositions, leg);
      case Surface(aged, synced) => SurfaceAllKeys(b.signals, b.rows, aged, synced);
      case DecidePair(id, confirm, treatments) =>
        match FindRow(b.rows, id) {
          case None =>
          case Some(row) =>
            var decided := row.(status := if confirm then Confirmed else Rejected, resolvedBy := Some(User));
            SetSignalKeys(b.signals, decided, confirm, treatments);
            DecidedNoStray(b, decided, SetSignal(b.signals, decided, confirm, treatments), leg);
        }
      case DecideUnmatched(id, resolution) =>
        match FindRow(b.rows, id) {
          case None =>
          case Some(row) =>
            var decided := row.(status := if resolution in {Sale, ThirdParty} then Rejected else Unmatched,
                                resolvedBy := Some(User));
            SetSignalKeys(b.signals, decided, false, {});
            DecidedNoStray(b, decided, After(b, action).signals, leg);
        }
    }
  }

  lemma SparedNotUndone(b: BridgeBook, action: Action, leg: nat)
    requires Spares(b.rows, action, leg) && NoStray(b, leg)
    ensures !Undoes(b, action, leg)
  {
  }

  lemma {:induction false} SparedStaysBridged(book: LegBook, b: BridgeBook, actions: seq<Action>, leg: nat)
    requires Tidy(b.rows, b.nextId) && AllHonest(book, b.rows) && AllDrawn(book, actions)
    requires Held(book, b.rows, leg) && Bridged(b.signals, leg) && NoStray(b, leg)
    requires forall a :: a in actions ==> Spares(b.rows, a, leg)
    ensures Bridged(Play(b, actions).signals, leg)
    decreases actions
  {
    if actions != [] {
      var a, next := actions[0], After(b, actions[0]);
      assert a in actions;
      SparedNotUndone(b, a, leg);
      StepIff(book, b, a, leg);
      AfterTidy(b, a);
      AfterHonest(book, b, a);
      AfterHeld(book, b, a, leg);
      AfterNoStray(book, b, a, leg);
      AfterNoNewHolder(book, b, a, leg);
      forall later | later in actions[1..] ensures Spares(next.rows, later, leg) {
        assert later in actions;
        SparesLater(b.rows, next.rows, later, leg);
      }
      SparedStaysBridged(book, next, actions[1..], leg);
    }
  }

  lemma StrayAgesOut(b: BridgeBook, row: Row, leg: nat)
    requires row in b.rows && Stray(b.signals, row, leg) && Bridged(b.signals, leg)
    ensures !Bridged(Play(b, [Surface({row.id}, {LegOf(row).value})]).signals, leg)
  {
    var ageing := Surface({row.id}, {LegOf(row).value});
    assert [ageing][1..] == [];
    assert WillSurface(b.signals.Keys, row, ageing.aged, ageing.synced);
    SurfaceKeepsBridgeIff(b.signals, b.rows, ageing.aged, ageing.synced, leg);
    assert Play(b, [ageing]) == After(b, ageing);
  }

  /** Passes over the book's legs, and ageing out, in any order. */
  ghost predicate AllAutomatic(book: LegBook, actions: seq<Action>) {
    forall a :: a in actions ==> Automatic(a) && (a.Pass? ==> Drawn(book, a.legs))
  }

  /** Told beforehand: a leg of a row the user resolved stays part of its bridge, whatever passes and ageing out
      follow, exactly when no stray row holds it at the time. */
  lemma BridgedForGoodIff(book: LegBook, b: BridgeBook, leg: nat)
    requires Tidy(b.rows, b.nextId) && AllHonest(book, b.rows) && Held(book, b.rows, leg) && Bridged(b.signals, leg)
    ensures (forall actions :: AllAutomatic(book, actions) ==> Bridged(Play(b, actions).signals, leg))
            <==> NoStray(b, leg)
  {
    if NoStray(b, leg) {
      forall actions | AllAutomatic(book, actions) ensures Bridged(Play(b, actions).signals, leg) {
        SparedStaysBridged(book, b, actions, leg);
      }
    } else {
      var row :| row in b.rows && Stray(b.signals, row, leg);
      assert AllAutomatic(book, [Surface({row.id}, {LegOf(row).value})]);
      StrayAgesOut(b, row, leg);
    }
  }

  /** And whatever the user decides besides, other than against a row that holds the leg now, exactly then too. */
  lemma BridgedUnlessDecidedIff(book: LegBook, b: BridgeBook, leg: nat)
    requires Tidy(b.rows, b.nextId) && AllHonest(book, b.rows) && Held(book, b.rows, leg) && Bridged(b.signals, leg)
    ensures (forall actions :: AllDrawn(book, actions) && (forall a :: a in actions ==> Spares(b.rows, a, leg))
               ==> Bridged(Play(b, actions).signals, leg))
            <==> NoStray(b, leg)
  {
    if NoStray(b, leg) {
      forall actions | AllDrawn(book, actions) && (forall a :: a in actions ==> Spares(b.rows, a, leg))
        ensures Bridged(Play(b, actions).signals, leg)
      {
        SparedStaysBridged(book, b, actions, leg);
      }
    } else {
      var row :| row in b.rows && Stray(b.signals, row, leg);
      var ageing := [Surface({row.id}, {LegOf(row).value})];
      assert AllDrawn(book, ageing) && forall a :: a in ageing ==> Spares(b.rows, a, leg);
      StrayAgesOut(b, row, leg);
    }
  }

  // ---- Two rows for one outflow ----

  /** An inflow on a third chain that turns up after the first pass. */
  const LATE := Leg(3, Inflow, 2, 7, 1000, 0)
  const RIVAL := Row(1, 7, Some(1), Some(3), NeedsConfirmation, Some(0), Some(0), Some(Low), Some(Unknown), None)

  const LATE_PAIR := Hypothesis(OUT, LATE, 0, 0)

  lemma RivalHypotheses()
    ensures Hypotheses([OUT, LATE]) == [LATE_PAIR]
  {
    var legs := [OUT, LATE];
    assert legs[1..] == [LATE] && [LATE][1..] == [] && [OUT][1..] == [] && [LATE_PAIR][1..] == [];
    assert Hypothesise(OUT, LATE) == LATE_PAIR && Eligible(OUT, LATE);
    assert Filter([LATE], Facing(Outflow)) == [] && Filter([LATE], Facing(Inflow)) == [LATE];
    assert Filter(legs, Facing(Outflow)) == [OUT] && Filter(legs, Facing(Inflow)) == [LATE];
    assert PairsWith(OUT, [LATE]) == [LATE_PAIR] && AllPairs([OUT], [LATE]) == [LATE_PAIR];
    assert Sort([LATE_PAIR], Rank()) == [LATE_PAIR];
  }

  lemma RivalPaired()
    ensures PairPass([PAIR], 1, [OUT, LATE]) == PassState([PAIR, NewPair(1, LATE_PAIR)], 2, {1, 3}, [1])
  {
    var legs, before := [OUT, LATE], PassState([PAIR], 1, {}, []);
    var st := PassState([PAIR, NewPair(1, LATE_PAIR)], 2, {1, 3}, [1]);
    RivalHypotheses();
    assert legs[1..] == [LATE] && [LATE][1..] == [] && [LATE_PAIR][1..] == [];
    assert FindSingleton([PAIR], 1, Outflow) == None && FindSingleton([PAIR], 3, Inflow) == None;
    assert FindPair([PAIR], 1, 3) == None;
    assert PairStep(before, LATE_PAIR) == st && PairAll(before, [LATE_PAIR]) == st;
    assert SingletonStep(st, OUT) == st && SingletonStep(st, LATE) == st;
    assert SingleAll(st, legs) == st by { assert SingleAll(st, [LATE]) == st; }
  }

  lemma RivalUnconfirmed()
    ensures SetSignal(START.signals, RIVAL, false, {}) == START.signals
  {
    assert PutSignal(START.signals, Some(1), TransferOut, None, None) == START.signals;
    assert PutSignal(START.signals, Some(3), TransferIn, None, None) == START.signals;
  }

  lemma RivalScored(paired: Row)
    requires paired == NewPair(1, LATE_PAIR)
    ensures ScoreStep(BridgeBook([PAIR, paired], 2, START.signals), 1, map[], {})
            == BridgeBook([PAIR, RIVAL], 2, START.signals)
  {
    assert [PAIR, paired][1..] == [paired];
    assert FindRow([PAIR, paired], 1) == Some(paired);
    assert Scored(paired, Unknown) == RIVAL;
    assert Put([PAIR, paired], RIVAL) == [PAIR, RIVAL];
    RivalUnconfirmed();
  }

  lemma RivalPass()
    ensures BridgePass(BridgeBook([PAIR], 1, START.signals), [OUT, LATE], map[], {})
            == BridgeBook([PAIR, RIVAL], 2, START.signals)
  {
    RivalPaired();
    RivalScored(NewPair(1, LATE_PAIR));
    var b := BridgeBook([PAIR, NewPair(1, LATE_PAIR)], 2, START.signals);
    assert [1][1..] == [];
    assert ScoreAll(b, [1], map[], {}) == ScoreStep(b, 1, map[], {});
  }

  lemma LaterLegs()
    ensures Since([OUT, IN, LATE], OUT.at) == [OUT, LATE]
  {
    assert [OUT, IN, LATE][1..] == [IN, LATE] && [IN, LATE][1..] == [LATE] && [LATE][1..] == [];
    assert Since([LATE], OUT.at) == [LATE] && Since([IN, LATE], OUT.at) == [LATE];
  }

  lemma ConfirmThenReject()
    ensures var confirmed := After(BridgeBook([PAIR, RIVAL], 2, START.signals), DecidePair(0, true, {}));
            var final := After(confirmed, DecidePair(1, false, {}));
            && KEPT in final.rows
            && 1 in confirmed.signals && confirmed.signals[1].kind == BridgeOut
            && 1 in final.signals && final.signals[1].kind == TransferOut
  {
    var rivalled := BridgeBook([PAIR, RIVAL], 2, START.signals);
    assert FindRow(rivalled.rows, 0) == Some(PAIR);
    assert Put(rivalled.rows, KEPT) == [KEPT, RIVAL];
    var confirmed := After(rivalled, DecidePair(0, true, {}));
    assert confirmed.rows == [KEPT, RIVAL];
    assert [KEPT, RIVAL][1..] == [RIVAL];
    assert FindRow(confirmed.rows, 1) == Some(RIVAL);
    var rejected := RIVAL.(status := Rejected, resolvedBy := Some(User));
    assert Put(confirmed.rows, rejected) == [KEPT, rejected];
    assert KEPT in After(confirmed, DecidePair(1, false, {})).rows;
  }

  /** Two passes pair one outflow twice.  The user confirms the first row and rejects the second: the first still
      reads as confirmed by the user, and its outflow is a taxable transfer again. */
  lemma RejectingTheRivalUndoes()
    ensures var found := After(START, Pass([OUT, IN], map[], {}));
            var rivalled := After(found, Pass(Since([OUT, IN, LATE], OUT.at), map[], {}));
            var confirmed := After(rivalled, DecidePair(0, true, {}));
            var final := After(confirmed, DecidePair(1, false, {}));
            && KEPT in final.rows
            && 1 in confirmed.signals && confirmed.signals[1].kind == BridgeOut
            && 1 in final.signals && final.signals[1].kind == TransferOut
  {
    LaterLegs();
    FirstPass();
    assert After(START, Pass([OUT, IN], map[], {})) == BridgeBook([PAIR], 1, START.signals);
    RivalPass();
    ConfirmThenReject();
  }
}
