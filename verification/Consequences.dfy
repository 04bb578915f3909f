/** What a choice costs: the loss disallowed, the gift flagged, the lots moved and retyped that follow from it. */
module Consequences {
  import opened Sequences
  import opened Lots
  import opened Events
  import opened Books
  import opened Conservation
  import opened Passes
  import opened Entries
  import Resolve

  // ---- The outflow leg ----

  /** The row is classified, and the leg it is about is found. */
  predicate Decided(d: Resolve.Desk, i: nat) {
    && i < |d.rows| && d.rows[i].state == Resolve.Classified && d.rows[i].choice.Some?
    && Resolve.OutflowAt(d.legs, d.rows[i]) < |d.legs|
  }

  /** The event of that leg. */
  function Sent(d: Resolve.Desk, i: nat): Event
    requires Decided(d, i)
  {
    d.legs[Resolve.OutflowAt(d.legs, d.rows[i])].event
  }

  lemma SentIsStamped(d: Resolve.Desk, i: nat)
    requires Resolve.Kept(d) && Decided(d, i)
    ensures Resolve.Allowed(d.rows[i].kind, d.rows[i].choice.value)
    ensures Sent(d, i).resolution == Some(Resolve.OutflowResolution(d.rows[i].kind, d.rows[i].choice.value))
    ensures Sent(d, i).relocationSource.None?
  {
    assert Resolve.RowKept(d.rows[i], d.legs);
    assert Resolve.IsOutflowOf(d.legs[Resolve.OutflowAt(d.legs, d.rows[i])], d.rows[i]);
  }

  /** Sold or paid: the engine books a disposal, and disallows a loss exactly when the sale was to another of the
      user's own entities. */
  lemma SoldAs(d: Resolve.Desk, calls: seq<Resolve.Call>, i: nat, reg: Registry, b: Books)
    returns (rows: seq<DisposalRow>)
    requires Resolve.Kept(d) && Decided(Resolve.Play(d, calls), i)
    requires Resolve.Play(d, calls).rows[i].choice.value in {Resolve.Sale, Resolve.Payment}
    requires var e := Sent(Resolve.Play(d, calls), i); !HasDisposal(b, e.id) && Affords(reg, b, e)
    ensures var e := Sent(Resolve.Play(d, calls), i);
            && Apply(reg, b, e).Posted? && Apply(reg, b, e).books.disposals == b.disposals + rows && SoldRows(e, rows)
    ensures forall row :: row in rows ==>
              row.adjustment
                == if Resolve.Play(d, calls).rows[i].kind == Resolve.CrossEntity && row.proceeds < row.basis
                   then Some(row.basis - row.proceeds) else None
  {
    var now := Resolve.Play(d, calls);
    Resolve.PlayKeeps(d, calls);
    SentIsStamped(now, i);
    rows := SaleBooks(reg, b, Sent(now, i));
  }

  /** Given to somebody outside: lots go, no gain is booked, and the event is flagged. */
  lemma GivenAs(d: Resolve.Desk, calls: seq<Resolve.Call>, i: nat, reg: Registry, b: Books)
    returns (gifts: seq<GiftRow>)
    requires Resolve.Kept(d) && Decided(Resolve.Play(d, calls), i)
    requires Resolve.Play(d, calls).rows[i].choice.value == Resolve.Gift
    requires Resolve.Play(d, calls).rows[i].kind == Resolve.ExternalOutflow
    requires var e := Sent(Resolve.Play(d, calls), i); !HasRelocation(b, e.id) && Affords(reg, b, e)
    ensures var e := Sent(Resolve.Play(d, calls), i);
            Apply(reg, b, e).Posted? && GiftEntries(b, Apply(reg, b, e).books, e, gifts)
  {
    var now := Resolve.Play(d, calls);
    Resolve.PlayKeeps(d, calls);
    SentIsStamped(now, i);
    gifts := GiftBooks(reg, b, Sent(now, i));
  }

  /** Lent: flagged and no more.  Contributed, reassigned, or given to another of the user's entities: nothing at all,
      since the leg that arrives moves the lots. */
  lemma KeptAs(d: Resolve.Desk, calls: seq<Resolve.Call>, i: nat, reg: Registry, b: Books)
    requires Resolve.Kept(d) && Decided(Resolve.Play(d, calls), i)
    requires var row := Resolve.Play(d, calls).rows[i];
             || row.choice.value in {Resolve.Loan, Resolve.CapitalContribution, Resolve.Reassignment}
             || (row.kind == Resolve.CrossEntity && row.choice.value == Resolve.Gift)
    ensures var e, choice := Sent(Resolve.Play(d, calls), i), Resolve.Play(d, calls).rows[i].choice.value;
            Apply(reg, b, e) == Posted(if choice == Resolve.Loan then b.(flagged := b.flagged + {e.id}) else b)
  {
    var now := Resolve.Play(d, calls);
    Resolve.PlayKeeps(d, calls);
    SentIsStamped(now, i);
    if now.rows[i].choice.value == Resolve.Loan {
      LoanFlags(reg, b, Sent(now, i));
    } else {
      IdleBooksNothing(reg, b, Sent(now, i));
    }
  }

  // ---- The inflow leg ----

  /** The leg the row is about, by wallet, transaction and place. */
  predicate SentBy(leg: Resolve.Leg, row: Resolve.Pending) {
    leg.event.wallet == row.wallet && leg.event.txHash == row.tx && leg.event.eventSeq == row.index
  }

  /** Its counterpart: what came in, of the same contract on the same chain in the same transaction, at the wallet it
      was sent to. */
  predicate ReceivedBy(leg: Resolve.Leg, row: Resolve.Pending, sent: Resolve.Leg) {
    && row.toWallet == Some(leg.event.wallet) && leg.event.txHash == row.tx && leg.chain == row.chain
    && leg.contract == sent.contract && leg.event.kind in {TransferIn, BridgeIn}
  }

  /** The service finds the first of each. */
  lemma LegsFoundIff(d: Resolve.Desk, row: Resolve.Pending, o: nat, i: nat)
    ensures Resolve.LegsFound(d, row, o, i)
            <==> && o < |d.legs| && SentBy(d.legs[o], row) && (forall k :: 0 <= k < o ==> !SentBy(d.legs[k], row))
                 && i < |d.legs| && ReceivedBy(d.legs[i], row, d.legs[o])
                 && forall k :: 0 <= k < i ==> !ReceivedBy(d.legs[k], row, d.legs[o])
  {
    assert forall k :: 0 <= k < |d.legs| ==> (SentBy(d.legs[k], row) <==> Resolve.IsOutflowOf(d.legs[k], row));
    assert o < |d.legs| ==> forall k :: 0 <= k < |d.legs| ==>
      (ReceivedBy(d.legs[k], row, d.legs[o]) <==> Resolve.IsInflowOf(d.legs[k], row, d.legs[o].contract));
  }

  /** The reason and the type that go with a choice to move lots along. */
  predicate MovedAs(choice: Resolve.Choice, reason: MoveReason, was: AcquisitionType, now: AcquisitionType) {
    match choice
    case CapitalContribution => reason == Contribution && now == CapContribution
    case Gift => reason == Gifted && now == AcquisitionType.Gift
    case Reassignment => reason == Reassignment && now == was
    case _ => false
  }

  /** A contribution, reassignment or gift between the user's entities links the inflow leg to the outflow, and the
      engine then moves lots from the sender, with the reason and the type of the choice. */
  lemma ArrivesAs(d: Resolve.Desk, call: Resolve.Call, o: nat, i: nat, reg: Registry, b: Books, sent: Event, token: nat)
    returns (moved: seq<nat>, reason: MoveReason)
    requires Resolve.Kept(d) && Resolve.Writes(d, call) && Resolve.LegsFound(d, Resolve.RowOf(d, call), o, i)
    requires Resolve.RowOf(d, call).kind == Resolve.CrossEntity
    requires call.choice in {Resolve.CapitalContribution, Resolve.Gift, Resolve.Reassignment}
    requires DistinctIds(reg.events) && sent in reg.events && sent.id == d.legs[o].event.id
    requires |Resolve.After(d, call).legs| == |d.legs|
    requires var e := Resolve.After(d, call).legs[i].event;
             && Sound(b) && !HasRelocation(b, e.id) && Apply(reg, b, e).Posted? && e.token == Some(token)
    ensures var e := Resolve.After(d, call).legs[i].event; var next := Apply(reg, b, e).books;
            && |next.lots| == |b.lots| && |next.relocations| == |b.relocations| + |moved|
            && (forall k :: 0 <= k < |moved| ==>
                  next.relocations[|b.relocations| + k]
                    == RelocationRow(moved[k], sent.wallet, e.wallet, reason, e.id, e.occurredAt))
            && (forall n :: 0 <= n < |b.lots| ==>
                  if b.lots[n].source in moved then
                    next.lots[n].wallet == e.wallet
                    && MovedAs(call.choice, reason, b.lots[n].acquisition, next.lots[n].acquisition)
                  else next.lots[n] == b.lots[n])
            && (e.id in next.flagged <==> e.id in b.flagged || call.choice == Resolve.Gift)
  {
    Resolve.WritesStamps(d, call, o, i);
    var e := Resolve.After(d, call).legs[i].event;
    moved, reason := ArrivalMoves(reg, b, e, sent, token);
  }

  /** A sale or a loan, and whatever goes outside, leaves the inflow leg as it was. */
  lemma InflowLeft(d: Resolve.Desk, call: Resolve.Call, o: nat, i: nat)
    requires Resolve.Kept(d) && Resolve.Writes(d, call) && Resolve.LegsFound(d, Resolve.RowOf(d, call), o, i)
    requires Resolve.RowOf(d, call).kind == Resolve.ExternalOutflow || call.choice in {Resolve.Sale, Resolve.Loan}
    ensures |Resolve.After(d, call).legs| == |d.legs| && Resolve.After(d, call).legs[i] == d.legs[i]
  {
    Resolve.WritesStamps(d, call, o, i);
  }

  // ---- The row and the log ----

  /** The snapshot shows the row. */
  predicate Shows(s: Resolve.Snapshot, row: Resolve.Pending) {
    && s.state == row.state && s.choice == row.choice && s.resolvedBy == row.resolvedBy
    && s.resolvedAt == row.resolvedAt && s.dismissReason == row.dismissReason && s.note == row.note
  }

  /** The row after a call that changes it: who decided what, when, and why. */
  predicate Written(call: Resolve.Call, was: Resolve.Pending, now: Resolve.Pending) {
    && Resolve.SamePlace(was, now) && now.resolvedAt == Some(call.at)
    && match call
       case ResolveCall(_, choice, _, note, rule, _) =>
         && now.state == Resolve.Classified && now.choice == Some(choice) && now.note == note
         && now.resolvedBy == Some(if rule.Some? then Resolve.ByRule else Resolve.ByUser)
         && now.ruleId == (if rule.Some? then rule else was.ruleId) && now.dismissReason == was.dismissReason
       case ReclassifyCall(_, choice, _, note, _) =>
         && now.state == Resolve.Classified && now.choice == Some(choice) && now.note == note
         && now.resolvedBy == was.resolvedBy && now.ruleId == was.ruleId && now.dismissReason == was.dismissReason
       case DismissCall(_, reason, _, redirect, _) =>
         && now.state == Resolve.Dismissed && now.choice == was.choice && now.note == was.note
         && now.resolvedBy == Some(Resolve.ByUser) && now.ruleId == was.ruleId
         && now.dismissReason == Some(if redirect then "reclassified-internal" else reason)
  }

  /** The entry names the caller and what was done. */
  predicate Tells(entry: Resolve.Entry, call: Resolve.Call) {
    && entry.actor == call.actor
    && match call
       case ResolveCall(_, choice, _, note, rule, _) =>
         entry.deed == Resolve.Resolved(choice) && entry.ruleId == rule && entry.note == note
       case ReclassifyCall(_, choice, _, note, _) =>
         entry.deed == Resolve.Reclassified(choice) && entry.ruleId.None? && entry.note == note
       case DismissCall(_, reason, _, redirect, _) =>
         && entry.deed == (if redirect then Resolve.Redirected else Resolve.Dropped) && entry.ruleId.None?
         && entry.note == (if redirect then None else Some(reason))
  }

  /** A call either changes nothing, or writes its row as it should and logs one entry with the row before and
      after. */
  lemma CallIsLogged(d: Resolve.Desk, call: Resolve.Call)
    ensures var next, k := Resolve.After(d, call), Resolve.RowAt(d.rows, call.id);
            || next == d
            || (&& k < |d.rows| == |next.rows| && Written(call, d.rows[k], next.rows[k])
                && (forall j :: 0 <= j < |d.rows| && j != k ==> next.rows[j] == d.rows[j])
                && |next.audit| == |d.audit| + 1 && d.audit <= next.audit
                && var entry := next.audit[|d.audit|];
                   && entry.pending == d.rows[k].id && Tells(entry, call)
                   && Shows(entry.before, d.rows[k]) && Shows(entry.after, next.rows[k]))
  {
  }

  /** When a call is refused or repeated, and so changes nothing. */
  predicate Refuses(d: Resolve.Desk, call: Resolve.Call) {
    var k := Resolve.RowAt(d.rows, call.id);
    || k == |d.rows|
    || (!call.DismissCall?
        && var row := d.rows[k];
           || (row.kind == Resolve.CrossEntity && call.choice !in {Resolve.CapitalContribution, Resolve.Sale,
                 Resolve.Gift, Resolve.Loan, Resolve.Reassignment})
           || (row.kind == Resolve.ExternalOutflow
               && call.choice !in {Resolve.Sale, Resolve.Gift, Resolve.Payment})
           || (call.ResolveCall? && (row.state == Resolve.Dismissed
                 || (row.state == Resolve.Classified && row.choice == Some(call.choice))))
           || (call.ReclassifyCall? && (row.state in {Resolve.Dismissed, Resolve.NeedsClassification}
                 || (row.resolvedBy == Some(Resolve.ByUser) && call.actor == "rule"))))
  }

  lemma RefusedIff(d: Resolve.Desk, call: Resolve.Call)
    ensures Resolve.After(d, call) == d <==> Refuses(d, call)
  {
    var k := Resolve.RowAt(d.rows, call.id);
    if k < |d.rows| {
      var row := d.rows[k];
      assert Refuses(d, call) ==> Resolve.After(d, call) == d;
      if !Refuses(d, call) {
        assert !call.DismissCall? ==> Resolve.Allowed(row.kind, call.choice);
        match call {
          case ResolveCall(_, choice, actor, note, rule, at) => assert row.state != Resolve.Dismissed;
          case ReclassifyCall(_, choice, actor, note, at) =>
            assert row.state != Resolve.Dismissed;
            assert row.state != Resolve.NeedsClassification;
            assert row.state in {Resolve.Classified, Resolve.Applied};
          case DismissCall(_, _, _, _, _) =>
        }
        assert Resolve.Serve(d, call).Done?;
        assert |Resolve.After(d, call).audit| == |d.audit| + 1;
      }
    }
  }

  /** Which refusal: an unknown row, a row in a state that does not allow the call, a choice its kind does not allow,
      and only then the guard. */
  lemma RefusalIs(d: Resolve.Desk, call: Resolve.Call)
    requires Resolve.Serve(d, call).Refused?
    ensures var k, refusal := Resolve.RowAt(d.rows, call.id), Resolve.Serve(d, call).refusal;
            && (refusal == Resolve.NotFound <==> k == |d.rows|)
            && (k < |d.rows| && !call.DismissCall? ==>
                  && (refusal == Resolve.InvalidState
                      <==> d.rows[k].state == Resolve.Dismissed
                           || (call.ReclassifyCall? && d.rows[k].state == Resolve.NeedsClassification))
                  && (refusal == Resolve.UserResolvedGuard ==>
                        call.ReclassifyCall? && Resolve.Allowed(d.rows[k].kind, call.choice))
                  && (refusal == Resolve.InvalidChoice ==> !Resolve.Allowed(d.rows[k].kind, call.choice)))
  {
  }
}
