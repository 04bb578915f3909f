/** The resolve service: what a user or a rule decides about a pending transfer, the legs it stamps, and the
    audit trail of every change. */
module Resolve {
  import opened Calendar
  import opened Sequences
  import opened Events

  datatype PendingKind = CrossEntity | ExternalOutflow

  /** Choices arrive as text: anything may come in. */
  datatype Choice = CapitalContribution | Sale | Gift | Loan | Reassignment | Payment | Unrecognised(text: string)

  datatype State = NeedsClassification | Classified | Applied | Dismissed

  datatype Resolver = ByUser | ByRule

  /** A row of pending_classifications; wallet, transaction and index are where its outflow leg is. */
  datatype Pending = Pending(id: nat, kind: PendingKind, chain: nat, tx: nat, wallet: nat, index: int,
                             toWallet: Option<nat>, state: State, choice: Option<Choice>,
                             resolvedBy: Option<Resolver>, ruleId: Option<nat>,
                             resolvedAt: Option<int>, dismissReason: Option<string>, note: Option<string>)

  datatype Snapshot = Snapshot(state: State, choice: Option<Choice>, resolvedBy: Option<Resolver>,
                               resolvedAt: Option<int>, dismissReason: Option<string>, note: Option<string>)

  datatype Deed = Resolved(choice: Choice) | Reclassified(choice: Choice) | Dropped | Redirected

  datatype Entry = Entry(pending: nat, actor: string, deed: Deed, ruleId: Option<nat>, note: Option<string>,
                         before: Snapshot, after: Snapshot)

  /** A classified event with the two columns that locate it besides its own. */
  datatype Leg = Leg(event: Event, chain: nat, contract: nat)

  datatype Desk = Desk(rows: seq<Pending>, legs: seq<Leg>, audit: seq<Entry>)

  datatype Call =
    | ResolveCall(id: nat, choice: Choice, actor: string, note: Option<string>, rule: Option<nat>, at: int)
    | ReclassifyCall(id: nat, choice: Choice, actor: string, note: Option<string>, at: int)
    | DismissCall(id: nat, reason: string, actor: string, redirect: bool, at: int)

  datatype Refusal = NotFound | InvalidState | InvalidChoice | UserResolvedGuard

  datatype Answer = Done(desk: Desk) | Refused(refusal: Refusal)

  predicate Allowed(kind: PendingKind, choice: Choice) {
    match kind
    case CrossEntity => choice in {CapitalContribution, Sale, Gift, Loan, Reassignment}
    case ExternalOutflow => choice in {Sale, Gift, Payment}
  }

  function OutflowResolution(kind: PendingKind, choice: Choice): Resolution
    requires Allowed(kind, choice)
  {
    match (kind, choice)
    case (CrossEntity, CapitalContribution) => RelocateContribution
    case (CrossEntity, Reassignment) => RelocateReassignment
    case (CrossEntity, Gift) => RelocateGift
    case (CrossEntity, Sale) => DisposalRelatedParty
    case (CrossEntity, _) => NoOpLoan
    case (ExternalOutflow, Gift) => GiftOut
    case (ExternalOutflow, _) => Disposal
  }

  predicate StampsInflow(kind: PendingKind, choice: Choice) {
    kind == CrossEntity && choice in {CapitalContribution, Reassignment, Gift}
  }

  // ---- Finding and stamping legs ----

  predicate IsInflow(kind: Events.Kind) {
    kind in {TransferIn, BridgeIn}
  }

  predicate IsOutflowOf(leg: Leg, row: Pending) {
    leg.event.wallet == row.wallet && leg.event.txHash == row.tx && leg.event.eventSeq == row.index
  }

  predicate IsInflowOf(leg: Leg, row: Pending, contract: nat) {
    && row.toWallet == Some(leg.event.wallet) && leg.event.txHash == row.tx && leg.chain == row.chain
    && leg.contract == contract && IsInflow(leg.event.kind)
  }

  function OutflowAt(legs: seq<Leg>, row: Pending): (k: nat)
    ensures k <= |legs|
    ensures k < |legs| ==> IsOutflowOf(legs[k], row)
    ensures forall j :: 0 <= j < k ==> !IsOutflowOf(legs[j], row)
  {
    if legs == [] || IsOutflowOf(legs[0], row) then 0 else 1 + OutflowAt(legs[1..], row)
  }

  function InflowAt(legs: seq<Leg>, row: Pending, contract: nat): (k: nat)
    ensures k <= |legs|
    ensures k < |legs| ==> IsInflowOf(legs[k], row, contract)
    ensures forall j :: 0 <= j < k ==> !IsInflowOf(legs[j], row, contract)
  {
    if legs == [] || IsInflowOf(legs[0], row, contract) then 0 else 1 + InflowAt(legs[1..], row, contract)
  }

  function Stamped(leg: Leg, resolution: Resolution): Leg {
    leg.(event := leg.event.(resolution := Some(resolution)))
  }

  function Linked(leg: Leg, resolution: Resolution, outflow: nat): Leg {
    leg.(event := leg.event.(resolution := Some(resolution), relocationSource := Some(outflow)))
  }

  function StampLegs(legs: seq<Leg>, row: Pending, choice: Choice): (r: seq<Leg>)
    requires Allowed(row.kind, choice)
    ensures |r| == |legs|
  {
    var o := OutflowAt(legs, row);
    if o == |legs| then legs
    else
      var resolution := OutflowResolution(row.kind, choice);
      var out := legs[o := Stamped(legs[o], resolution)];
      var i := InflowAt(out, row, legs[o].contract);
      if StampsInflow(row.kind, choice) && i < |out| then out[i := Linked(out[i], resolution, legs[o].event.id)]
      else out
  }

  // ---- The service ----

  function Snap(row: Pending): Snapshot {
    Snapshot(row.state, row.choice, row.resolvedBy, row.resolvedAt, row.dismissReason, row.note)
  }

  function RowAt(rows: seq<Pending>, id: nat): (k: nat)
    ensures k <= |rows|
    ensures k < |rows| ==> rows[k].id == id
    ensures forall j :: 0 <= j < k ==> rows[j].id != id
  {
    if rows == [] || rows[0].id == id then 0 else 1 + RowAt(rows[1..], id)
  }

  /** Writes the row back, stamps the legs when there is a choice to stamp, and logs the change. */
  function Record(d: Desk, k: nat, row: Pending, legs: seq<Leg>, actor: string, deed: Deed, ruleId: Option<nat>,
                  note: Option<string>): Desk
    requires k < |d.rows|
  {
    Desk(d.rows[k := row], legs, d.audit + [Entry(row.id, actor, deed, ruleId, note, Snap(d.rows[k]), Snap(row))])
  }

  function ResolvedRow(row: Pending, choice: Choice, note: Option<string>, rule: Option<nat>, at: int): Pending {
    row.(choice := Some(choice), resolvedBy := Some(if rule.Some? then ByRule else ByUser), resolvedAt := Some(at),
         state := Classified, note := note, ruleId := if rule.Some? then rule else row.ruleId)
  }

  function ServeResolve(d: Desk, k: nat, choice: Choice, actor: string, note: Option<string>, rule: Option<nat>,
                        at: int): Answer
    requires k < |d.rows|
  {
    var row := d.rows[k];
    if row.state == Dismissed then Refused(InvalidState)
    else if !Allowed(row.kind, choice) then Refused(InvalidChoice)
    else if row.choice == Some(choice) && row.state == Classified then Done(d)
    else Done(Record(d, k, ResolvedRow(row, choice, note, rule, at), StampLegs(d.legs, row, choice), actor,
      Resolved(choice), rule, note))
  }

  function ReclassifiedRow(row: Pending, choice: Choice, note: Option<string>, at: int): Pending {
    row.(choice := Some(choice), resolvedAt := Some(at), note := note, state := Classified)
  }

  function ServeReclassify(d: Desk, k: nat, choice: Choice, actor: string, note: Option<string>, at: int): Answer
    requires k < |d.rows|
  {
    var row := d.rows[k];
    if row.state !in {Classified, Applied} then Refused(InvalidState)
    else if !Allowed(row.kind, choice) then Refused(InvalidChoice)
    else if row.resolvedBy == Some(ByUser) && actor == "rule" then Refused(UserResolvedGuard)
    else Done(Record(d, k, ReclassifiedRow(row, choice, note, at), StampLegs(d.legs, row, choice), actor,
      Reclassified(choice), None, note))
  }

  function DismissedRow(row: Pending, reason: string, redirect: bool, at: int): Pending {
    row.(state := Dismissed, dismissReason := Some(if redirect then "reclassified-internal" else reason),
         resolvedAt := Some(at), resolvedBy := Some(ByUser))
  }

  function ServeDismiss(d: Desk, k: nat, reason: string, actor: string, redirect: bool, at: int): Answer
    requires k < |d.rows|
  {
    Done(Record(d, k, DismissedRow(d.rows[k], reason, redirect, at), d.legs, actor,
                if redirect then Redirected else Dropped, None, if redirect then None else Some(reason)))
  }

  function Serve(d: Desk, call: Call): Answer {
    var k := RowAt(d.rows, call.id);
    if k == |d.rows| then Refused(NotFound)
    else match call
      case ResolveCall(_, choice, actor, note, rule, at) => ServeResolve(d, k, choice, actor, note, rule, at)
      case ReclassifyCall(_, choice, actor, note, at) => ServeReclassify(d, k, choice, actor, note, at)
      case DismissCall(_, reason, actor, redirect, at) => ServeDismiss(d, k, reason, actor, redirect, at)
  }

  /** A refused call raises before it writes anything. */
  function After(d: Desk, call: Call): Desk {
    match Serve(d, call) case Done(next) => next case Refused(_) => d
  }

  function Play(d: Desk, calls: seq<Call>): Desk
    decreases calls
  {
    if calls == [] then d else Play(After(d, calls[0]), calls[1..])
  }

  // ---- What a call can change ----

  predicate SamePlace(a: Pending, b: Pending) {
    && a.id == b.id && a.kind == b.kind && a.chain == b.chain
    && a.tx == b.tx && a.wallet == b.wallet && a.index == b.index && a.toWallet == b.toWallet
  }

  /** The rows of a table are told apart by id, and by the leg they are about. */
  ghost predicate Distinct(rows: seq<Pending>) {
    forall i, j :: 0 <= i < j < |rows| ==>
      rows[i].id != rows[j].id
        && (rows[i].wallet, rows[i].tx, rows[i].index) != (rows[j].wallet, rows[j].tx, rows[j].index)
  }

  /** No leg a row calls its outflow is an inflow, or linked to another leg. */
  ghost predicate OutflowsFlowOut(rows: seq<Pending>, legs: seq<Leg>) {
    forall i, k :: 0 <= i < |rows| && 0 <= k < |legs| && IsOutflowOf(legs[k], rows[i]) ==>
      !IsInflow(legs[k].event.kind) && legs[k].event.relocationSource.None?
  }

  /** A classified row has a choice its kind allows, and its outflow leg carries what the choice maps to. */
  ghost predicate RowKept(row: Pending, legs: seq<Leg>) {
    row.state == Classified ==>
      && row.choice.Some? && Allowed(row.kind, row.choice.value)
      && (OutflowAt(legs, row) < |legs| ==>
            legs[OutflowAt(legs, row)].event.resolution == Some(OutflowResolution(row.kind, row.choice.value)))
  }

  ghost predicate Kept(d: Desk) {
    && Distinct(d.rows) && OutflowsFlowOut(d.rows, d.legs)
    && forall i :: 0 <= i < |d.rows| ==> RowKept(d.rows[i], d.legs)
  }

  /** Stamping changes nothing that legs are found by. */
  predicate SameLeg(a: Leg, b: Leg) {
    && a.chain == b.chain && a.contract == b.contract
    && a.event == b.event.(resolution := a.event.resolution, relocationSource := a.event.relocationSource)
  }

  lemma {:induction false} FoundAlike(a: seq<Leg>, b: seq<Leg>, row: Pending, alike: Pending)
    requires |a| == |b| && (forall k :: 0 <= k < |a| ==> SameLeg(a[k], b[k])) && SamePlace(row, alike)
    ensures OutflowAt(a, row) == OutflowAt(b, alike)
  {
    if a != [] {
      assert SameLeg(a[0], b[0]);
      FoundAlike(a[1..], b[1..], row, alike);
    }
  }

  /** Stamping looks at nothing a decision changes. */
  lemma StampAlike(legs: seq<Leg>, row: Pending, alike: Pending, choice: Choice)
    requires SamePlace(row, alike) && Allowed(row.kind, choice)
    ensures StampLegs(legs, row, choice) == StampLegs(legs, alike, choice)
  {
    FoundAlike(legs, legs, row, alike);
    var o := OutflowAt(legs, row);
    if o < |legs| {
      InflowAlike(legs[o := Stamped(legs[o], OutflowResolution(row.kind, choice))], row, alike, legs[o].contract);
    }
  }

  lemma {:induction false} InflowAlike(legs: seq<Leg>, row: Pending, alike: Pending, contract: nat)
    requires SamePlace(row, alike)
    ensures InflowAt(legs, row, contract) == InflowAt(legs, alike, contract)
  {
    if legs != [] {
      InflowAlike(legs[1..], row, alike, contract);
    }
  }

  lemma StampSameLegs(legs: seq<Leg>, row: Pending, choice: Choice)
    requires Allowed(row.kind, choice)
    ensures forall k :: 0 <= k < |legs| ==> SameLeg(StampLegs(legs, row, choice)[k], legs[k])
  {
  }

  /** What StampLegs does, leg by leg. */
  lemma StampEffect(legs: seq<Leg>, row: Pending, choice: Choice)
    requires Allowed(row.kind, choice)
    ensures var after, o := StampLegs(legs, row, choice), OutflowAt(legs, row);
            && (forall k :: 0 <= k < |legs| && k != o && !IsInflow(legs[k].event.kind) ==> after[k] == legs[k])
            && (forall k :: 0 <= k < |legs| && !IsInflow(legs[k].event.kind) ==>
                  after[k].event.relocationSource == legs[k].event.relocationSource)
            && (o < |legs| && !IsInflow(legs[o].event.kind) ==>
                  after[o].event.resolution == Some(OutflowResolution(row.kind, choice)))
  {
    var o := OutflowAt(legs, row);
    if o < |legs| {
      var out := legs[o := Stamped(legs[o], OutflowResolution(row.kind, choice))];
      var i := InflowAt(out, row, legs[o].contract);
      assert i < |out| ==> IsInflow(out[i].event.kind) && out[i].event.kind == legs[i].event.kind;
    }
  }

  /** Stamping reaches the row's outflow leg and at most one other, an inflow leg of the row's. */
  lemma StampReach(legs: seq<Leg>, row: Pending, choice: Choice)
    requires Allowed(row.kind, choice)
    ensures var after, o := StampLegs(legs, row, choice), OutflowAt(legs, row);
            && (o == |legs| ==> after == legs)
            && (forall k :: 0 <= k < |legs| && k != o && after[k] != legs[k] ==>
                  o < |legs| && IsInflowOf(legs[k], row, legs[o].contract))
            && (forall j, k :: 0 <= j < k < |legs| && j != o && k != o ==> after[j] == legs[j] || after[k] == legs[k])
  {
  }

  /** Recording a row with its choice stamped keeps every row in order. */
  lemma RecordKeeps(d: Desk, k: nat, row: Pending, choice: Choice)
    requires Kept(d) && k < |d.rows| && SamePlace(row, d.rows[k]) && Allowed(row.kind, choice)
    requires row.state == Classified && row.choice == Some(choice)
    ensures var rows, legs := d.rows[k := row], StampLegs(d.legs, d.rows[k], choice);
            Distinct(rows) && OutflowsFlowOut(rows, legs) && forall i :: 0 <= i < |rows| ==> RowKept(rows[i], legs)
  {
    var was := d.rows[k];
    var rows, legs := d.rows[k := row], StampLegs(d.legs, was, choice);
    StampSameLegs(d.legs, was, choice);
    StampEffect(d.legs, was, choice);
    assert forall i :: 0 <= i < |rows| ==> SamePlace(rows[i], d.rows[i]);
    forall i, j | 0 <= i < |rows| && 0 <= j < |legs| && IsOutflowOf(legs[j], rows[i])
      ensures !IsInflow(legs[j].event.kind) && legs[j].event.relocationSource.None?
    {
      assert SameLeg(legs[j], d.legs[j]) && IsOutflowOf(d.legs[j], d.rows[i]);
    }
    forall i | 0 <= i < |rows| ensures RowKept(rows[i], legs) {
      FoundAlike(legs, d.legs, rows[i], d.rows[i]);
      var o := OutflowAt(d.legs, d.rows[i]);
      if o < |legs| {
        assert !IsInflow(d.legs[o].event.kind);
        if i != k {
          assert RowKept(d.rows[i], d.legs);
          assert !IsOutflowOf(d.legs[o], was);
        }
      }
    }
  }

  /** Dismissing stamps nothing and takes the row out of the classified ones. */
  lemma DropKeeps(d: Desk, k: nat, row: Pending)
    requires Kept(d) && k < |d.rows| && SamePlace(row, d.rows[k]) && row.state == Dismissed
    ensures var rows := d.rows[k := row];
            Distinct(rows) && OutflowsFlowOut(rows, d.legs) && forall i :: 0 <= i < |rows| ==> RowKept(rows[i], d.legs)
  {
    var rows := d.rows[k := row];
    assert forall i :: 0 <= i < |rows| ==> SamePlace(rows[i], d.rows[i]);
    forall i | 0 <= i < |rows| ensures RowKept(rows[i], d.legs) {
      assert RowKept(d.rows[i], d.legs);
    }
    forall i, j | 0 <= i < |rows| && 0 <= j < |d.legs| && IsOutflowOf(d.legs[j], rows[i])
      ensures !IsInflow(d.legs[j].event.kind) && d.legs[j].event.relocationSource.None?
    {
      assert IsOutflowOf(d.legs[j], d.rows[i]);
    }
  }

  lemma AfterKeeps(d: Desk, call: Call)
    requires Kept(d)
    ensures Kept(After(d, call))
  {
    var k := RowAt(d.rows, call.id);
    if k < |d.rows| && Serve(d, call).Done? {
      match call {
        case ResolveCall(_, choice, actor, note, rule, at) =>
          RecordKeeps(d, k, ResolvedRow(d.rows[k], choice, note, rule, at), choice);
        case ReclassifyCall(_, choice, actor, note, at) =>
          RecordKeeps(d, k, ReclassifiedRow(d.rows[k], choice, note, at), choice);
        case DismissCall(_, reason, actor, redirect, at) =>
          DropKeeps(d, k, DismissedRow(d.rows[k], reason, redirect, at));
      }
    }
  }

  // ---- Whole histories ----

  /** Over any calls, refused ones included, a classified row has a choice its kind allows and its outflow leg
      carries what that choice maps to. */
  lemma {:induction false} PlayKeeps(d: Desk, calls: seq<Call>)
    requires Kept(d)
    ensures Kept(Play(d, calls))
    decreases calls
  {
    if calls != [] {
      AfterKeeps(d, calls[0]);
      PlayKeeps(After(d, calls[0]), calls[1..]);
    }
  }

  /** Calls edit rows in place. */
  lemma AfterSameRows(d: Desk, call: Call, i: nat)
    requires i < |d.rows|
    ensures |After(d, call).rows| == |d.rows| && SamePlace(After(d, call).rows[i], d.rows[i])
    ensures RowAt(d.rows, call.id) != i ==> After(d, call).rows[i] == d.rows[i]
  {
  }

  /** A dismissed row is never left: it stays dismissed, on the choice it had. */
  lemma {:induction false} DismissedForGood(d: Desk, calls: seq<Call>, i: nat)
    requires i < |d.rows| && d.rows[i].state == Dismissed
    ensures i < |Play(d, calls).rows| && Play(d, calls).rows[i].id == d.rows[i].id
    ensures Play(d, calls).rows[i].state == Dismissed && Play(d, calls).rows[i].choice == d.rows[i].choice
    decreases calls
  {
    if calls != [] {
      AfterSameRows(d, calls[0], i);
      DismissedForGood(After(d, calls[0]), calls[1..], i);
    }
  }

  function About(id: nat): Entry -> bool {
    (e: Entry) => e.pending == id
  }

  /** The entries lead from one snapshot to another, each starting where the one before it ended. */
  ghost predicate Leads(from: Snapshot, trail: seq<Entry>, to: Snapshot)
    decreases trail
  {
    if trail == [] then from == to else trail[0].before == from && Leads(trail[0].after, trail[1..], to)
  }

  lemma {:induction false} LeadsOn(from: Snapshot, a: seq<Entry>, mid: Snapshot, b: seq<Entry>, to: Snapshot)
    requires Leads(from, a, mid) && Leads(mid, b, to)
    ensures Leads(from, a + b, to)
    decreases a
  {
    if a == [] {
      assert a + b == b;
    } else {
      LeadsOn(a[0].after, a[1..], mid, b, to);
      assert (a + b)[0] == a[0] && (a + b)[1..] == a[1..] + b;
    }
  }

  /** What one call adds to the log leads from each row as it was to the row as it is. */
  lemma AfterLogs(d: Desk, call: Call, i: nat) returns (added: seq<Entry>)
    requires Distinct(d.rows) && i < |d.rows|
    ensures Trailed(d, After(d, call), i, added)
  {
    var next := After(d, call);
    if next.audit == d.audit {
      added := [];
    } else {
      var k := RowAt(d.rows, call.id);
      added := [next.audit[|d.audit|]];
      assert added[0].pending == d.rows[k].id && added[0].before == Snap(d.rows[k])
             && added[0].after == Snap(next.rows[k]);
      assert added[1..] == [];
    }
  }

  /** From one desk to another the log grew by these entries, and those about row i lead from the row as it
      was to the row as it is. */
  ghost predicate Trailed(was: Desk, now: Desk, i: nat, added: seq<Entry>) {
    && i < |was.rows| && i < |now.rows| && now.rows[i].id == was.rows[i].id
    && now.audit == was.audit + added
    && Leads(Snap(was.rows[i]), Filter(added, About(was.rows[i].id)), Snap(now.rows[i]))
  }

  lemma TrailsJoin(a: Desk, b: Desk, c: Desk, i: nat, first: seq<Entry>, rest: seq<Entry>)
    requires Trailed(a, b, i, first) && Trailed(b, c, i, rest)
    ensures Trailed(a, c, i, first + rest)
  {
    AboutJoin(a.rows[i].id, Snap(a.rows[i]), first, Snap(b.rows[i]), rest, Snap(c.rows[i]));
    assert a.audit + first + rest == a.audit + (first + rest);
  }

  lemma AboutJoin(id: nat, from: Snapshot, first: seq<Entry>, mid: Snapshot, rest: seq<Entry>, to: Snapshot)
    requires Leads(from, Filter(first, About(id)), mid) && Leads(mid, Filter(rest, About(id)), to)
    ensures Leads(from, Filter(first + rest, About(id)), to)
  {
    FilterAppend(first, rest, About(id));
    LeadsOn(from, Filter(first, About(id)), mid, Filter(rest, About(id)), to);
  }

  /** The log is only ever appended to, and the entries about a row chain: each starts where the one before it
      ended, the first at the row as it was, and the last ends at the row as it is. */
  lemma {:induction false} AuditTrail(d: Desk, calls: seq<Call>, i: nat) returns (added: seq<Entry>)
    requires Distinct(d.rows) && i < |d.rows|
    ensures Trailed(d, Play(d, calls), i, added)
    decreases calls
  {
    if calls == [] {
      added := [];
    } else {
      var next := After(d, calls[0]);
      var first := AfterLogs(d, calls[0], i);
      AfterDistinct(d, calls[0]);
      var rest := AuditTrail(next, calls[1..], i);
      added := first + rest;
      TrailsJoin(d, next, Play(next, calls[1..]), i, first, rest);
    }
  }

  lemma AfterDistinct(d: Desk, call: Call)
    requires Distinct(d.rows)
    ensures Distinct(After(d, call).rows)
  {
    forall i, j | 0 <= i < j < |d.rows|
      ensures After(d, call).rows[i].id != After(d, call).rows[j].id
      ensures (After(d, call).rows[i].wallet, After(d, call).rows[i].tx, After(d, call).rows[i].index)
           != (After(d, call).rows[j].wallet, After(d, call).rows[j].tx, After(d, call).rows[j].index)
    {
      AfterSameRows(d, call, i);
      AfterSameRows(d, call, j);
    }
  }

  // ---- What the lot engine then does ----

  function BookedAs(kind: PendingKind, choice: Choice): Treatment {
    match choice
    case Sale | Payment => Dispose
    case Gift => if kind == ExternalOutflow then GiveAway else Nothing
    case Loan => Lend
    case _ => Nothing
  }

  /** The engine books a classified row's outflow as the choice says: a sale or payment is disposed of, a gift
      outside is given away, a loan is lent, and what stays inside is left to the inflow leg. */
  lemma ChoiceIsBooked(d: Desk, calls: seq<Call>, i: nat)
    requires Kept(d) && i < |d.rows|
    ensures var now := Play(d, calls);
            i < |now.rows| && (now.rows[i].state == Classified && OutflowAt(now.legs, now.rows[i]) < |now.legs| ==>
              && now.rows[i].choice.Some?
              && TreatmentOf(now.legs[OutflowAt(now.legs, now.rows[i])].event)
                 == BookedAs(now.rows[i].kind, now.rows[i].choice.value))
  {
    PlayKeeps(d, calls);
    PlayKeepsPlaces(d, calls);
    var now := Play(d, calls);
    assert RowKept(now.rows[i], now.legs);
    var o := OutflowAt(now.legs, now.rows[i]);
    if o < |now.legs| {
      assert now.legs[o].event.relocationSource.None?;
    }
  }

  /** The inflow leg agrees with the choice: linked and stamped like the outflow when lots move along with it,
      and free of any stamp when it is an acquisition of its own. */
  ghost predicate InflowAgrees(leg: Leg, kind: PendingKind, choice: Choice) {
    if StampsInflow(kind, choice) then
      leg.event.resolution == Some(OutflowResolution(kind, choice)) && leg.event.relocationSource.Some?
    else leg.event.resolution.None?
  }

  lemma {:induction false} InflowAtSame(a: seq<Leg>, b: seq<Leg>, row: Pending, contract: nat)
    requires |a| == |b| && forall k :: 0 <= k < |a| ==> SameLeg(a[k], b[k])
    ensures InflowAt(a, row, contract) == InflowAt(b, row, contract)
  {
    if a != [] {
      assert SameLeg(a[0], b[0]);
      InflowAtSame(a[1..], b[1..], row, contract);
    }
  }

  /** The call puts a choice on its row: a resolve or reclassification that is neither refused nor a repeat. */
  predicate Writes(d: Desk, call: Call) {
    !call.DismissCall? && Serve(d, call).Done? && After(d, call).audit != d.audit
  }

  /** The row a call is about, and where its legs are. */
  function RowOf(d: Desk, call: Call): Pending
    requires Writes(d, call)
  {
    d.rows[RowAt(d.rows, call.id)]
  }

  predicate LegsFound(d: Desk, row: Pending, o: nat, i: nat) {
    o == OutflowAt(d.legs, row) < |d.legs| && i == InflowAt(d.legs, row, d.legs[o].contract) < |d.legs|
  }

  /** What a call that writes a choice does to its row's legs. */
  lemma WritesStamps(d: Desk, call: Call, o: nat, i: nat)
    requires Kept(d) && Writes(d, call) && LegsFound(d, RowOf(d, call), o, i)
    ensures o != i && Allowed(RowOf(d, call).kind, call.choice)
    ensures var row, resolution := RowOf(d, call), OutflowResolution(RowOf(d, call).kind, call.choice);
            var out := d.legs[o := Stamped(d.legs[o], resolution)];
            After(d, call).legs
              == if StampsInflow(row.kind, call.choice)
                 then out[i := Linked(out[i], resolution, d.legs[o].event.id)]
                 else out
  {
    var row := RowOf(d, call);
    var out := d.legs[o := Stamped(d.legs[o], OutflowResolution(row.kind, call.choice))];
    assert IsOutflowOf(d.legs[o], row) && !IsInflow(d.legs[o].event.kind);
    InflowAtSame(d.legs, out, row, d.legs[o].contract);
  }

  /** Writing a choice, by whichever call, leaves the inflow leg in agreement exactly when the choice stamps it
      or nothing had stamped it before: a stamp is overwritten, never taken off. */
  lemma InflowAgreesIff(d: Desk, call: Call, o: nat, i: nat)
    requires Kept(d) && Writes(d, call) && LegsFound(d, RowOf(d, call), o, i)
    ensures |After(d, call).legs| == |d.legs|
    ensures InflowAgrees(After(d, call).legs[i], RowOf(d, call).kind, call.choice)
            <==> StampsInflow(RowOf(d, call).kind, call.choice) || d.legs[i].event.resolution.None?
  {
    WritesStamps(d, call, o, i);
  }

  /** Automation: a resolve made by a rule, or any call in the name of one of the automated actors. */
  predicate Automated(call: Call, bots: set<string>) {
    call.actor in bots || (call.ResolveCall? && call.rule.Some?)
  }

  /** What automation may do to a row the user has classified: dismiss it in any case, change its choice to
      another one its kind allows by resolving, and by reclassifying unless it goes by the name "rule". */
  lemma AutomationOverrulesIff(d: Desk, call: Call, bots: set<string>)
    requires Automated(call, bots)
    requires var k := RowAt(d.rows, call.id);
             k < |d.rows| && d.rows[k].state == Classified && d.rows[k].resolvedBy == Some(ByUser)
    ensures var k := RowAt(d.rows, call.id); var row := d.rows[k];
            && |After(d, call).rows| == |d.rows|
            && (After(d, call).rows[k].choice != row.choice <==>
                  && !call.DismissCall? && Allowed(row.kind, call.choice) && row.choice != Some(call.choice)
                  && (call.ResolveCall? || call.actor != "rule"))
            && (After(d, call).rows[k].state != Classified <==> call.DismissCall?)
  {
  }

  /** Reclassifications, and nothing else, in the name of one of the automated actors. */
  ghost predicate OnlyReclassified(calls: seq<Call>, bots: set<string>) {
    forall call :: call in calls ==> call.ReclassifyCall? && call.actor in bots
  }

  /** The row stands as the user decided it. */
  predicate StandsAs(d: Desk, id: nat, choice: Choice) {
    var k := RowAt(d.rows, id);
    && k < |d.rows| && d.rows[k].state == Classified && d.rows[k].resolvedBy == Some(ByUser)
    && d.rows[k].choice == Some(choice)
  }

  lemma {:induction false} SameRowAt(a: seq<Pending>, b: seq<Pending>, id: nat)
    requires |a| == |b| && forall k :: 0 <= k < |a| ==> a[k].id == b[k].id
    ensures RowAt(a, id) == RowAt(b, id)
  {
    if a != [] {
      assert a[0].id == b[0].id;
      SameRowAt(a[1..], b[1..], id);
    }
  }

  lemma GuardHolds(d: Desk, call: Call, id: nat, choice: Choice)
    requires call.ReclassifyCall? && call.actor == "rule" && StandsAs(d, id, choice)
    ensures StandsAs(After(d, call), id, choice)
  {
    SameRowAt(After(d, call).rows, d.rows, id);
  }

  lemma {:induction false} GuardHoldsThroughout(d: Desk, calls: seq<Call>, id: nat, choice: Choice)
    requires OnlyReclassified(calls, {"rule"}) && StandsAs(d, id, choice)
    ensures StandsAs(Play(d, calls), id, choice)
    decreases calls
  {
    if calls != [] {
      assert calls[0] in calls;
      GuardHolds(d, calls[0], id, choice);
      GuardHoldsThroughout(After(d, calls[0]), calls[1..], id, choice);
    }
  }

  function Another(choice: Choice): Choice {
    if choice == Sale then Gift else Sale
  }

  /** The guard protects what the user decided from any run of automated reclassifications exactly when no
      automated actor goes by a name other than "rule". */
  lemma GuardProtectsIff(d: Desk, id: nat, choice: Choice, bots: set<string>)
    requires StandsAs(d, id, choice)
    ensures (forall calls :: OnlyReclassified(calls, bots) ==> StandsAs(Play(d, calls), id, choice))
            <==> bots <= {"rule"}
  {
    if bots <= {"rule"} {
      forall calls | OnlyReclassified(calls, bots) ensures StandsAs(Play(d, calls), id, choice) {
        GuardHoldsThroughout(d, calls, id, choice);
      }
    } else {
      var actor :| actor in bots && actor != "rule";
      var call := ReclassifyCall(id, Another(choice), actor, None, 0);
      assert OnlyReclassified([call], bots) && [call][1..] == [];
      SameRowAt(After(d, call).rows, d.rows, id);
      assert Play(d, [call]) == After(d, call);
    }
  }

  /** A user's gift that a rule makes a loan. */
  lemma RuleOverrulesUser()
    ensures var given := After(OPENED, AS_GIFT);
            var overruled := After(given, ResolveCall(1, Loan, "matcher", None, Some(4), 2));
            && |given.rows| == 1 && given.rows[0].state == Classified && given.rows[0].resolvedBy == Some(ByUser)
            && |overruled.rows| == 1 && overruled.rows[0].choice == Some(Loan)
               && overruled.rows[0].resolvedBy == Some(ByRule)
  {
    var given := After(OPENED, AS_GIFT);
    assert given.rows == [ResolvedRow(ASKED, Gift, None, None, 1)];
    assert RowAt(given.rows, 1) == 0;
  }

  /** A user's gift that the rule engine reclassifies as a loan, while the row still names the user. */
  lemma RuleEngineReclassifies()
    ensures var given := After(OPENED, AS_GIFT);
            var overruled := After(given, ReclassifyCall(1, Loan, "rule-engine", None, 2));
            && |given.rows| == 1 && given.rows[0].state == Classified && given.rows[0].resolvedBy == Some(ByUser)
            && |overruled.rows| == 1 && overruled.rows[0].state == Classified && overruled.rows[0].choice == Some(Loan)
               && overruled.rows[0].resolvedBy == Some(ByUser)
  {
    var given := After(OPENED, AS_GIFT);
    assert given.rows == [ResolvedRow(ASKED, Gift, None, None, 1)];
    assert RowAt(given.rows, 1) == 0;
  }

  /** The engine moves lots along with this leg. */
  predicate Carries(leg: Leg) {
    IsInflow(leg.event.kind) && leg.event.relocationSource.Some? && leg.event.resolution.Some?
    && IsRelocation(leg.event.resolution.value)
  }

  lemma StampKeepsCarrying(legs: seq<Leg>, row: Pending, choice: Choice, i: nat)
    requires Allowed(row.kind, choice) && i < |legs| && Carries(legs[i])
    requires OutflowAt(legs, row) < |legs| ==> !IsInflow(legs[OutflowAt(legs, row)].event.kind)
    ensures Carries(StampLegs(legs, row, choice)[i])
  {
  }

  lemma AfterKeepsCarrying(d: Desk, call: Call, i: nat)
    requires Kept(d) && i < |d.legs| && Carries(d.legs[i])
    ensures |After(d, call).legs| == |d.legs| && Carries(After(d, call).legs[i])
  {
    var k := RowAt(d.rows, call.id);
    if k < |d.rows| && !call.DismissCall? && Allowed(d.rows[k].kind, call.choice) {
      var o := OutflowAt(d.legs, d.rows[k]);
      assert o < |d.legs| ==> IsOutflowOf(d.legs[o], d.rows[k]);
      StampKeepsCarrying(d.legs, d.rows[k], call.choice, i);
    }
  }

  /** Once a leg carries lots along it does so for good, whatever is called. */
  lemma {:induction false} CarriesForGood(d: Desk, calls: seq<Call>, i: nat)
    requires Kept(d) && i < |d.legs| && Carries(d.legs[i])
    ensures |Play(d, calls).legs| == |d.legs| && Carries(Play(d, calls).legs[i])
    decreases calls
  {
    if calls != [] {
      AfterKeeps(d, calls[0]);
      AfterKeepsCarrying(d, calls[0], i);
      CarriesForGood(After(d, calls[0]), calls[1..], i);
    }
  }

  lemma AfterSameLegs(d: Desk, call: Call)
    ensures |After(d, call).legs| == |d.legs| && forall k :: 0 <= k < |d.legs| ==>
              SameLeg(After(d, call).legs[k], d.legs[k])
  {
    var k := RowAt(d.rows, call.id);
    if k < |d.rows| && !call.DismissCall? && Allowed(d.rows[k].kind, call.choice) {
      StampSameLegs(d.legs, d.rows[k], call.choice);
    }
  }

  /** Calls do not move rows or legs. */
  lemma {:induction false} PlayKeepsPlaces(d: Desk, calls: seq<Call>)
    ensures var now := Play(d, calls);
            && |now.rows| == |d.rows| && (forall k :: 0 <= k < |d.rows| ==> SamePlace(now.rows[k], d.rows[k]))
            && |now.legs| == |d.legs| && (forall k :: 0 <= k < |d.legs| ==> SameLeg(now.legs[k], d.legs[k]))
    decreases calls
  {
    if calls != [] {
      var next := After(d, calls[0]);
      AfterSameLegs(d, calls[0]);
      forall k | 0 <= k < |d.rows| ensures SamePlace(next.rows[k], d.rows[k]) {
        AfterSameRows(d, calls[0], k);
      }
      PlayKeepsPlaces(next, calls[1..]);
    }
  }

  lemma GiftCarries(d: Desk, gift: Call, o: nat, i: nat)
    requires Kept(d) && Writes(d, gift) && StampsInflow(RowOf(d, gift).kind, gift.choice)
    requires LegsFound(d, RowOf(d, gift), o, i)
    ensures |After(d, gift).legs| == |d.legs| && Carries(After(d, gift).legs[i])
  {
    WritesStamps(d, gift, o, i);
  }

  /** What a stale stamp costs: after a choice that moved lots along with the inflow, and any further calls, a
      row that ends up sold is sold by the engine and, from the inflow leg, moved as well. */
  lemma SoldAndMoved(d: Desk, gift: Call, calls: seq<Call>, o: nat, i: nat)
    requires Kept(d) && Writes(d, gift) && StampsInflow(RowOf(d, gift).kind, gift.choice)
    requires LegsFound(d, RowOf(d, gift), o, i)
    ensures var now, k := Play(After(d, gift), calls), RowAt(d.rows, gift.id);
            && |now.rows| == |d.rows| && |now.legs| == |d.legs| && TreatmentOf(now.legs[i].event) == Relocate
            && (now.rows[k].state == Classified && now.rows[k].choice == Some(Sale) ==>
                  TreatmentOf(now.legs[o].event) == Dispose)
  {
    var given, k := After(d, gift), RowAt(d.rows, gift.id);
    var now := Play(given, calls);
    GiftCarries(d, gift, o, i);
    AfterKeeps(d, gift);
    CarriesForGood(given, calls, i);
    AfterSameLegs(d, gift);
    AfterSameRows(d, gift, k);
    OutflowStays(d, [gift] + calls, k);
    assert ([gift] + calls)[1..] == calls && Play(d, [gift] + calls) == now;
    ChoiceIsBooked(given, calls, k);
  }

  lemma OutflowStays(d: Desk, calls: seq<Call>, k: nat)
    requires k < |d.rows|
    ensures var now := Play(d, calls);
            && |now.rows| == |d.rows| && |now.legs| == |d.legs|
            && OutflowAt(now.legs, now.rows[k]) == OutflowAt(d.legs, d.rows[k])
  {
    PlayKeepsPlaces(d, calls);
    FoundAlike(Play(d, calls).legs, d.legs, Play(d, calls).rows[k], d.rows[k]);
  }

  const DAY := Instant(Date(2026, 1, 1), 0)
  const SENT := Leg(Event(1, 10, 5, DAY, 1, 0, TransferOut, "", Some(7), 3, Some(30), None, None), 0, 7)
  const GOT := Leg(Event(2, 20, 5, DAY, 1, 0, TransferIn, "", Some(7), 3, Some(30), None, None), 0, 7)
  const ASKED := Pending(1, CrossEntity, 0, 5, 10, 0, Some(20), NeedsClassification, None, None, None, None, None, None)
  const OPENED := Desk([ASKED], [SENT, GOT], [])
  const AS_GIFT := ResolveCall(1, Gift, "user", None, None, 1)

  lemma OpenedLegs(row: Pending)
    requires SamePlace(row, ASKED)
    ensures OutflowAt([SENT, GOT], row) == 0 && InflowAt([SENT, GOT], row, 7) == 1
  {
    assert [SENT, GOT][1..] == [GOT] && [GOT][1..] == [];
    assert InflowAt([GOT], row, 7) == 0;
  }

  /** A transfer between entities that the user calls a gift and then, through either entry point, a sale. */
  lemma GiftThenSale(sale: Call)
    requires sale in {ResolveCall(1, Sale, "user", None, None, 2), ReclassifyCall(1, Sale, "user", None, 2)}
    ensures Kept(OPENED) && Writes(OPENED, AS_GIFT) && LegsFound(OPENED, RowOf(OPENED, AS_GIFT), 0, 1)
    ensures var now := Play(OPENED, [AS_GIFT, sale]);
            && |now.legs| == 2 && |now.rows| == 1 && now.rows[0].state == Classified && now.rows[0].choice == Some(Sale)
            && TreatmentOf(now.legs[0].event) == Dispose && TreatmentOf(now.legs[1].event) == Relocate
  {
    OpenedLegs(ASKED);
    var given := After(OPENED, AS_GIFT);
    assert given.rows == [ResolvedRow(ASKED, Gift, None, None, 1)];
    assert RowAt(given.rows, 1) == 0;
    var now := After(given, sale);
    assert now.rows[0].choice == Some(Sale);
    assert [AS_GIFT, sale][1..] == [sale] && [sale][1..] == [];
    assert Play(OPENED, [AS_GIFT, sale]) == Play(given, [sale]) == Play(now, []) == now;
    SoldAndMoved(OPENED, AS_GIFT, [sale], 0, 1);
  }

  // ---- As it runs ----

  class ResolveService {
    var rows: seq<Pending>
    var legs: seq<Leg>
    var audit: seq<Entry>

    function View(): Desk
      reads this
    {
      Desk(rows, legs, audit)
    }

    constructor (rows: seq<Pending>, legs: seq<Leg>)
      ensures View() == Desk(rows, legs, [])
    {
      this.rows, this.legs, audit := rows, legs, [];
    }

    method Resolve(id: nat, choice: Choice, actor: string, note: Option<string>, rule: Option<nat>, at: int)
      returns (refusal: Option<Refusal>)
      modifies this
      ensures View() == After(old(View()), ResolveCall(id, choice, actor, note, rule, at))
      ensures refusal == match Serve(old(View()),
              ResolveCall(id, choice, actor, note, rule, at)) case Done(_) => None case Refused(x) => Some(x)
    {
      var k := RowAt(rows, id);
      if k == |rows| {
        return Some(NotFound);
      }
      var row := rows[k];
      if row.state !in {NeedsClassification, Classified, Applied} {
        return Some(InvalidState);
      }
      if !Allowed(row.kind, choice) {
        return Some(InvalidChoice);
      }
      if row.choice == Some(choice) && row.state == Classified {
        return None;
      }
      var before := Snap(row);
      row := row.(choice := Some(choice), resolvedBy := Some(if rule.Some? then ByRule else ByUser),
        resolvedAt := Some(at),
                  state := Classified, note := note);
      if rule.Some? {
        row := row.(ruleId := rule);
      }
      StampAlike(legs, row, rows[k], choice);
      rows := rows[k := row];
      Stamp(row, choice);
      audit := audit + [Entry(id, actor, Resolved(choice), rule, note, before, Snap(row))];
      refusal := None;
    }

    method Stamp(row: Pending, choice: Choice)
      requires Allowed(row.kind, choice)
      modifies this`legs
      ensures legs == StampLegs(old(legs), row, choice)
    {
      var o := OutflowAt(legs, row);
      if o == |legs| {
        return;
      }
      var resolution := OutflowResolution(row.kind, choice);
      var contract, outflow := legs[o].contract, legs[o].event.id;
      legs := legs[o := Stamped(legs[o], resolution)];
      if StampsInflow(row.kind, choice) {
        var i := InflowAt(legs, row, contract);
        if i < |legs| {
          legs := legs[i := Linked(legs[i], resolution, outflow)];
        }
      }
    }

    method Reclassify(id: nat, choice: Choice, actor: string, note: Option<string>, at: int)
      returns (refusal: Option<Refusal>)
      modifies this
      ensures View() == After(old(View()), ReclassifyCall(id, choice, actor, note, at))
      ensures refusal == match Serve(old(View()),
              ReclassifyCall(id, choice, actor, note, at)) case Done(_) => None case Refused(x) => Some(x)
    {
      var k := RowAt(rows, id);
      if k == |rows| {
        return Some(NotFound);
      }
      var row := rows[k];
      if row.state !in {Classified, Applied} {
        return Some(InvalidState);
      }
      if !Allowed(row.kind, choice) {
        return Some(InvalidChoice);
      }
      if row.resolvedBy == Some(ByUser) && actor == "rule" {
        return Some(UserResolvedGuard);
      }
      var before := Snap(row);
      row := row.(choice := Some(choice), resolvedAt := Some(at), note := note);
      if row.state == Applied {
        row := row.(state := Classified);
      }
      StampAlike(legs, row, rows[k], choice);
      rows := rows[k := row];
      Stamp(row, choice);
      audit := audit + [Entry(id, actor, Reclassified(choice), None, note, before, Snap(row))];
      refusal := None;
    }

    method Dismiss(id: nat, reason: string, actor: string, redirect: bool, at: int) returns (refusal: Option<Refusal>)
      modifies this
      ensures View() == After(old(View()), DismissCall(id, reason, actor, redirect, at))
      ensures refusal == if RowAt(old(rows), id) == |old(rows)| then Some(NotFound) else None
    {
      var k := RowAt(rows, id);
      if k == |rows| {
        return Some(NotFound);
      }
      var before, row := Snap(rows[k]), DismissedRow(rows[k], reason, redirect, at);
      rows := rows[k := row];
      audit := audit + [Entry(id, actor, if redirect then Redirected else Dropped, None,
                              if redirect then None else Some(reason), before, Snap(row))];
      refusal := None;
    }
  }
}
