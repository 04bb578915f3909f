/** What every run keeps: quantity is conserved lot by lot and pool by pool, lots stay within their
    bounds, and the basis booked against a lot never drifts by more than half a unit per slice. */
module Conservation {
  import opened Decimals
  import opened Sequences
  import opened Lots
  import opened Disposals
  import opened Rounding
  import opened Events
  import opened Books

  // ---- Everything ever cut from a lot ----

  datatype Cut = Cut(lot: nat, taken: int, basis: int)

  function DisposalCuts(rows: seq<DisposalRow>): seq<Cut> {
    if rows == [] then [] else [Cut(rows[0].lot, rows[0].taken, rows[0].basis)] + DisposalCuts(rows[1..])
  }

  function GiftCuts(rows: seq<GiftRow>): seq<Cut> {
    if rows == [] then [] else [Cut(rows[0].lot, rows[0].taken, rows[0].basis)] + GiftCuts(rows[1..])
  }

  function SliceCuts(slices: seq<Slice>): seq<Cut> {
    if slices == [] then [] else [Cut(slices[0].lot.source, slices[0].taken, slices[0].basis)] + SliceCuts(slices[1..])
  }

  function Cuts(b: Books): seq<Cut> {
    DisposalCuts(b.disposals) + GiftCuts(b.gifts)
  }

  function CutQuantity(cuts: seq<Cut>, lot: nat): int {
    if cuts == [] then 0 else (if cuts[0].lot == lot then cuts[0].taken else 0) + CutQuantity(cuts[1..], lot)
  }

  function CutBasis(cuts: seq<Cut>, lot: nat): int {
    if cuts == [] then 0 else (if cuts[0].lot == lot then cuts[0].basis else 0) + CutBasis(cuts[1..], lot)
  }

  function CutCount(cuts: seq<Cut>, lot: nat): nat {
    if cuts == [] then 0 else (if cuts[0].lot == lot then 1 else 0) + CutCount(cuts[1..], lot)
  }

  lemma {:induction false} CutsAppend(a: seq<Cut>, b: seq<Cut>, lot: nat)
    ensures CutQuantity(a + b, lot) == CutQuantity(a, lot) + CutQuantity(b, lot)
    ensures CutBasis(a + b, lot) == CutBasis(a, lot) + CutBasis(b, lot)
    ensures CutCount(a + b, lot) == CutCount(a, lot) + CutCount(b, lot)
  {
    if a == [] {
      assert a + b == b;
    } else {
      CutsAppend(a[1..], b, lot);
      assert (a + b)[1..] == a[1..] + b;
    }
  }

  lemma {:induction false} DisposalCutsAppend(a: seq<DisposalRow>, b: seq<DisposalRow>)
    ensures DisposalCuts(a + b) == DisposalCuts(a) + DisposalCuts(b)
  {
    if a == [] {
      assert a + b == b;
    } else {
      DisposalCutsAppend(a[1..], b);
      assert (a + b)[1..] == a[1..] + b;
    }
  }

  lemma {:induction false} GiftCutsAppend(a: seq<GiftRow>, b: seq<GiftRow>)
    ensures GiftCuts(a + b) == GiftCuts(a) + GiftCuts(b)
  {
    if a == [] {
      assert a + b == b;
    } else {
      assert (a + b)[0] == a[0] && (a + b)[1..] == a[1..] + b;
      GiftCutsAppend(a[1..], b);
    }
  }

  /** The lines of a disposal, and the rows of a gift, cut what their slices cut. */
  lemma {:induction false} DisposalRowsCut(e: Event, lines: seq<Line>, slices: seq<Slice>)
    requires |lines| == |slices|
    requires forall i :: 0 <= i < |slices| ==>
               lines[i].lot == slices[i].lot && lines[i].taken == slices[i].taken && lines[i].basis == slices[i].basis
    ensures DisposalCuts(DisposalRows(e, lines)) == SliceCuts(slices)
  {
    if slices != [] {
      DisposalRowsCut(e, lines[1..], slices[1..]);
      assert DisposalRows(e, lines)[1..] == DisposalRows(e, lines[1..]);
    }
  }

  lemma {:induction false} GiftRowsCut(e: Event, slices: seq<Slice>)
    ensures GiftCuts(GiftRows(e, slices)) == SliceCuts(slices)
  {
    if slices != [] {
      GiftRowsCut(e, slices[1..]);
      assert GiftRows(e, slices)[1..] == GiftRows(e, slices[1..]);
    }
  }

  lemma {:induction false} SliceCutsTake(slices: seq<Slice>, lot: nat)
    ensures CutQuantity(SliceCuts(slices), lot) == TakeOf(slices, lot)
  {
    if slices != [] {
      SliceCutsTake(slices[1..], lot);
    }
  }

  lemma {:induction false} UntouchedCuts(slices: seq<Slice>, lot: nat)
    requires !Touches(slices, lot)
    ensures var cuts := SliceCuts(slices); CutQuantity(cuts, lot) == CutBasis(cuts, lot) == CutCount(cuts, lot) == 0
  {
    if slices != [] {
      assert slices[0].lot.source != lot;
      forall i | 0 <= i < |slices[1..]| ensures slices[1..][i].lot.source != lot {
        assert slices[1..][i] == slices[i + 1];
      }
      UntouchedCuts(slices[1..], lot);
    }
  }

  ghost predicate DistinctSlices(slices: seq<Slice>) {
    forall j, k :: 0 <= j < k < |slices| ==> slices[j].lot.source != slices[k].lot.source
  }

  /** Among distinct lots, what is cut from a lot is its one slice. */
  lemma {:induction false} OneCut(slices: seq<Slice>, i: nat)
    requires i < |slices| && DistinctSlices(slices)
    ensures var lot := slices[i].lot.source;
            && CutQuantity(SliceCuts(slices), lot) == slices[i].taken
            && CutBasis(SliceCuts(slices), lot) == slices[i].basis
            && CutCount(SliceCuts(slices), lot) == 1
  {
    if i == 0 {
      forall k | 0 <= k < |slices[1..]| ensures slices[1..][k].lot.source != slices[0].lot.source {
        assert slices[1..][k] == slices[k + 1];
      }
      UntouchedCuts(slices[1..], slices[0].lot.source);
    } else {
      OneCut(slices[1..], i - 1);
    }
  }

  // ---- Selections ----

  function Origin(): Lot -> nat {
    (lot: Lot) => lot.source
  }

  /** A cut carries the pro-rata basis of what it takes, to the nearest unit. */
  ghost predicate NearProRata(basis: int, quantity: int, taken: int, booked: int) {
    Abs(Error2(basis, quantity, taken, booked)) <= quantity
  }

  /** What a covered selection is made of. */
  ghost predicate Cutting(lots: seq<Lot>, wallet: nat, pool: Pool, slices: seq<Slice>) {
    && DistinctSlices(slices)
    && forall i :: 0 <= i < |slices| ==>
         (slices[i].lot in lots && InPool(wallet, pool)(slices[i].lot)
          && 0 < slices[i].taken <= slices[i].lot.remaining
          && NearProRata(slices[i].lot.basis, slices[i].lot.quantity, slices[i].taken, slices[i].basis))
  }

  lemma SliceNear(s: Slice)
    requires s.lot.quantity > 0 && s.basis == SliceBasis(s.lot, s.taken)
    ensures NearProRata(s.lot.basis, s.lot.quantity, s.taken, s.basis)
  {
    SliceError(s.lot.basis, s.lot.quantity, s.taken);
  }

  lemma SelectionCuts(lots: seq<Lot>, wallet: nat, pool: Pool, strategy: LotMethod, quantity: int)
    requires DistinctSources(lots)
    ensures var a := Select(lots, wallet, pool, strategy, quantity);
            a.Covered? ==> Cutting(lots, wallet, pool, a.slices) && Taken(a.slices) == Max(quantity, 0)
  {
    var found := Filter(lots, InPool(wallet, pool));
    var open := OpenLots(lots, wallet, pool);
    var ordered := OrderLots(strategy, open);
    SortMembers(found, OrderKey(Fifo));
    SortMembers(open, OrderKey(strategy));
    FilterDistinct(lots, InPool(wallet, pool), Origin());
    SortDistinct(found, OrderKey(Fifo), Origin());
    SortDistinct(open, OrderKey(strategy), Origin());
    ConsumeExact(ordered, quantity);
    if Consume(ordered, quantity).Covered? {
      var ss := Consume(ordered, quantity).slices;
      ConsumePrefix(ordered, quantity);
      forall i | 0 <= i < |ss| ensures ss[i].lot in lots && InPool(wallet, pool)(ss[i].lot) 
        && NearProRata(ss[i].lot.basis, ss[i].lot.quantity, ss[i].taken, ss[i].basis)
      {
        assert ordered[i] in open && ordered[i] in found;
        SliceNear(ss[i]);
      }
    }
  }

  // ---- The invariant ----

  /** One lot's account: bounds and conservation. */
  ghost predicate LotSound(lot: Lot, cuts: seq<Cut>) {
    && 0 <= lot.remaining <= lot.quantity
    && lot.quantity == lot.remaining + CutQuantity(cuts, lot.source)
  }

  ghost predicate HasSource(lots: seq<Lot>, source: nat) {
    exists i :: 0 <= i < |lots| && lots[i].source == source
  }

  ghost predicate CutsKnown(lots: seq<Lot>, cuts: seq<Cut>) {
    forall i :: 0 <= i < |cuts| ==> HasSource(lots, cuts[i].lot)
  }

  /** Every cut is positive and carries its pro-rata share of its lot's basis. */
  ghost predicate CutFair(lot: Lot, cut: Cut) {
    cut.lot == lot.source ==> 0 < cut.taken && NearProRata(lot.basis, lot.quantity, cut.taken, cut.basis)
  }

  ghost predicate CutsFair(lots: seq<Lot>, cuts: seq<Cut>) {
    forall k, i :: 0 <= k < |lots| && 0 <= i < |cuts| ==> CutFair(lots[k], cuts[i])
  }

  ghost predicate Accounted(lots: seq<Lot>, cuts: seq<Cut>) {
    && DistinctSources(lots)
    && CutsKnown(lots, cuts)
    && CutsFair(lots, cuts)
    && forall i :: 0 <= i < |lots| ==> LotSound(lots[i], cuts)
  }

  ghost predicate Sound(b: Books) {
    Accounted(b.lots, Cuts(b))
  }

  lemma {:induction false} NoCutsOnUnknown(lots: seq<Lot>, cuts: seq<Cut>, source: nat)
    requires CutsKnown(lots, cuts) && !HasSource(lots, source)
    ensures CutQuantity(cuts, source) == 0
  {
    if cuts != [] {
      assert HasSource(lots, cuts[0].lot);
      forall i | 0 <= i < |cuts[1..]| ensures HasSource(lots, cuts[1..][i].lot) {
        assert cuts[1..][i] == cuts[i + 1];
      }
      NoCutsOnUnknown(lots, cuts[1..], source);
    }
  }

  /** Cutting one slice keeps a lot's account in order. */
  lemma LotStaysSound(lot: Lot, cuts: seq<Cut>, slices: seq<Slice>)
    requires LotSound(lot, cuts) && DistinctSlices(slices)
    requires forall i :: 0 <= i < |slices| && slices[i].lot.source == lot.source ==>
               0 < slices[i].taken <= lot.remaining
    ensures LotSound(Reduced(lot, slices), cuts + SliceCuts(slices))
  {
    CutsAppend(cuts, SliceCuts(slices), lot.source);
    SliceCutsTake(slices, lot.source);
    if Touches(slices, lot.source) {
      var i :| 0 <= i < |slices| && slices[i].lot.source == lot.source;
      OneCut(slices, i);
    } else {
      UntouchedCuts(slices, lot.source);
    }
  }

  lemma {:induction false} DisposalCutsAt(rows: seq<DisposalRow>)
    ensures |DisposalCuts(rows)| == |rows|
    ensures forall i :: 0 <= i < |rows| ==> DisposalCuts(rows)[i].lot == rows[i].lot
  {
    if rows != [] {
      DisposalCutsAt(rows[1..]);
    }
  }

  lemma {:induction false} GiftCutsAt(rows: seq<GiftRow>)
    ensures |GiftCuts(rows)| == |rows|
    ensures forall i :: 0 <= i < |rows| ==> GiftCuts(rows)[i].lot == rows[i].lot
  {
    if rows != [] {
      GiftCutsAt(rows[1..]);
    }
  }

  lemma {:induction false} SliceCutsAt(slices: seq<Slice>)
    ensures |SliceCuts(slices)| == |slices|
    ensures forall i :: 0 <= i < |slices| ==>
              SliceCuts(slices)[i] == Cut(slices[i].lot.source, slices[i].taken, slices[i].basis)
  {
    if slices != [] {
      SliceCutsAt(slices[1..]);
    }
  }

  /** Deducting a selection and recording its cuts keeps every account in order. */
  lemma DeductAccounted(lots: seq<Lot>, cuts: seq<Cut>, wallet: nat, pool: Pool, slices: seq<Slice>)
    requires Accounted(lots, cuts) && Cutting(lots, wallet, pool, slices)
    ensures Accounted(Deduct(lots, slices), cuts + SliceCuts(slices))
  {
    var next, all := Deduct(lots, slices), cuts + SliceCuts(slices);
    forall i | 0 <= i < |next| ensures LotSound(next[i], all) {
      DeductedSound(lots, cuts, wallet, pool, slices, i);
    }
    forall i | 0 <= i < |all|
      ensures HasSource(next, all[i].lot)
      ensures forall k :: 0 <= k < |next| ==> CutFair(next[k], all[i])
    {
      CutKnownAndFair(lots, cuts, wallet, pool, slices, all[i]);
      var k :| 0 <= k < |lots| && lots[k].source == all[i].lot;
      assert next[k].source == lots[k].source;
      forall k | 0 <= k < |next| ensures CutFair(next[k], all[i]) {
        assert CutFair(lots[k], all[i]);
      }
    }
  }

  lemma DeductedSound(lots: seq<Lot>, cuts: seq<Cut>, wallet: nat, pool: Pool, slices: seq<Slice>, i: nat)
    requires Accounted(lots, cuts) && Cutting(lots, wallet, pool, slices) && i < |lots|
    ensures LotSound(Deduct(lots, slices)[i], cuts + SliceCuts(slices))
  {
    forall j | 0 <= j < |slices| && slices[j].lot.source == lots[i].source ensures slices[j].lot == lots[i] {
      var k :| 0 <= k < |lots| && lots[k] == slices[j].lot;
    }
    LotStaysSound(lots[i], cuts, slices);
  }

  lemma CutKnownAndFair(lots: seq<Lot>, cuts: seq<Cut>, wallet: nat, pool: Pool, slices: seq<Slice>, c: Cut)
    requires Accounted(lots, cuts) && Cutting(lots, wallet, pool, slices)
    requires c in cuts || c in SliceCuts(slices)
    ensures HasSource(lots, c.lot)
    ensures forall k :: 0 <= k < |lots| ==> CutFair(lots[k], c)
  {
    if c in cuts {
      var i :| 0 <= i < |cuts| && cuts[i] == c;
    } else {
      SliceCutsAt(slices);
      var i :| 0 <= i < |SliceCuts(slices)| && SliceCuts(slices)[i] == c;
      var k :| 0 <= k < |lots| && lots[k] == slices[i].lot;
    }
  }

  /** The rows of a disposal go between the two tables' cuts; no account notices. */
  lemma AccountedInserted(lots: seq<Lot>, a: seq<Cut>, b: seq<Cut>, c: seq<Cut>)
    requires Accounted(lots, a + b + c)
    ensures Accounted(lots, a + c + b)
  {
    var was, now := a + b + c, a + c + b;
    forall i | 0 <= i < |lots| ensures LotSound(lots[i], now) {
      assert LotSound(lots[i], was);
      CutsAppend(a + b, c, lots[i].source);
      CutsAppend(a, b, lots[i].source);
      CutsAppend(a + c, b, lots[i].source);
      CutsAppend(a, c, lots[i].source);
    }
    forall i | 0 <= i < |now|
      ensures HasSource(lots, now[i].lot)
      ensures forall k :: 0 <= k < |lots| ==> CutFair(lots[k], now[i])
    {
      assert now[i] in was;
      var j :| 0 <= j < |was| && was[j] == now[i];
      assert HasSource(lots, was[j].lot);
      forall k | 0 <= k < |lots| ensures CutFair(lots[k], now[i]) {
        assert CutFair(lots[k], was[j]);
      }
    }
  }

  /** A lot that no one has heard of starts with a clean account. */
  lemma AddLotAccounted(lots: seq<Lot>, cuts: seq<Cut>, lot: Lot)
    requires Accounted(lots, cuts) && !HasSource(lots, lot.source) && 0 <= lot.remaining == lot.quantity
    ensures Accounted(lots + [lot], cuts)
  {
    NoCutsOnUnknown(lots, cuts, lot.source);
    forall i | 0 <= i < |cuts|
      ensures HasSource(lots + [lot], cuts[i].lot)
      ensures cuts[i].lot != lot.source
    {
      assert HasSource(lots, cuts[i].lot);
      var k :| 0 <= k < |lots| && lots[k].source == cuts[i].lot;
      assert (lots + [lot])[k] == lots[k];
    }
  }

  lemma AcquireSound(reg: Registry, b: Books, e: Event)
    requires Sound(b)
    ensures ApplyAcquire(reg, b, e).Posted? ==> Sound(ApplyAcquire(reg, b, e).books)
  {
    match ApplyAcquire(reg, b, e) {
      case Raised =>
      case Posted(next) =>
        assert Cuts(next) == Cuts(b);
        if next.lots != b.lots {
          assert !HasSource(b.lots, e.id);
          AddLotAccounted(b.lots, Cuts(b), next.lots[|b.lots|]);
        }
    }
  }

  lemma PostDisposalSound(b: Books, e: Event, wallet: nat, pool: Pool, slices: seq<Slice>, strategy: LotMethod)
    requires Sound(b) && Cutting(b.lots, wallet, pool, slices)
    requires slices != [] ==> Taken(slices) > 0
    ensures Sound(PostDisposal(b, e, slices, strategy))
  {
    var lines := BuildLines(slices, ProceedsOf(e), e.occurredAt, strategy);
    if slices != [] {
      LinesKeepSlices(slices, Taken(slices), ProceedsOf(e), 0, e.occurredAt, strategy);
    }
    DisposalRowsCut(e, lines, slices);
    DisposalCutsAppend(b.disposals, DisposalRows(e, lines));
    DeductAccounted(b.lots, Cuts(b), wallet, pool, slices);
    AccountedInserted(Deduct(b.lots, slices), DisposalCuts(b.disposals), GiftCuts(b.gifts), SliceCuts(slices));
  }

  lemma PostGiftSound(b: Books, e: Event, wallet: nat, pool: Pool, slices: seq<Slice>)
    requires Sound(b) && Cutting(b.lots, wallet, pool, slices)
    ensures Sound(PostGift(b, e, slices))
  {
    GiftRowsCut(e, slices);
    GiftCutsAppend(b.gifts, GiftRows(e, slices));
    assert Cuts(PostGift(b, e, slices)) == Cuts(b) + SliceCuts(slices);
    DeductAccounted(b.lots, Cuts(b), wallet, pool, slices);
  }

  /** Moving a lot changes where it is and who owns it, never what it is worth. */
  lemma PostMoveSound(reg: Registry, b: Books, e: Event, from: nat, slices: seq<Slice>)
    requires Sound(b)
    ensures Sound(PostMove(reg, b, e, from, slices))
  {
    var next := PostMove(reg, b, e, from, slices);
    assert Cuts(next) == Cuts(b);
    SameAccounts(b.lots, next.lots, Cuts(b));
  }

  /** Where a lot is and who owns it is no part of its account. */
  lemma SameAccounts(before: seq<Lot>, after: seq<Lot>, cuts: seq<Cut>)
    requires Accounted(before, cuts) && |after| == |before|
    requires forall i :: 0 <= i < |before| ==>
               after[i] == before[i].(wallet := after[i].wallet, entity := after[i].entity,
                                      acquisition := after[i].acquisition)
    ensures Accounted(after, cuts)
  {
    forall i | 0 <= i < |cuts| ensures HasSource(after, cuts[i].lot) {
      assert HasSource(before, cuts[i].lot);
      var k :| 0 <= k < |before| && before[k].source == cuts[i].lot;
      assert after[k].source == before[k].source;
    }
    forall i | 0 <= i < |after| ensures LotSound(after[i], cuts) {
      assert LotSound(before[i], cuts);
    }
    forall k, i | 0 <= k < |after| && 0 <= i < |cuts| ensures CutFair(after[k], cuts[i]) {
      assert CutFair(before[k], cuts[i]);
    }
  }

  lemma FlagSound(b: Books, flagged: set<nat>)
    requires Sound(b)
    ensures Sound(b.(flagged := flagged))
  {
    assert Cuts(b.(flagged := flagged)) == Cuts(b);
  }

  lemma FailSound(b: Books, e: Event, reason: Reason, unmatched: Option<int>)
    requires Sound(b)
    ensures Sound(Fail(b, e, reason, unmatched))
  {
    assert Cuts(Fail(b, e, reason, unmatched)) == Cuts(b);
  }

  lemma DisposeSound(reg: Registry, b: Books, e: Event)
    requires Sound(b)
    ensures ApplyDispose(reg, b, e).Posted? && Sound(ApplyDispose(reg, b, e).books)
  {
    if !HasDisposal(b, e.id) && e.token.Some? {
      var pool, strategy := CanonicalPool(reg, e.token.value), MethodFor(reg, e);
      SelectionCuts(b.lots, e.wallet, pool, strategy, e.amount);
      SelectCovers(b.lots, e.wallet, pool, strategy, e.amount);
      match Select(b.lots, e.wallet, pool, strategy, e.amount) {
        case Insufficient(u) => FailSound(b, e, InsufficientLots, Some(u));
        case Covered(slices) => PostDisposalSound(b, e, e.wallet, pool, slices, strategy);
      }
    } else if !HasDisposal(b, e.id) {
      FailSound(b, e, MissingBasis, None);
    }
  }

  lemma GiftSound(reg: Registry, b: Books, e: Event)
    requires Sound(b)
    ensures ApplyGift(reg, b, e).Posted? && Sound(ApplyGift(reg, b, e).books)
  {
    if !HasRelocation(b, e.id) && e.token.Some? {
      var pool, strategy := CanonicalPool(reg, e.token.value), MethodFor(reg, e);
      SelectionCuts(b.lots, e.wallet, pool, strategy, e.amount);
      match Select(b.lots, e.wallet, pool, strategy, e.amount) {
        case Insufficient(u) => FailSound(b, e, InsufficientLots, Some(u));
        case Covered(slices) => PostGiftSound(b, e, e.wallet, pool, slices);
      }
    } else if !HasRelocation(b, e.id) {
      FailSound(b, e, MissingBasis, None);
    }
  }

  lemma MoveSound(reg: Registry, b: Books, e: Event)
    requires Sound(b)
    ensures ApplyRelocation(reg, b, e).Posted? ==> Sound(ApplyRelocation(reg, b, e).books)
  {
    if !HasRelocation(b, e.id) {
      match SourceEvent(reg, e) {
        case None => FailSound(b, e, MissingBasis, None);
        case Some(outflow) =>
          match e.token {
            case None => FlagSound(b, FlagGift(b, e).flagged);
            case Some(token) =>
              match Select(b.lots, outflow.wallet, CanonicalPool(reg, token), Fifo, e.amount) {
                case Insufficient(_) =>
                case Covered(slices) =>
                  var moved := PostMove(reg, b, e, outflow.wallet, slices);
                  PostMoveSound(reg, b, e, outflow.wallet, slices);
                  FlagSound(moved, FlagGift(moved, e).flagged);
              }
          }
      }
    }
  }

  lemma ApplySound(reg: Registry, b: Books, e: Event)
    requires Sound(b)
    ensures Apply(reg, b, e).Posted? ==> Sound(Apply(reg, b, e).books)
  {
    match TreatmentOf(e) {
      case Acquire => AcquireSound(reg, b, e);
      case Dispose => DisposeSound(reg, b, e);
      case Relocate => MoveSound(reg, b, e);
      case GiveAway => GiftSound(reg, b, e);
      case Lend => FlagSound(b, b.flagged + {e.id});
      case _ =>
    }
  }

  lemma {:induction false} RunSound(reg: Registry, b: Books, events: seq<Event>)
    requires Sound(b)
    ensures Run(reg, b, events).Posted? ==> Sound(Run(reg, b, events).books)
    decreases events
  {
    if events != [] {
      ApplySound(reg, b, events[0]);
      match Apply(reg, b, events[0]) {
        case Raised =>
        case Posted(next) => RunSound(reg, next, events[1..]);
      }
    }
  }

  /** Basis rounding over a whole run: after n slices, whichever disposals and gifts they served, the basis
      booked against a lot is within n half-units of its basis pro rata to the quantity consumed. */
  lemma {:induction false} BookedDrift(lot: Lot, cuts: seq<Cut>)
    requires forall i :: 0 <= i < |cuts| ==> CutFair(lot, cuts[i])
    ensures Abs(Error2(lot.basis, lot.quantity, CutQuantity(cuts, lot.source), CutBasis(cuts, lot.source)))
         <= CutCount(cuts, lot.source) * lot.quantity
  {
    if cuts != [] {
      var rest := cuts[1..];
      BookedDrift(lot, rest);
      if cuts[0].lot == lot.source {
        assert CutFair(lot, cuts[0]);
        ErrorAdds(lot.basis, lot.quantity, cuts[0].taken, cuts[0].basis, CutQuantity(rest, lot.source),
          CutBasis(rest, lot.source));
        assert (CutCount(rest, lot.source) + 1) * lot.quantity
               == CutCount(rest, lot.source) * lot.quantity + lot.quantity;
      }
    }
  }
}
