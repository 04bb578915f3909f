/** What comes first, in plain numbers, and what passes run in that order for: a wallet that has acquired enough
    before each sale is never short, however its events are listed. */
module Chronology {
  import opened Decimals
  import opened Sequences
  import opened Lots
  import opened Events
  import opened Books
  import opened Conservation
  import opened Flows
  import opened Passes
  import opened Repeats
  import opened Rebuilding
  import opened Guarantees
  import opened Posting

  // ---- The order ----

  /** Where an event stands, most significant number first. */
  function Stamp(e: Event): (s: seq<int>)
    ensures |s| == 7
  {
    [e.occurredAt.date.year, e.occurredAt.date.month, e.occurredAt.date.day, e.occurredAt.micros,
     e.block, e.eventSeq, e.id]
  }

  ghost predicate SmallerAt(a: seq<int>, b: seq<int>, k: nat) {
    k < |a| == |b| && a[k] < b[k] && forall i :: 0 <= i < k ==> a[i] == b[i]
  }

  /** The smaller number at the first place where the two events differ. */
  ghost predicate Before(a: Event, b: Event) {
    exists k: nat :: SmallerAt(Stamp(a), Stamp(b), k)
  }

  lemma BeforeIsLess(a: Event, b: Event)
    requires Before(a, b)
    ensures EventLe(a, b) && !EventLe(b, a)
  {
    var s, t := Stamp(a), Stamp(b);
    var k: nat :| SmallerAt(s, t, k);
    assert k in {0, 1, 2, 3, 4, 5, 6};
    assert k > 0 ==> s[0] == t[0];
    assert k > 1 ==> s[1] == t[1];
    assert k > 2 ==> s[2] == t[2];
    assert k > 3 ==> s[3] == t[3];
    assert k > 4 ==> s[4] == t[4];
    assert k > 5 ==> s[5] == t[5];
  }

  /** Where they first differ. */
  function Differ(s: seq<int>, t: seq<int>): (k: nat)
    requires |s| == |t| && s != t
    ensures k < |s| && s[k] != t[k] && forall i :: 0 <= i < k ==> s[i] == t[i]
  {
    if s[0] != t[0] then 0
    else
      assert s == [s[0]] + s[1..] && t == [t[0]] + t[1..];
      1 + Differ(s[1..], t[1..])
  }

  lemma StampsDiffer(a: Event, b: Event)
    requires Stamp(a) != Stamp(b)
    ensures Before(a, b) || Before(b, a)
  {
    var k := Differ(Stamp(a), Stamp(b));
    assert SmallerAt(Stamp(a), Stamp(b), k) || SmallerAt(Stamp(b), Stamp(a), k);
  }

  /** Of two events of different ids one comes before the other, and that is the order of the key. */
  lemma BeforeIff(a: Event, b: Event)
    requires a.id != b.id
    ensures EventLe(a, b) <==> Before(a, b)
  {
    assert Stamp(a)[6] != Stamp(b)[6];
    StampsDiffer(a, b);
    if Before(a, b) { BeforeIsLess(a, b); } else { BeforeIsLess(b, a); }
  }

  /** Each event of the list comes before all that follow it. */
  ghost predicate InTimeOrder(events: seq<Event>) {
    forall i, j :: 0 <= i < j < |events| ==> Before(events[i], events[j])
  }

  lemma SortedInTime(events: seq<Event>, p: Event -> bool)
    requires DistinctIds(events)
    ensures InTimeOrder(Sort(Filter(events, p), EventKey()))
  {
    var kept := Filter(events, p);
    var sorted := Sort(kept, EventKey());
    EventKeyTotal();
    SortSorted(kept, EventKey());
    FilterDistinct(events, p, (e: Event) => e.id);
    SortDistinct(kept, EventKey(), (e: Event) => e.id);
    forall i, j | 0 <= i < j < |sorted| ensures Before(sorted[i], sorted[j]) {
      assert EventKey()(sorted[i], sorted[j]);
      BeforeIff(sorted[i], sorted[j]);
    }
  }

  /** A wallet's pass takes its events by date and time of day, then block, place in the transaction and id. */
  lemma WalletInTime(reg: Registry, wallet: nat)
    requires DistinctIds(reg.events)
    ensures InTimeOrder(WalletEvents(reg, wallet))
    ensures forall e :: e in WalletEvents(reg, wallet) <==> e in reg.events && e.wallet == wallet
    ensures |WalletEvents(reg, wallet)| == |Filter(reg.events, OfWallet(wallet))|
  {
    SortedInTime(reg.events, OfWallet(wallet));
    SortMembers(Filter(reg.events, OfWallet(wallet)), EventKey());
  }

  /** So does a pass over several wallets in time order. */
  lemma ChronologyInTime(reg: Registry, wallets: seq<nat>)
    requires DistinctIds(reg.events)
    ensures InTimeOrder(ChronologicalEvents(reg, wallets))
    ensures forall e :: e in ChronologicalEvents(reg, wallets) <==> e in reg.events && e.wallet in wallets
  {
    SortedInTime(reg.events, OfWallets(wallets));
    ChronologicalMembers(reg, wallets);
  }

  // ---- What was there before a sale ----

  predicate Outgoing(e: Event) {
    TreatmentOf(e) in {Dispose, GiveAway}
  }

  /** What an event adds to a pool on paper. */
  function Signed(reg: Registry, e: Event, pool: Pool): int {
    if !InPoolOf(reg, e, pool) then 0
    else if TreatmentOf(e) == Acquire then e.amount
    else if Outgoing(e) then -Max(e.amount, 0)
    else 0
  }

  function Net(reg: Registry, events: seq<Event>, pool: Pool): int {
    if events == [] then 0 else Signed(reg, events[0], pool) + Net(reg, events[1..], pool)
  }

  ghost function EarlierOf(e: Event): Event -> bool {
    (f: Event) => f.wallet == e.wallet && Before(f, e)
  }

  /** What the wallet has acquired in the pool before the event, less what it has parted with: over the events
      as they are listed, in whatever order that is. */
  ghost function HeldBefore(reg: Registry, e: Event, pool: Pool): int {
    Net(reg, Filter(reg.events, EarlierOf(e)), pool)
  }

  lemma {:induction false} NetAppend(reg: Registry, a: seq<Event>, b: seq<Event>, pool: Pool)
    ensures Net(reg, a + b, pool) == Net(reg, a, pool) + Net(reg, b, pool)
  {
    if a == [] {
      assert a + b == b;
    } else {
      assert (a + b)[0] == a[0] && (a + b)[1..] == a[1..] + b;
      NetAppend(reg, a[1..], b, pool);
    }
  }

  lemma {:induction false} NetInsert(reg: Registry, e: Event, events: seq<Event>, le: (Event, Event) -> bool,
                                     pool: Pool)
    ensures Net(reg, Insert(e, events, le), pool) == Signed(reg, e, pool) + Net(reg, events, pool)
  {
    if events != [] && !le(e, events[0]) {
      NetInsert(reg, e, events[1..], le, pool);
    } else {
      assert ([e] + events)[1..] == events;
    }
  }

  lemma {:induction false} NetSort(reg: Registry, events: seq<Event>, le: (Event, Event) -> bool, pool: Pool)
    ensures Net(reg, Sort(events, le), pool) == Net(reg, events, pool)
  {
    if events != [] {
      NetSort(reg, events[1..], le, pool);
      NetInsert(reg, events[0], Sort(events[1..], le), le, pool);
    }
  }

  lemma {:induction false} EarlierIsPrefix(events: seq<Event>, k: nat)
    requires InTimeOrder(events) && k < |events|
    requires forall e :: e in events ==> e.wallet == events[k].wallet
    ensures Filter(events, EarlierOf(events[k])) == events[..k]
  {
    var p := EarlierOf(events[k]);
    forall f | f in events[..k] ensures p(f) {
      var i :| 0 <= i < k && events[i] == f;
    }
    forall f | f in events[k..] ensures !p(f) {
      var i :| 0 <= i < |events[k..]| && events[k..][i] == f;
      if p(f) {
        BeforeIsLess(f, events[k]);
        if i > 0 {
          assert Before(events[k], events[k + i]);
          BeforeIsLess(events[k], f);
        }
      }
    }
    assert events == events[..k] + events[k..];
    FilterAppend(events[..k], events[k..], p);
    FilterAll(events[..k], p);
    FilterNone(events[k..], p);
  }

  /** On paper a wallet holds before an event what the events run before it add up to. */
  lemma HeldIsPrefix(reg: Registry, wallet: nat, k: nat, pool: Pool)
    requires DistinctIds(reg.events) && k < |WalletEvents(reg, wallet)|
    ensures var events := WalletEvents(reg, wallet);
            HeldBefore(reg, events[k], pool) == Net(reg, events[..k], pool)
  {
    var events, mine := WalletEvents(reg, wallet), Filter(reg.events, OfWallet(wallet));
    WalletInTime(reg, wallet);
    var p := EarlierOf(events[k]);
    EarlierIsPrefix(events, k);
    EventKeyTotal();
    FilterSort(mine, EventKey(), p);
    assert events[k].wallet == wallet;
    FilterAgain(reg.events, OfWallet(wallet), p);
    NetSort(reg, Filter(reg.events, p), EventKey(), pool);
  }

  // ---- What a pass finds there ----

  /** An event that the books can take as it is: no relocation, an acquisition with a price, an owner and an
      amount, or a disposal or gift of a known token. */
  predicate Bookable(reg: Registry, e: Event) {
    && TreatmentOf(e) != Relocate
    && (TreatmentOf(e) == Acquire ==> Opens(reg, e) && e.amount >= 0)
    && (Outgoing(e) ==> e.token.Some?)
  }

  /** Every lot is in the one wallet. */
  ghost predicate AllHeldBy(lots: seq<Lot>, wallet: nat) {
    forall i :: 0 <= i < |lots| ==> lots[i].wallet == wallet
  }

  lemma {:induction false} InPoolIsBalance(lots: seq<Lot>, wallet: nat, pool: Pool)
    requires AllHeldBy(lots, wallet) && forall i :: 0 <= i < |lots| ==> 0 <= lots[i].remaining <= lots[i].quantity
    ensures Available(Filter(lots, InPool(wallet, pool))) == Balance(lots, pool)
  {
    if lots != [] {
      assert lots[0].wallet == wallet && 0 <= lots[0].remaining <= lots[0].quantity;
      forall i | 0 <= i < |lots[1..]|
        ensures lots[1..][i].wallet == wallet && 0 <= lots[1..][i].remaining <= lots[1..][i].quantity
      {
        assert lots[1..][i] == lots[i + 1];
      }
      InPoolIsBalance(lots[1..], wallet, pool);
      assert ([lots[0]] + Filter(lots[1..], OfPool(pool)))[1..] == Filter(lots[1..], OfPool(pool));
      assert ([lots[0]] + Filter(lots[1..], InPool(wallet, pool)))[1..] == Filter(lots[1..], InPool(wallet, pool));
    }
  }

  /** Where all lots are the wallet's a selection is covered exactly when the pool's balance covers it. */
  lemma CoveredByBalance(b: Books, wallet: nat, pool: Pool, strategy: LotMethod, quantity: int)
    requires Sound(b) && AllHeldBy(b.lots, wallet)
    ensures Select(b.lots, wallet, pool, strategy, quantity).Covered? <==> quantity <= Balance(b.lots, pool)
  {
    var open := OpenLots(b.lots, wallet, pool);
    SortMembers(open, OrderKey(strategy));
    forall i | 0 <= i < |b.lots| ensures 0 <= b.lots[i].remaining <= b.lots[i].quantity {
      assert LotSound(b.lots[i], Cuts(b));
    }
    InPoolIsBalance(b.lots, wallet, pool);
    AvailableSort(Filter(b.lots, InPool(wallet, pool)), OrderKey(Fifo));
    AvailableSort(open, OrderKey(strategy));
    ConsumeExact(OrderLots(strategy, open), quantity);
  }

  /** A disposal or gift not booked yet fails exactly when the balance does not cover it. */
  lemma OutgoingFailsIff(reg: Registry, b: Books, e: Event)
    requires Sound(b) && AllHeldBy(b.lots, e.wallet) && !HasMark(b, e) && Outgoing(e) && e.token.Some?
    ensures Apply(reg, b, e).Posted?
    ensures Apply(reg, b, e).books.failures == b.failures
            <==> e.amount <= Balance(b.lots, CanonicalPool(reg, e.token.value))
  {
    var pool := CanonicalPool(reg, e.token.value);
    CoveredByBalance(b, e.wallet, pool, MethodFor(reg, e), e.amount);
  }

  lemma AcquiringPosts(reg: Registry, b: Books, e: Event)
    requires TreatmentOf(e) == Acquire && Bookable(reg, e)
    ensures Apply(reg, b, e).Posted? && Apply(reg, b, e).books.failures == b.failures
  {
  }

  lemma IdlePosts(reg: Registry, b: Books, e: Event)
    requires TreatmentOf(e) in {Nothing, Wait, Lend}
    ensures Apply(reg, b, e).Posted? && Apply(reg, b, e).books.failures == b.failures
  {
  }

  lemma StaysInWallet(reg: Registry, b: Books, e: Event)
    requires AllHeldBy(b.lots, e.wallet) && TreatmentOf(e) != Relocate && Apply(reg, b, e).Posted?
    ensures AllHeldBy(Apply(reg, b, e).books.lots, e.wallet)
  {
    var lots := Apply(reg, b, e).books.lots;
    ApplyOpens(reg, b, e);
    if |lots| > |b.lots| {
      OpensWhole(reg, b, e);
    }
    OldLotsStay(reg, b, e);
  }

  lemma OldLotsStay(reg: Registry, b: Books, e: Event)
    requires TreatmentOf(e) != Relocate && Apply(reg, b, e).Posted?
    ensures var lots := Apply(reg, b, e).books.lots;
            |b.lots| <= |lots| && forall i :: 0 <= i < |b.lots| ==> lots[i].wallet == b.lots[i].wallet
  {
    match TreatmentOf(e) {
      case Dispose =>
        if e.token.Some? {
          SelectCovers(b.lots, e.wallet, CanonicalPool(reg, e.token.value), MethodFor(reg, e), e.amount);
        }
      case _ =>
    }
  }

  /** The balance moves as it does on paper, unless the event fails. */
  lemma MovesAsSigned(reg: Registry, b: Books, e: Event, pool: Pool)
    requires Sound(b) && Bookable(reg, e) && !HasMark(b, e) && AllHeldBy(b.lots, e.wallet)
    requires Apply(reg, b, e).Posted? && Apply(reg, b, e).books.failures == b.failures
    ensures Balance(Apply(reg, b, e).books.lots, pool) == Balance(b.lots, pool) + Signed(reg, e, pool)
  {
    ApplyFlows(reg, b, e, pool);
    if Outgoing(e) {
      OutgoingFailsIff(reg, b, e);
      CoveredByBalance(b, e.wallet, CanonicalPool(reg, e.token.value), MethodFor(reg, e), e.amount);
    }
  }

  // ---- The law ----

  /** What the events before it leave on paper covers what the k-th takes out. */
  predicate Covered(reg: Registry, events: seq<Event>, k: nat)
    requires k < |events|
  {
    Outgoing(events[k]) && events[k].token.Some? ==>
      events[k].amount <= Net(reg, events[..k], CanonicalPool(reg, events[k].token.value))
  }

  /** Events of one wallet, in the order of a pass. */
  ghost predicate Schedule(reg: Registry, wallet: nat, events: seq<Event>) {
    DistinctIds(events) && forall i :: 0 <= i < |events| ==> events[i].wallet == wallet && Bookable(reg, events[i])
  }

  /** After the first k events, none of which failed, the books hold what is due on paper. */
  ghost predicate OnTrack(reg: Registry, wallet: nat, events: seq<Event>, k: nat, b: Books) {
    && k <= |events| && Sound(b) && AllHeldBy(b.lots, wallet) && b.failures == []
    && (forall pool :: Balance(b.lots, pool) == Net(reg, events[..k], pool))
    && (forall j :: k <= j < |events| ==> !HasMark(b, events[j]))
  }

  lemma StepFailsIff(reg: Registry, wallet: nat, events: seq<Event>, k: nat, b: Books)
    requires Schedule(reg, wallet, events) && OnTrack(reg, wallet, events, k, b) && k < |events|
    ensures Apply(reg, b, events[k]).Posted?
    ensures Apply(reg, b, events[k]).books.failures == [] <==> Covered(reg, events, k)
  {
    var e := events[k];
    assert e.wallet == wallet && Bookable(reg, e) && !HasMark(b, e);
    if Outgoing(e) {
      OutgoingFailsIff(reg, b, e);
    } else if TreatmentOf(e) == Acquire {
      AcquiringPosts(reg, b, e);
    } else {
      IdlePosts(reg, b, e);
    }
  }

  lemma BalanceOnTrack(reg: Registry, wallet: nat, events: seq<Event>, k: nat, b: Books, pool: Pool)
    requires Schedule(reg, wallet, events) && OnTrack(reg, wallet, events, k, b) && k < |events|
    requires Apply(reg, b, events[k]).Posted? && Apply(reg, b, events[k]).books.failures == []
    ensures Balance(Apply(reg, b, events[k]).books.lots, pool) == Net(reg, events[..k + 1], pool)
  {
    var e := events[k];
    assert e.wallet == wallet && Bookable(reg, e) && !HasMark(b, e);
    MovesAsSigned(reg, b, e, pool);
    assert events[..k + 1] == events[..k] + [e];
    NetAppend(reg, events[..k], [e], pool);
    assert [e][1..] == [];
  }

  lemma StepOnTrack(reg: Registry, wallet: nat, events: seq<Event>, k: nat, b: Books)
    requires Schedule(reg, wallet, events) && OnTrack(reg, wallet, events, k, b) && k < |events|
    requires Apply(reg, b, events[k]).Posted? && Apply(reg, b, events[k]).books.failures == []
    ensures OnTrack(reg, wallet, events, k + 1, Apply(reg, b, events[k]).books)
  {
    var e := events[k];
    var next := Apply(reg, b, e).books;
    assert e.wallet == wallet && Bookable(reg, e);
    ApplySound(reg, b, e);
    StaysInWallet(reg, b, e);
    forall pool ensures Balance(next.lots, pool) == Net(reg, events[..k + 1], pool) {
      BalanceOnTrack(reg, wallet, events, k, b, pool);
    }
    forall j | k + 1 <= j < |events| ensures !HasMark(next, events[j]) {
      OthersLeaveNoMark(reg, b, e, events[j]);
    }
  }

  lemma Posts(reg: Registry, wallet: nat, events: seq<Event>, k: nat, b: Books)
    requires Schedule(reg, wallet, events) && k <= |events|
    ensures Run(reg, b, events[k..]).Posted?
  {
    var rest := events[k..];
    forall e | e in rest ensures Bookable(reg, e) {
      var i :| 0 <= i < |rest| && rest[i] == e;
      assert events[k + i] == e;
    }
    forall e, f | e in rest && f in rest && e.id == f.id ensures e == f {
      var i :| 0 <= i < |rest| && rest[i] == e;
      var j :| 0 <= j < |rest| && rest[j] == f;
      assert events[k + i] == e && events[k + j] == f;
    }
    PassPostsIff(reg, b, rest);
  }

  lemma {:induction false} RunsCleanIff(reg: Registry, wallet: nat, events: seq<Event>, k: nat, b: Books)
    requires Schedule(reg, wallet, events) && OnTrack(reg, wallet, events, k, b)
    ensures Run(reg, b, events[k..]).Posted?
    ensures Run(reg, b, events[k..]).books.failures == []
            <==> forall j :: k <= j < |events| ==> Covered(reg, events, j)
    decreases |events| - k
  {
    Posts(reg, wallet, events, k, b);
    if k < |events| {
      var next := Apply(reg, b, events[k]).books;
      StepFailsIff(reg, wallet, events, k, b);
      assert events[k..][1..] == events[k + 1..];
      if Covered(reg, events, k) {
        StepOnTrack(reg, wallet, events, k, b);
        RunsCleanIff(reg, wallet, events, k + 1, next);
      } else {
        RunSettles(reg, next, events[k + 1..]);
      }
    }
  }

  lemma WalletSchedule(reg: Registry, wallet: nat)
    requires DistinctIds(reg.events) && forall e :: e in reg.events && e.wallet == wallet ==> Bookable(reg, e)
    ensures Schedule(reg, wallet, WalletEvents(reg, wallet))
  {
    var events, mine := WalletEvents(reg, wallet), Filter(reg.events, OfWallet(wallet));
    WalletInTime(reg, wallet);
    FilterDistinct(reg.events, OfWallet(wallet), (e: Event) => e.id);
    SortDistinct(mine, EventKey(), (e: Event) => e.id);
    forall i | 0 <= i < |events| ensures events[i].wallet == wallet && Bookable(reg, events[i]) {
      assert events[i] in events;
    }
  }

  lemma CleanFromNothing(reg: Registry, wallet: nat, events: seq<Event>)
    requires Schedule(reg, wallet, events)
    ensures Run(reg, EMPTY, events).Posted?
    ensures Run(reg, EMPTY, events).books.failures == [] <==> forall j :: 0 <= j < |events| ==> Covered(reg, events, j)
  {
    EmptySound();
    assert forall pool :: Balance(EMPTY.lots, pool) == 0;
    assert events[..0] == [] && events[0..] == events;
    RunsCleanIff(reg, wallet, events, 0, EMPTY);
  }

  lemma CoveredIsHeld(reg: Registry, wallet: nat)
    requires DistinctIds(reg.events) && Schedule(reg, wallet, WalletEvents(reg, wallet))
    ensures var events := WalletEvents(reg, wallet);
            forall k :: 0 <= k < |events| && Outgoing(events[k]) ==>
              events[k].token.Some?
              && (Covered(reg, events, k)
                  <==> events[k].amount <= HeldBefore(reg, events[k], CanonicalPool(reg, events[k].token.value)))
  {
    var events := WalletEvents(reg, wallet);
    forall k | 0 <= k < |events| && Outgoing(events[k])
      ensures events[k].token.Some?
              && (Covered(reg, events, k)
                  <==> events[k].amount <= HeldBefore(reg, events[k], CanonicalPool(reg, events[k].token.value)))
    {
      assert Bookable(reg, events[k]);
      HeldIsPrefix(reg, wallet, k, CanonicalPool(reg, events[k].token.value));
    }
  }

  /** A pass from nothing over a wallet no lots are moved into or out of records no failure exactly when what the
      wallet acquired before each disposal or gift, less what it had parted with, covers it.  Before is a matter
      of dates and times alone: it makes no difference how the events are listed. */
  lemma NeverShortIff(reg: Registry, wallet: nat)
    requires DistinctIds(reg.events) && forall e :: e in reg.events && e.wallet == wallet ==> Bookable(reg, e)
    ensures Run(reg, EMPTY, WalletEvents(reg, wallet)).Posted?
    ensures Run(reg, EMPTY, WalletEvents(reg, wallet)).books.failures == []
            <==> forall e :: e in reg.events && e.wallet == wallet && Outgoing(e) ==>
                   e.token.Some? && e.amount <= HeldBefore(reg, e, CanonicalPool(reg, e.token.value))
  {
    WalletInTime(reg, wallet);
    WalletSchedule(reg, wallet);
    CleanFromNothing(reg, wallet, WalletEvents(reg, wallet));
    CoveredIsHeld(reg, wallet);
    CoveredAll(reg, wallet, WalletEvents(reg, wallet));
  }

  /** Index by index or event by event. */
  lemma CoveredAll(reg: Registry, wallet: nat, events: seq<Event>)
    requires forall e :: e in events <==> e in reg.events && e.wallet == wallet
    requires forall k :: 0 <= k < |events| && Outgoing(events[k]) ==>
               events[k].token.Some?
               && (Covered(reg, events, k)
                   <==> events[k].amount <= HeldBefore(reg, events[k], CanonicalPool(reg, events[k].token.value)))
    ensures (forall k :: 0 <= k < |events| ==> Covered(reg, events, k))
            <==> forall e :: e in reg.events && e.wallet == wallet && Outgoing(e) ==>
                   e.token.Some? && e.amount <= HeldBefore(reg, e, CanonicalPool(reg, e.token.value))
  {
    if forall k :: 0 <= k < |events| ==> Covered(reg, events, k) {
      forall e | e in reg.events && e.wallet == wallet && Outgoing(e)
        ensures e.token.Some? && e.amount <= HeldBefore(reg, e, CanonicalPool(reg, e.token.value))
      {
        assert e in events;
        var k :| 0 <= k < |events| && events[k] == e;
        assert Covered(reg, events, k);
      }
    } else {
      var k :| 0 <= k < |events| && !Covered(reg, events, k);
      assert events[k] in events;
    }
  }
}
