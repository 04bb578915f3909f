/** When a pass over events none of which relocates goes through, and that their order then does not matter. */
module Posting {
  import opened Sequences
  import opened Events
  import opened Books
  import opened Scopes
  import opened Replay
  import opened Passes
  import opened Rebuilding

  /** The table refuses the lot the event would open: its remaining quantity would be negative. */
  predicate Refused(reg: Registry, e: Event) {
    Opens(reg, e) && e.amount < 0
  }

  ghost predicate NoneRelocates(events: seq<Event>) {
    forall e :: e in events ==> TreatmentOf(e) != Relocate
  }

  /** One event for each id. */
  ghost predicate OneForEachId(events: seq<Event>) {
    forall e, f :: e in events && f in events && e.id == f.id ==> e == f
  }

  lemma PostsIff(reg: Registry, b: Books, e: Event)
    requires TreatmentOf(e) != Relocate
    ensures Apply(reg, b, e).Posted? <==> (Refused(reg, e) ==> HasLot(b, e.id))
  {
  }

  lemma LotsUntouched(reg: Registry, b: Books, e: Event, id: nat)
    requires Apply(reg, b, e).Posted? && e.id != id
    ensures HasLot(Apply(reg, b, e).books, id) == HasLot(b, id)
  {
    var next := Apply(reg, b, e).books;
    if HasLot(b, id) {
      ApplySettles(reg, b, e);
      LotsOutlast(b, next, id);
    } else if HasLot(next, id) {
      NewLotIsOpened(reg, b, e, id);
    }
  }

  /** A pass without relocations throws exactly on an acquisition of a negative amount that is not booked yet. */
  lemma {:induction false} PassPostsIff(reg: Registry, b: Books, events: seq<Event>)
    requires NoneRelocates(events) && OneForEachId(events)
    ensures Run(reg, b, events).Posted? <==> forall e :: e in events && Refused(reg, e) ==> HasLot(b, e.id)
    decreases events
  {
    if events != [] {
      var first, rest := events[0], events[1..];
      assert first in events && forall e :: e in rest ==> e in events;
      PostsIff(reg, b, first);
      if Apply(reg, b, first).Posted? {
        var next := Apply(reg, b, first).books;
        PassPostsIff(reg, next, rest);
        forall e | e in rest && Refused(reg, e) ensures HasLot(next, e.id) == HasLot(b, e.id) {
          if e.id != first.id {
            LotsUntouched(reg, b, first, e.id);
          }
        }
      }
    }
  }

  /** Two events of different pools, neither a relocation, commute without more: from any books that respect
      the pool's border, either both orders throw or both go through and leave the pool the same. */
  lemma OwnPoolsCommute(reg: Registry, key: Key, b: Books, e: Event, f: Event)
    requires KeyOf(reg, e) != KeyOf(reg, f) && NoneRelocates([e, f]) && e.id != f.id
    requires Local(reg, iset{key}, b) && Registered(reg, e) && Registered(reg, f)
    ensures Run(reg, b, [e, f]).Posted? <==> Run(reg, b, [f, e]).Posted?
    ensures Run(reg, b, [e, f]).Posted? ==>
              Project(reg, iset{key}, Run(reg, b, [e, f]).books) == Project(reg, iset{key}, Run(reg, b, [f, e]).books)
  {
    PassPostsIff(reg, b, [e, f]);
    PassPostsIff(reg, b, [f, e]);
    if Run(reg, b, [e, f]).Posted? {
      PoolsCommute(reg, key, b, e, f);
    }
  }

  lemma ChronologicalMembers(reg: Registry, wallets: seq<nat>)
    ensures forall e :: e in ChronologicalEvents(reg, wallets) <==> e in reg.events && e.wallet in wallets
  {
    SortMembers(Filter(reg.events, OfWallets(wallets)), EventKey());
  }

  /** Where nothing relocates the order of the wallets does not matter at all: wallet by wallet or in time order,
      either both passes throw or both go through and book the same in every pool. */
  lemma PipelineMatchesChronology(reg: Registry, wallets: seq<nat>)
    requires DistinctIds(reg.events) && NoneRelocates(reg.events)
    requires forall i, j :: 0 <= i < j < |wallets| ==> wallets[i] != wallets[j]
    ensures var first, second := Run(reg, EMPTY, PipelineEvents(reg, wallets)),
                                 Run(reg, EMPTY, ChronologicalEvents(reg, wallets));
            && (first.Posted? <==> second.Posted?)
            && (first.Posted? ==> forall key: Key :: key.wallet in wallets ==>
                  Project(reg, iset{key}, first.books) == Project(reg, iset{key}, second.books))
  {
    PipelineMembers(reg, wallets);
    ChronologicalMembers(reg, wallets);
    PassPostsIff(reg, EMPTY, PipelineEvents(reg, wallets));
    PassPostsIff(reg, EMPTY, ChronologicalEvents(reg, wallets));
    if Run(reg, EMPTY, PipelineEvents(reg, wallets)).Posted? {
      forall key: Key | key.wallet in wallets
        ensures Project(reg, iset{key}, Run(reg, EMPTY, PipelineEvents(reg, wallets)).books)
             == Project(reg, iset{key}, Run(reg, EMPTY, ChronologicalEvents(reg, wallets)).books)
      {
        PipelineIsChronological(reg, wallets, key);
      }
    }
  }
}
