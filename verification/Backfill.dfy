/** The event-log crawler: chunks that halve when the node refuses them and double when it does not. */
module Backfill {
  import opened Decimals
  import opened Sequences

  const INITIAL_CHUNK := 5000
  const MIN_CHUNK := 200
  const MAX_CHUNK := 20000

  /** The node's answers to the requests of one run, in order: accepted, or too many results. */
  type Answers = nat -> bool

  /** What a run has done: the ranges stored, the refusals it retried, where it stands, and how it ended. */
  datatype Crawl = Crawl(ranges: seq<(int, int)>, retries: nat, lo: int, chunk: int, end: End)

  /** Torn: killed between the commit of a range's events and the save of the cursor. */
  datatype End = Complete | Refused | Killed | Torn

  /** The crawl loop from `lo`; a run is killed after `budget` requests at the latest, and if `torn`, as soon
      as it has stored what the last of them brought. */
  function CrawlFrom(lo: int, head: int, chunk: int, answers: Answers, asked: nat, budget: nat, torn: bool): Crawl
    requires chunk > 0
    decreases budget
  {
    if lo > head then Crawl([], 0, lo, chunk, Complete)
    else if budget == 0 then Crawl([], 0, lo, chunk, Killed)
    else
      var hi := Min(lo + chunk - 1, head);
      if answers(asked) && torn && budget == 1 then Crawl([(lo, hi)], 0, hi + 1, chunk, Torn)
      else if answers(asked) then
        var rest := CrawlFrom(hi + 1, head, Min(MAX_CHUNK, chunk * 2), answers, asked + 1, budget - 1, torn);
        rest.(ranges := [(lo, hi)] + rest.ranges)
      else if chunk > MIN_CHUNK then
        var rest := CrawlFrom(lo, head, Max(MIN_CHUNK, chunk / 2), answers, asked + 1, budget - 1, torn);
        rest.(retries := rest.retries + 1)
      else Crawl([], 0, lo, chunk, Refused)
  }

  function Run(lo: int, head: int, answers: Answers, budget: nat, torn: bool): Crawl {
    CrawlFrom(lo, head, INITIAL_CHUNK, answers, 0, budget, torn)
  }

  // ---- Termination ----

  /** How often a chunk can be halved before it is at the minimum. */
  function Halvings(chunk: int): nat
    decreases chunk
  {
    if chunk <= MIN_CHUNK then 0 else 1 + Halvings(Max(MIN_CHUNK, chunk / 2))
  }

  lemma {:induction false} HalvingsMonotone(a: int, b: int)
    requires a <= b
    ensures Halvings(a) <= Halvings(b)
    decreases b
  {
    if a > MIN_CHUNK {
      HalvingsMonotone(Max(MIN_CHUNK, a / 2), Max(MIN_CHUNK, b / 2));
    }
  }

  lemma DoublingCosts(chunk: int)
    requires MIN_CHUNK <= chunk <= MAX_CHUNK
    ensures Halvings(Min(MAX_CHUNK, chunk * 2)) <= Halvings(chunk) + 1
  {
    HalvingsMonotone(Min(MAX_CHUNK, chunk * 2), chunk * 2);
    assert Max(MIN_CHUNK, chunk * 2 / 2) == chunk;
  }

  lemma InitialHalvings()
    ensures Halvings(INITIAL_CHUNK) == 5
  {
    assert Halvings(312) == 1 + Halvings(200) == 1;
    assert Halvings(625) == 1 + Halvings(312);
    assert Halvings(1250) == 1 + Halvings(625);
    assert Halvings(2500) == 1 + Halvings(1250);
  }

  /** Each retry halves the chunk and each success at most doubles it, so retries are paid for by accepted
      requests, but for what the first chunk had in hand; and the chunk stays in bounds. */
  lemma {:induction false} RetriesAmortised(lo: int, head: int, chunk: int, answers: Answers, asked: nat, budget: nat,
                                            torn: bool)
    requires MIN_CHUNK <= chunk <= MAX_CHUNK
    ensures var c := CrawlFrom(lo, head, chunk, answers, asked, budget, torn);
            && c.retries + Halvings(c.chunk) <= |c.ranges| + Halvings(chunk)
            && MIN_CHUNK <= c.chunk <= MAX_CHUNK
    decreases budget
  {
    if lo > head || budget == 0 {
    } else {
      var hi := Min(lo + chunk - 1, head);
      if answers(asked) {
        DoublingCosts(chunk);
        RetriesAmortised(hi + 1, head, Min(MAX_CHUNK, chunk * 2), answers, asked + 1, budget - 1, torn);
      } else if chunk > MIN_CHUNK {
        RetriesAmortised(lo, head, Max(MIN_CHUNK, chunk / 2), answers, asked + 1, budget - 1, torn);
      }
    }
  }

  /** In every run the retried refusals number at most the accepted requests plus five. */
  lemma RetryBound(lo: int, head: int, answers: Answers, budget: nat, torn: bool)
    ensures Run(lo, head, answers, budget, torn).retries <= |Run(lo, head, answers, budget, torn).ranges| + 5
  {
    InitialHalvings();
    RetriesAmortised(lo, head, INITIAL_CHUNK, answers, 0, budget, torn);
  }

  /** The blocks left and the halvings left never run out together: every run left alone ends by itself,
      within two requests a block and the halvings of its first chunk. */
  lemma {:induction false} CrawlEnds(lo: int, head: int, chunk: int, answers: Answers, asked: nat, budget: nat,
                                     torn: bool)
    requires MIN_CHUNK <= chunk <= MAX_CHUNK && lo <= head + 1
    requires budget >= 2 * (head + 1 - lo) + Halvings(chunk) && !torn
    ensures CrawlFrom(lo, head, chunk, answers, asked, budget, torn).end in {Complete, Refused}
    decreases budget
  {
    if lo <= head && budget > 0 {
      var hi := Min(lo + chunk - 1, head);
      if answers(asked) {
        DoublingCosts(chunk);
        CrawlEnds(hi + 1, head, Min(MAX_CHUNK, chunk * 2), answers, asked + 1, budget - 1, torn);
      } else if chunk > MIN_CHUNK {
        CrawlEnds(lo, head, Max(MIN_CHUNK, chunk / 2), answers, asked + 1, budget - 1, torn);
      }
    }
  }

  // ---- Sizes ----

  /** A run gives up only on a request of at most 200 blocks, its last, which the node refused. */
  lemma {:induction false} RefusedAtMinimum(lo: int, head: int, chunk: int, answers: Answers, asked: nat, budget: nat,
                                            torn: bool)
    requires 200 <= chunk <= 20000
    ensures var c := CrawlFrom(lo, head, chunk, answers, asked, budget, torn);
            c.end.Refused? ==> c.chunk == 200 && c.lo <= head && !answers(asked + |c.ranges| + c.retries)
    decreases budget
  {
    if lo <= head && budget > 0 {
      if answers(asked) {
        RefusedAtMinimum(Min(lo + chunk - 1, head) + 1, head, Min(MAX_CHUNK, chunk * 2), answers, asked + 1, budget - 1,
          torn);
      } else if chunk > MIN_CHUNK {
        RefusedAtMinimum(lo, head, Max(MIN_CHUNK, chunk / 2), answers, asked + 1, budget - 1, torn);
      }
    }
  }

  function Width(range: (int, int)): int {
    range.1 - range.0 + 1
  }

  /** No accepted request is of more than 20000 blocks, and only one that reaches the head is of fewer than 200. */
  lemma {:induction false} WidthsBounded(lo: int, head: int, chunk: int, answers: Answers, asked: nat, budget: nat,
                                         torn: bool)
    requires 200 <= chunk <= 20000
    ensures forall range :: range in CrawlFrom(lo, head, chunk, answers, asked, budget, torn).ranges ==>
              Width(range) <= 20000 && range.1 <= head && (range.1 < head ==> Width(range) >= 200)
    decreases budget
  {
    if lo <= head && budget > 0 {
      if answers(asked) {
        WidthsBounded(Min(lo + chunk - 1, head) + 1, head, Min(MAX_CHUNK, chunk * 2), answers, asked + 1, budget - 1,
          torn);
      } else if chunk > MIN_CHUNK {
        WidthsBounded(lo, head, Max(MIN_CHUNK, chunk / 2), answers, asked + 1, budget - 1, torn);
      }
    }
  }

  function Grown(chunk: int, times: nat): int
    decreases times
  {
    if times == 0 then chunk else Grown(if 2 * chunk < 20000 then 2 * chunk else 20000, times - 1)
  }

  lemma {:induction false} AcceptedWidths(lo: int, head: int, chunk: int, answers: Answers, asked: nat, budget: nat,
                                          torn: bool, i: nat)
    requires 0 < chunk && forall k :: asked <= k < asked + budget ==> answers(k)
    requires i < |CrawlFrom(lo, head, chunk, answers, asked, budget, torn).ranges|
    ensures var range := CrawlFrom(lo, head, chunk, answers, asked, budget, torn).ranges[i];
            range.1 < head ==> Width(range) == Grown(chunk, i)
    decreases budget
  {
    if i > 0 {
      AcceptedWidths(Min(lo + chunk - 1, head) + 1, head, Min(MAX_CHUNK, chunk * 2), answers, asked + 1, budget - 1,
        torn, i - 1);
    }
  }

  lemma {:induction false} GrownStays(times: nat)
    ensures Grown(20000, times) == 20000
  {
    if times > 0 {
      GrownStays(times - 1);
    }
  }

  /** A node that refuses nothing is asked for 5000 blocks, then 10000, and then 20000 at a time, up to the head. */
  lemma UnrefusedPace(lo: int, head: int, answers: Answers, budget: nat, torn: bool, i: nat)
    requires forall k :: 0 <= k < budget ==> answers(k)
    requires i < |Run(lo, head, answers, budget, torn).ranges|
    ensures var range := Run(lo, head, answers, budget, torn).ranges[i];
            range.1 < head ==> Width(range) == if i == 0 then 5000 else if i == 1 then 10000 else 20000
  {
    AcceptedWidths(lo, head, INITIAL_CHUNK, answers, 0, budget, torn, i);
    if i >= 2 {
      GrownStays(i - 2);
      assert Grown(5000, i) == Grown(10000, i - 1) == Grown(20000, i - 2);
    }
  }

  /** What a refusal does: the same place again, with half as many blocks but at least 200. */
  lemma RefusalHalves(lo: int, head: int, chunk: int, answers: Answers, asked: nat, budget: nat, torn: bool)
    requires 200 < chunk && lo <= head && budget > 1 && !answers(asked) && answers(asked + 1)
    ensures var c := CrawlFrom(lo, head, chunk, answers, asked, budget, torn);
            var half := if chunk / 2 < 200 then 200 else chunk / 2;
            c.ranges != [] && c.ranges[0] == (lo, if lo + half - 1 < head then lo + half - 1 else head)
  {
  }

  // ---- Coverage ----

  /** Consecutive ranges from `lo` up to just before `next`, without gap or overlap. */
  ghost predicate Consecutive(ranges: seq<(int, int)>, lo: int, next: int)
    decreases ranges
  {
    if ranges == [] then lo == next
    else ranges[0].0 == lo && lo <= ranges[0].1 && Consecutive(ranges[1..], ranges[0].1 + 1, next)
  }

  /** The accepted ranges tile what has been crawled; a run that completes has tiled up to the head. */
  lemma {:induction false} CrawlTiles(lo: int, head: int, chunk: int, answers: Answers, asked: nat, budget: nat,
                                      torn: bool)
    requires chunk > 0 && lo <= head + 1
    ensures var c := CrawlFrom(lo, head, chunk, answers, asked, budget, torn);
            && Consecutive(c.ranges, lo, c.lo) && lo <= c.lo <= head + 1
            && (c.end.Complete? ==> c.lo == head + 1) && (c.end.Refused? || c.end.Killed? ==> c.lo <= head)
    decreases budget
  {
    if lo > head || budget == 0 {
    } else {
      var hi := Min(lo + chunk - 1, head);
      if answers(asked) {
        var rest := CrawlFrom(hi + 1, head, Min(MAX_CHUNK, chunk * 2), answers, asked + 1, budget - 1, torn);
        CrawlTiles(hi + 1, head, Min(MAX_CHUNK, chunk * 2), answers, asked + 1, budget - 1, torn);
        assert ([(lo, hi)] + rest.ranges)[1..] == rest.ranges;
      } else if chunk > MIN_CHUNK {
        CrawlTiles(lo, head, Max(MIN_CHUNK, chunk / 2), answers, asked + 1, budget - 1, torn);
      }
    }
  }

  predicate Covers(ranges: seq<(int, int)>, block: int) {
    exists i :: 0 <= i < |ranges| && ranges[i].0 <= block <= ranges[i].1
  }

  lemma {:induction false} ConsecutiveCovers(ranges: seq<(int, int)>, lo: int, next: int, block: int)
    requires Consecutive(ranges, lo, next) && lo <= block < next
    ensures Covers(ranges, block)
  {
    if block > ranges[0].1 {
      ConsecutiveCovers(ranges[1..], ranges[0].1 + 1, next, block);
      var i :| 0 <= i < |ranges[1..]| && ranges[1..][i].0 <= block <= ranges[1..][i].1;
      assert ranges[i + 1].0 <= block <= ranges[i + 1].1;
    }
  }

  // ---- Resuming ----

  /** What survives a run: the ranges whose events are stored, and the cursor. */
  datatype Store = Store(stored: seq<(int, int)>, cursor: Option<int>)

  /** One run: the head it sees, the node's answers, and how many requests it lives for. */
  datatype Life = Life(head: int, answers: Answers, budget: nat, torn: bool)

  function StartBlock(genesis: int, s: Store): int {
    match s.cursor case Some(c) => c case None => genesis
  }

  /** The cursor after the ranges that were saved. */
  function Mark(cursor: Option<int>, saved: seq<(int, int)>): Option<int> {
    if saved == [] then cursor else Some(saved[|saved| - 1].1)
  }

  function Saved(c: Crawl): seq<(int, int)> {
    if c.end.Torn? && c.ranges != [] then c.ranges[..|c.ranges| - 1] else c.ranges
  }

  /** The cursor holds the last block of the last saved range; a resumed run starts at that block again. */
  function Resume(genesis: int, s: Store, life: Life): Store {
    var c := Run(StartBlock(genesis, s), life.head, life.answers, life.budget, life.torn);
    Store(s.stored + c.ranges, Mark(s.cursor, Saved(c)))
  }

  function Lives(genesis: int, s: Store, lives: seq<Life>): Store
    decreases lives
  {
    if lives == [] then s else Lives(genesis, Resume(genesis, s, lives[0]), lives[1..])
  }

  /** Every block from genesis to the cursor has been stored. */
  ghost predicate Covered(genesis: int, s: Store) {
    s.cursor.Some? ==>
      genesis <= s.cursor.value && forall block :: genesis <= block <= s.cursor.value ==> Covers(s.stored, block)
  }

  lemma CoversMore(a: seq<(int, int)>, b: seq<(int, int)>, block: int)
    ensures Covers(a + b, block) <==> Covers(a, block) || Covers(b, block)
  {
    if Covers(a, block) {
      var i :| 0 <= i < |a| && a[i].0 <= block <= a[i].1;
      assert (a + b)[i] == a[i];
    }
    if Covers(b, block) {
      var i :| 0 <= i < |b| && b[i].0 <= block <= b[i].1;
      assert (a + b)[|a| + i] == b[i];
    }
    if Covers(a + b, block) {
      var i :| 0 <= i < |a + b| && (a + b)[i].0 <= block <= (a + b)[i].1;
      assert if i < |a| then (a + b)[i] == a[i] else (a + b)[i] == b[i - |a|];
    }
  }

  lemma {:induction false} ConsecutiveInside(ranges: seq<(int, int)>, lo: int, next: int, i: nat)
    requires Consecutive(ranges, lo, next) && i < |ranges|
    ensures lo <= ranges[i].1 < next
  {
    if i > 0 {
      ConsecutiveInside(ranges[1..], ranges[0].1 + 1, next, i - 1);
    } else if |ranges| > 1 {
      ConsecutiveInside(ranges[1..], ranges[0].1 + 1, next, |ranges| - 2);
    } else {
      assert ranges[1..] == [];
    }
  }

  lemma ResumeCovers(genesis: int, s: Store, life: Life)
    requires Covered(genesis, s)
    ensures var next := Resume(genesis, s, life);
            && Covered(genesis, next)
            && (s.cursor.Some? ==> next.cursor.Some? && s.cursor.value <= next.cursor.value)
  {
    var start := StartBlock(genesis, s);
    var c := Run(start, life.head, life.answers, life.budget, life.torn);
    var next := Resume(genesis, s, life);
    if Saved(c) != [] {
      CrawlTiles(start, life.head, INITIAL_CHUNK, life.answers, 0, life.budget, life.torn);
      ConsecutiveInside(c.ranges, start, c.lo, |Saved(c)| - 1);
    }
    if next.cursor.Some? {
      forall block | genesis <= block <= next.cursor.value ensures Covers(next.stored, block) {
        CoversMore(s.stored, c.ranges, block);
        if Saved(c) != [] && block >= start {
          ConsecutiveCovers(c.ranges, start, c.lo, block);
        }
      }
    }
  }

  /** Where a run picks up and where it leaves off: it starts at the last block saved, which it asks for again, and
      the cursor is the last block of the last range it stored, unless it was killed before saving that. */
  lemma ResumesAtCursor(genesis: int, s: Store, life: Life)
    ensures var start := if s.cursor.Some? then s.cursor.value else genesis;
            var next := Resume(genesis, s, life);
            && s.stored <= next.stored
            && (|next.stored| > |s.stored| ==> next.stored[|s.stored|].0 == start)
            && (|next.stored| == |s.stored| ==> next.cursor == s.cursor)
            && (|next.stored| > |s.stored| && !life.torn ==> next.cursor == Some(next.stored[|next.stored| - 1].1))
  {
    var c := Run(StartBlock(genesis, s), life.head, life.answers, life.budget, life.torn);
    FirstRange(StartBlock(genesis, s), life.head, INITIAL_CHUNK, life.answers, 0, life.budget, life.torn);
  }

  lemma {:induction false} FirstRange(lo: int, head: int, chunk: int, answers: Answers, asked: nat, budget: nat,
                                      torn: bool)
    requires chunk > 0
    ensures var c := CrawlFrom(lo, head, chunk, answers, asked, budget, torn);
            (c.ranges != [] ==> c.ranges[0].0 == lo) && (c.end.Torn? ==> torn && c.ranges != [])
    decreases budget
  {
    if lo <= head && budget > 0 {
      if answers(asked) {
        FirstRange(Min(lo + chunk - 1, head) + 1, head, Min(MAX_CHUNK, chunk * 2), answers, asked + 1, budget - 1,
          torn);
      } else if chunk > MIN_CHUNK {
        FirstRange(lo, head, Max(MIN_CHUNK, chunk / 2), answers, asked + 1, budget - 1, torn);
      }
    }
  }

  /** However often the crawl is killed or refused and resumed, no block up to the cursor is ever missed,
      and the cursor never moves back. */
  lemma {:induction false} ResumedCrawlMissesNothing(genesis: int, s: Store, lives: seq<Life>)
    requires Covered(genesis, s)
    ensures Covered(genesis, Lives(genesis, s, lives))
    ensures s.cursor.Some? ==>
              Lives(genesis, s, lives).cursor.Some? && s.cursor.value <= Lives(genesis, s, lives).cursor.value
    decreases lives
  {
    if lives != [] {
      ResumeCovers(genesis, s, lives[0]);
      ResumedCrawlMissesNothing(genesis, Resume(genesis, s, lives[0]), lives[1..]);
    }
  }

  // ---- As it runs ----

  /** The crawl with its store threaded through. */
  function Play(s: Store, lo: int, head: int, chunk: int, answers: Answers, asked: nat, budget: nat,
                torn: bool): (Store, End)
    requires chunk > 0
    decreases budget
  {
    if lo > head then (s, Complete)
    else if budget == 0 then (s, Killed)
    else
      var hi := Min(lo + chunk - 1, head);
      if answers(asked) then
        var stored := s.stored + [(lo, hi)];
        if torn && budget == 1 then (Store(stored, s.cursor), Torn)
        else
          Play(Store(stored, Some(hi)), hi + 1, head, Min(MAX_CHUNK, chunk * 2), answers, asked + 1, budget - 1, torn)
      else if chunk > MIN_CHUNK then
        Play(s, lo, head, Max(MIN_CHUNK, chunk / 2), answers, asked + 1, budget - 1, torn)
      else (s, Refused)
  }

  lemma MarkAfter(cursor: Option<int>, first: (int, int), rest: Crawl)
    requires rest.end.Torn? ==> rest.ranges != []
    ensures Mark(cursor, Saved(rest.(ranges := [first] + rest.ranges))) == Mark(Some(first.1), Saved(rest))
  {
    var whole := rest.(ranges := [first] + rest.ranges);
    assert Saved(whole) == [first] + Saved(rest);
  }

  ghost predicate Agrees(s: Store, c: Crawl, outcome: (Store, End)) {
    (c.end.Torn? ==> c.ranges != []) && outcome == (Store(s.stored + c.ranges, Mark(s.cursor, Saved(c))), c.end)
  }

  lemma AgreesAfter(s: Store, first: (int, int), rest: Crawl, outcome: (Store, End))
    requires Agrees(Store(s.stored + [first], Some(first.1)), rest, outcome)
    ensures Agrees(s, rest.(ranges := [first] + rest.ranges), outcome)
  {
    MarkAfter(s.cursor, first, rest);
    assert s.stored + ([first] + rest.ranges) == s.stored + [first] + rest.ranges;
  }

  lemma {:induction false} PlayIsCrawl(s: Store, lo: int, head: int, chunk: int, answers: Answers, asked: nat,
                                       budget: nat, torn: bool)
    requires chunk > 0
    ensures Agrees(s, CrawlFrom(lo, head, chunk, answers, asked, budget, torn),
            Play(s, lo, head, chunk, answers, asked, budget, torn))
    decreases budget
  {
    assert s.stored + [] == s.stored;
    if lo <= head && budget > 0 {
      var hi := Min(lo + chunk - 1, head);
      if answers(asked) && !(torn && budget == 1) {
        var next := Store(s.stored + [(lo, hi)], Some(hi));
        PlayIsCrawl(next, hi + 1, head, Min(MAX_CHUNK, chunk * 2), answers, asked + 1, budget - 1, torn);
        AgreesAfter(s, (lo, hi),
          CrawlFrom(hi + 1, head, Min(MAX_CHUNK, chunk * 2), answers, asked + 1, budget - 1, torn),
                    Play(next, hi + 1, head, Min(MAX_CHUNK, chunk * 2), answers, asked + 1, budget - 1, torn));
      } else if !answers(asked) && chunk > MIN_CHUNK {
        PlayIsCrawl(s, lo, head, Max(MIN_CHUNK, chunk / 2), answers, asked + 1, budget - 1, torn);
      }
    }
  }

  class Crawler {
    var stored: seq<(int, int)>
    var cursor: Option<int>

    function View(): Store
      reads this
    {
      Store(stored, cursor)
    }

    constructor ()
      ensures View() == Store([], None)
    {
      stored, cursor := [], None;
    }

    method Crawl(genesis: int, life: Life) returns (end: End)
      modifies this
      ensures View() == Resume(genesis, old(View()), life)
      ensures end == Run(StartBlock(genesis, old(View())), life.head, life.answers, life.budget, life.torn).end
    {
      var lo := StartBlock(genesis, View());
      PlayIsCrawl(View(), lo, life.head, INITIAL_CHUNK, life.answers, 0, life.budget, life.torn);
      end := CrawlOn(lo, life);
    }

    method CrawlOn(start: int, life: Life) returns (end: End)
      modifies this
      ensures (View(), end)
              == Play(old(View()), start, life.head, INITIAL_CHUNK, life.answers, 0, life.budget, life.torn)
    {
      var lo, chunk, asked := start, INITIAL_CHUNK, 0;
      ghost var outcome := Play(View(), lo, life.head, chunk, life.answers, 0, life.budget, life.torn);
      while lo <= life.head
        invariant chunk > 0 && asked <= life.budget
        invariant outcome == Play(View(), lo, life.head, chunk, life.answers, asked, life.budget - asked, life.torn)
        decreases life.budget - asked
      {
        if asked == life.budget {
          return Killed;
        }
        var hi := Min(lo + chunk - 1, life.head);
        var accepted := life.answers(asked);
        asked := asked + 1;
        if !accepted {
          if chunk > MIN_CHUNK {
            chunk := Max(MIN_CHUNK, chunk / 2);
            continue;
          }
          return Refused;
        }
        stored := stored + [(lo, hi)];
        if life.torn && asked == life.budget {
          return Torn;
        }
        cursor := Some(hi);
        lo := hi + 1;
        chunk := Min(MAX_CHUNK, chunk * 2);
      }
      end := Complete;
    }
  }
}
