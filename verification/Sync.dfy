/** Wallet ingestion: windows bisected until the explorer accepts them, rows committed first and the cursor
    second, so that a crash anywhere loses no block. */
module Sync {
  import opened Decimals
  import opened Sequences

  datatype Endpoint = Transactions | TokenTransfers | InternalTxs

  /** The conflict key of a raw table. */
  datatype RowKey = RowKey(endpoint: Endpoint, id: nat)

  datatype RawRow = RawRow(key: RowKey, block: int, body: nat)

  type Table = map<RowKey, RawRow>

  /** What is durable: the raw tables and the wallet's cursor. */
  datatype Db = Db(rows: Table, cursor: Option<nat>)

  /** One answer of the explorer per window: whether it is too large.  Within one chunk every window is
      asked once, so a function of its bounds is any pattern of rejections. */
  type Rejections = (int, int) -> bool

  function InWindow(lo: int, hi: int): RawRow -> bool {
    (row: RawRow) => lo <= row.block <= hi
  }

  /** INSERT ... ON CONFLICT DO NOTHING. */
  function Upsert(table: Table, rows: seq<RawRow>): Table
    decreases rows
  {
    if rows == [] then table
    else Upsert(if rows[0].key in table then table else table[rows[0].key := rows[0]], rows[1..])
  }

  datatype Ingested = Ingested(table: Table, leaves: seq<(int, int)>) | TooLarge

  /** Fetches a window, or its two halves when it is rejected; a rejected single block is fatal. */
  function Ingest(chain: seq<RawRow>, rejects: Rejections, table: Table, lo: int, hi: int): Ingested
    decreases hi - lo
  {
    if !rejects(lo, hi) then Ingested(Upsert(table, Filter(chain, InWindow(lo, hi))), [(lo, hi)])
    else if hi <= lo then TooLarge
    else
      var mid := (lo + hi) / 2;
      match Ingest(chain, rejects, table, lo, mid)
      case TooLarge => TooLarge
      case Ingested(left, leftLeaves) =>
        match Ingest(chain, rejects, left, mid + 1, hi)
        case TooLarge => TooLarge
        case Ingested(right, rightLeaves) => Ingested(right, leftLeaves + rightLeaves)
  }

  /** How one chunk of a run fares. */
  datatype Fate =
    | Survives(rejects: Rejections)
    | DiesBeforeRows                         // no commit reached
    | DiesBetweenCommits(rejects: Rejections)

  /** One run of sync_wallet: the head it sees, its settings, and the fate of its chunks, in order.  A run
      whose fates give out dies there. */
  datatype Life = Life(head: int, confirmations: int, chunkBlocks: nat, fates: seq<Fate>)

  datatype Progress = Progress(db: Db, finished: bool)

  function Chunks(chain: seq<RawRow>, db: Db, start: int, ceiling: int, chunkBlocks: nat, fates: seq<Fate>): Progress
    requires chunkBlocks > 0 && 0 <= start
    decreases fates
  {
    if start > ceiling then Progress(db, true)
    else if fates == [] || fates[0].DiesBeforeRows? then Progress(db, false)
    else
      var end := Min(start + chunkBlocks - 1, ceiling);
      match Ingest(chain, fates[0].rejects, db.rows, start, end)
      case TooLarge => Progress(db, false)
      case Ingested(table, _) =>
        if fates[0].DiesBetweenCommits? then Progress(db.(rows := table), false)
        else Chunks(chain, Db(table, Some(end)), end + 1, ceiling, chunkBlocks, fates[1..])
  }

  function Start(db: Db): nat {
    match db.cursor case Some(c) => c case None => 0
  }

  function Run(chain: seq<RawRow>, db: Db, life: Life): Progress
    requires life.chunkBlocks > 0
  {
    var ceiling := life.head - life.confirmations;
    if ceiling <= Start(db) then Progress(db, true)
    else Chunks(chain, db, Start(db), ceiling, life.chunkBlocks, life.fates)
  }

  /** Restarted after every death. */
  function Lives(chain: seq<RawRow>, db: Db, lives: seq<Life>): Db
    requires forall i :: 0 <= i < |lives| ==> lives[i].chunkBlocks > 0
    decreases lives
  {
    if lives == [] then db else Lives(chain, Run(chain, db, lives[0]).db, lives[1..])
  }

  // ---- Windows ----

  /** The leaves cover [lo, hi] without gap or overlap, left to right. */
  ghost predicate Tiles(leaves: seq<(int, int)>, lo: int, hi: int) {
    && leaves != []
    && leaves[0].0 == lo && leaves[|leaves| - 1].1 == hi
    && (forall i :: 0 <= i < |leaves| ==> leaves[i].0 <= leaves[i].1)
    && (forall i :: 0 <= i < |leaves| - 1 ==> leaves[i + 1].0 == leaves[i].1 + 1)
  }

  lemma TilesJoin(a: seq<(int, int)>, b: seq<(int, int)>, lo: int, mid: int, hi: int)
    requires Tiles(a, lo, mid) && Tiles(b, mid + 1, hi)
    ensures Tiles(a + b, lo, hi)
  {
    var all := a + b;
    forall i | 0 <= i < |all| - 1 ensures all[i + 1].0 == all[i].1 + 1 {
      if i + 1 < |a| {
      } else if i + 1 == |a| {
        assert all[i] == a[|a| - 1] && all[i + 1] == b[0];
      } else {
        assert all[i] == b[i - |a|] && all[i + 1] == b[i - |a| + 1];
      }
    }
  }

  // ---- Rows ----

  ghost predicate Present(table: Table, rows: seq<RawRow>) {
    forall row :: row in rows ==> row.key in table
  }

  /** Nothing in the table that the chain does not have under that key. */
  ghost predicate Faithful(chain: seq<RawRow>, table: Table) {
    forall k :: k in table ==> table[k] in chain && table[k].key == k
  }

  ghost predicate Keeps(before: Table, after: Table) {
    forall k :: k in before ==> k in after && after[k] == before[k]
  }

  /** Every row of the blocks [lo, hi] is in the table. */
  ghost predicate Complete(chain: seq<RawRow>, table: Table, lo: int, hi: int) {
    forall row :: row in chain && lo <= row.block <= hi ==> row.key in table
  }

  lemma {:induction false} UpsertRows(chain: seq<RawRow>, table: Table, rows: seq<RawRow>)
    requires Faithful(chain, table) && forall row :: row in rows ==> row in chain
    ensures var next := Upsert(table, rows); Faithful(chain, next) && Keeps(table, next) && Present(next, rows)
    decreases rows
  {
    if rows != [] {
      assert rows[0] in rows;
      UpsertRows(chain, if rows[0].key in table then table else table[rows[0].key := rows[0]], rows[1..]);
    }
  }

  /** Whatever is new in the table is of the blocks [lo, hi]. */
  ghost predicate AddsWithin(before: Table, after: Table, lo: int, hi: int) {
    forall k :: k in after && k !in before ==> lo <= after[k].block <= hi
  }

  lemma {:induction false} UpsertAdds(table: Table, rows: seq<RawRow>, lo: int, hi: int)
    requires forall row :: row in rows ==> lo <= row.block <= hi
    ensures AddsWithin(table, Upsert(table, rows), lo, hi) && Keeps(table, Upsert(table, rows))
    decreases rows
  {
    if rows != [] {
      UpsertAdds(if rows[0].key in table then table else table[rows[0].key := rows[0]], rows[1..], lo, hi);
    }
  }

  /** Accepted leaves that tile the window, every row of it stored, nothing lost, and nothing added that is not on the
      chain, in the window. */
  ghost predicate Through(chain: seq<RawRow>, rejects: Rejections, table: Table, lo: int, hi: int, next: Table,
                          leaves: seq<(int, int)>) {
    && Tiles(leaves, lo, hi)
    && (forall i :: 0 <= i < |leaves| ==> !rejects(leaves[i].0, leaves[i].1))
    && Faithful(chain, next) && Keeps(table, next) && Complete(chain, next, lo, hi) && AddsWithin(table, next, lo, hi)
  }

  lemma ThroughLeaf(chain: seq<RawRow>, rejects: Rejections, table: Table, lo: int, hi: int)
    requires lo <= hi && Faithful(chain, table) && !rejects(lo, hi)
    ensures Through(chain, rejects, table, lo, hi, Upsert(table, Filter(chain, InWindow(lo, hi))), [(lo, hi)])
  {
    UpsertRows(chain, table, Filter(chain, InWindow(lo, hi)));
    UpsertAdds(table, Filter(chain, InWindow(lo, hi)), lo, hi);
  }

  lemma ThroughHalves(chain: seq<RawRow>, rejects: Rejections, table: Table, left: Table, right: Table, lo: int,
                      mid: int, hi: int,
                      leftLeaves: seq<(int, int)>, rightLeaves: seq<(int, int)>)
    requires Through(chain, rejects, table, lo, mid, left, leftLeaves)
    requires Through(chain, rejects, left, mid + 1, hi, right, rightLeaves)
    requires lo <= mid < hi
    ensures Through(chain, rejects, table, lo, hi, right, leftLeaves + rightLeaves)
  {
    TilesJoin(leftLeaves, rightLeaves, lo, mid, hi);
    HalvesRows(chain, table, left, right, lo, mid, hi);
  }

  lemma HalvesRows(chain: seq<RawRow>, table: Table, left: Table, right: Table, lo: int, mid: int, hi: int)
    requires lo <= mid < hi && Keeps(table, left) && Keeps(left, right)
    requires Complete(chain, left, lo, mid) && Complete(chain, right, mid + 1, hi)
    requires AddsWithin(table, left, lo, mid) && AddsWithin(left, right, mid + 1, hi)
    ensures Keeps(table, right) && Complete(chain, right, lo, hi) && AddsWithin(table, right, lo, hi)
  {
  }

  /** Whatever windows are rejected, an ingestion that gets through has asked for leaves that tile the chunk, and
      has added rows of the chunk, every one of them and no other. */
  lemma {:induction false} IngestComplete(chain: seq<RawRow>, rejects: Rejections, table: Table, lo: int, hi: int)
    requires lo <= hi && Faithful(chain, table)
    ensures match Ingest(chain, rejects, table, lo, hi)
            case TooLarge => true
            case Ingested(next, leaves) => Through(chain, rejects, table, lo, hi, next, leaves)
    decreases hi - lo
  {
    if !rejects(lo, hi) {
      ThroughLeaf(chain, rejects, table, lo, hi);
    } else if Ingest(chain, rejects, table, lo, hi).Ingested? {
      var left, right := Halves(chain, rejects, table, lo, hi);
      var mid := (lo + hi) / 2;
      IngestComplete(chain, rejects, table, lo, mid);
      StaysFaithful(chain, rejects, table, lo, mid, left.table, left.leaves);
      IngestComplete(chain, rejects, left.table, mid + 1, hi);
      ThroughHalves(chain, rejects, table, left.table, right.table, lo, mid, hi, left.leaves, right.leaves);
    }
  }

  /** What the two halves of a rejected window that gets through bring. */
  lemma Halves(chain: seq<RawRow>, rejects: Rejections, table: Table, lo: int, hi: int)
    returns (left: Ingested, right: Ingested)
    requires rejects(lo, hi) && Ingest(chain, rejects, table, lo, hi).Ingested?
    ensures lo < hi && left == Ingest(chain, rejects, table, lo, (lo + hi) / 2) && left.Ingested?
    ensures right == Ingest(chain, rejects, left.table, (lo + hi) / 2 + 1, hi) && right.Ingested?
    ensures Ingest(chain, rejects, table, lo, hi) == Ingested(right.table, left.leaves + right.leaves)
  {
    left := Ingest(chain, rejects, table, lo, (lo + hi) / 2);
    right := Ingest(chain, rejects, left.table, (lo + hi) / 2 + 1, hi);
  }

  lemma StaysFaithful(chain: seq<RawRow>, rejects: Rejections, table: Table, lo: int, hi: int, next: Table,
                      leaves: seq<(int, int)>)
    requires Through(chain, rejects, table, lo, hi, next, leaves)
    ensures Faithful(chain, next)
  {
  }

  /** The window is the whole chunk, or half, but for an odd block, of a window that was rejected. */
  ghost predicate Halved(rejects: Rejections, window: (int, int), lo: int, hi: int) {
    || window == (lo, hi)
    || exists p, q :: lo <= p <= window.0 && window.1 <= q <= hi && rejects(p, q)
         && Abs(2 * (window.1 - window.0 + 1) - (q - p + 1)) <= 1
  }

  lemma HalvedOnward(rejects: Rejections, window: (int, int), lo: int, hi: int, p: int, q: int)
    requires rejects(lo, hi) && lo <= p && q <= hi && Abs(2 * (q - p + 1) - (hi - lo + 1)) <= 1
    requires Halved(rejects, window, p, q)
    ensures Halved(rejects, window, lo, hi)
  {
  }

  /** No window is smaller than it has to be: each that is accepted is the whole chunk or half of a rejected one. */
  lemma {:induction false} WindowsHalved(chain: seq<RawRow>, rejects: Rejections, table: Table, lo: int, hi: int)
    requires lo <= hi && Ingest(chain, rejects, table, lo, hi).Ingested?
    ensures forall window :: window in Ingest(chain, rejects, table, lo, hi).leaves ==> Halved(rejects, window, lo, hi)
    decreases hi - lo
  {
    if rejects(lo, hi) {
      var mid := (lo + hi) / 2;
      var left, right := Halves(chain, rejects, table, lo, hi);
      WindowsHalved(chain, rejects, table, lo, mid);
      WindowsHalved(chain, rejects, left.table, mid + 1, hi);
      forall window | window in left.leaves + right.leaves ensures Halved(rejects, window, lo, hi) {
        if window in left.leaves {
          HalvedOnward(rejects, window, lo, hi, lo, mid);
        } else {
          HalvedOnward(rejects, window, lo, hi, mid + 1, hi);
        }
      }
    }
  }

  /** A chunk fails only when a single block of it is too large by itself. */
  lemma {:induction false} FailsOnlyOnABlock(chain: seq<RawRow>, rejects: Rejections, table: Table, lo: int, hi: int)
    requires lo <= hi && Ingest(chain, rejects, table, lo, hi).TooLarge?
    ensures exists block :: lo <= block <= hi && rejects(block, block)
    decreases hi - lo
  {
    if lo == hi {
      assert rejects(lo, lo);
    } else {
      var mid := (lo + hi) / 2;
      match Ingest(chain, rejects, table, lo, mid) {
        case TooLarge =>
          FailsOnlyOnABlock(chain, rejects, table, lo, mid);
        case Ingested(left, _) =>
          FailsOnlyOnABlock(chain, rejects, left, mid + 1, hi);
      }
    }
  }

  /** A window is rejected whenever a part of it is. */
  ghost predicate Monotone(rejects: Rejections) {
    forall a: int, b: int, c: int, d: int :: a <= b <= c <= d && rejects(b, c) ==> rejects(a, d)
  }

  lemma {:induction false} BlockFails(chain: seq<RawRow>, rejects: Rejections, table: Table, lo: int, hi: int,
                                      block: int)
    requires Monotone(rejects) && lo <= block <= hi && rejects(block, block)
    ensures Ingest(chain, rejects, table, lo, hi).TooLarge?
    decreases hi - lo
  {
    assert rejects(lo, hi);
    if lo < hi {
      var mid := (lo + hi) / 2;
      if block <= mid {
        BlockFails(chain, rejects, table, lo, mid, block);
      } else {
        match Ingest(chain, rejects, table, lo, mid) {
          case TooLarge =>
          case Ingested(left, _) => BlockFails(chain, rejects, left, mid + 1, hi, block);
        }
      }
    }
  }

  /** For an explorer that rejects a window whenever it rejects a part of it, a chunk fails exactly when one
      of its blocks is too large by itself. */
  lemma FailsIffABlock(chain: seq<RawRow>, rejects: Rejections, table: Table, lo: int, hi: int)
    requires Monotone(rejects) && lo <= hi
    ensures Ingest(chain, rejects, table, lo, hi).TooLarge? <==> exists block ::
              lo <= block <= hi && rejects(block, block)
  {
    if Ingest(chain, rejects, table, lo, hi).TooLarge? {
      FailsOnlyOnABlock(chain, rejects, table, lo, hi);
    }
    if block :| lo <= block <= hi && rejects(block, block) {
      BlockFails(chain, rejects, table, lo, hi, block);
    }
  }

  // ---- Crashes ----

  /** Since the cursor stood at `origin`: either it has not moved, or every row from there to it is stored. */
  ghost predicate Durable(chain: seq<RawRow>, origin: nat, db: Db) {
    Faithful(chain, db.rows) && origin <= Start(db)
      && (Start(db) == origin || Complete(chain, db.rows, origin, Start(db)))
  }

  lemma CompleteJoins(chain: seq<RawRow>, before: Table, after: Table, origin: int, start: int, end: int)
    requires Keeps(before, after) && Complete(chain, after, start, end)
    requires start == origin || Complete(chain, before, origin, start - 1)
    ensures Complete(chain, after, origin, end)
  {
  }

  /** Where a run may go on from: everything below `start` is stored. */
  ghost predicate Ready(chain: seq<RawRow>, origin: nat, db: Db, start: int) {
    && origin <= start && Durable(chain, origin, db) && (start == Start(db) || start == Start(db) + 1)
    && (start == origin || Complete(chain, db.rows, origin, start - 1))
  }

  /** What the chunks of a run leave, wherever it dies. */
  ghost predicate Advanced(chain: seq<RawRow>, origin: nat, before: Db, after: Db) {
    Durable(chain, origin, after) && Start(after) >= Start(before) && Keeps(before.rows, after.rows)
  }

  /** One chunk that gets through, whether or not its cursor is committed. */
  lemma ChunkDurable(chain: seq<RawRow>, origin: nat, db: Db, start: int, end: nat, rejects: Rejections)
    requires start <= end && Ready(chain, origin, db, start)
    requires Ingest(chain, rejects, db.rows, start, end).Ingested?
    ensures var table := Ingest(chain, rejects, db.rows, start, end).table;
            && Complete(chain, table, origin, end)
            && Advanced(chain, origin, db, db.(rows := table)) && Advanced(chain, origin, db, Db(table, Some(end)))
  {
    IngestComplete(chain, rejects, db.rows, start, end);
    CompleteJoins(chain, db.rows, Ingest(chain, rejects, db.rows, start, end).table, origin, start, end);
  }

  lemma AdvancedTwice(chain: seq<RawRow>, origin: nat, a: Db, b: Db, c: Db)
    requires Advanced(chain, origin, a, b) && Advanced(chain, origin, b, c)
    ensures Advanced(chain, origin, a, c)
  {
  }

  /** A run that has more to do after a chunk goes on from where the chunk left the database. */
  lemma ChunksGoOn(chain: seq<RawRow>, db: Db, start: int, ceiling: int, chunkBlocks: nat, fates: seq<Fate>)
    requires chunkBlocks > 0 && 0 <= start <= ceiling && fates != [] && fates[0].Survives?
    requires Ingest(chain, fates[0].rejects, db.rows, start, Min(start + chunkBlocks - 1, ceiling)).Ingested?
    ensures var end := Min(start + chunkBlocks - 1, ceiling);
            var next := Db(Ingest(chain, fates[0].rejects, db.rows, start, end).table, Some(end));
            Chunks(chain, db, start, ceiling, chunkBlocks, fates)
              == Chunks(chain, next, end + 1, ceiling, chunkBlocks, fates[1..])
  {
  }

  /** A run that stops before it has stored anything more. */
  lemma StoppedDurable(chain: seq<RawRow>, origin: nat, db: Db, start: nat, ceiling: int, chunkBlocks: nat,
                       fates: seq<Fate>)
    requires chunkBlocks > 0 && Durable(chain, origin, db)
    requires start > ceiling || fates == [] || fates[0].DiesBeforeRows?
             || Ingest(chain, fates[0].rejects, db.rows, start, Min(start + chunkBlocks - 1, ceiling)).TooLarge?
    ensures Advanced(chain, origin, db, Chunks(chain, db, start, ceiling, chunkBlocks, fates).db)
  {
    assert Chunks(chain, db, start, ceiling, chunkBlocks, fates).db == db;
  }

  /** A run that dies between the two commits of a chunk. */
  lemma TornDurable(chain: seq<RawRow>, origin: nat, db: Db, start: nat, ceiling: int, chunkBlocks: nat,
                    fates: seq<Fate>)
    requires chunkBlocks > 0 && start <= ceiling && Ready(chain, origin, db, start)
    requires fates != [] && fates[0].DiesBetweenCommits?
    requires Ingest(chain, fates[0].rejects, db.rows, start, Min(start + chunkBlocks - 1, ceiling)).Ingested?
    ensures Advanced(chain, origin, db, Chunks(chain, db, start, ceiling, chunkBlocks, fates).db)
  {
    ChunkDurable(chain, origin, db, start, Min(start + chunkBlocks - 1, ceiling), fates[0].rejects);
  }

  lemma {:induction false} ChunksDurable(chain: seq<RawRow>, origin: nat, db: Db, start: nat, ceiling: int,
                                         chunkBlocks: nat, fates: seq<Fate>)
    requires chunkBlocks > 0 && Ready(chain, origin, db, start)
    ensures Advanced(chain, origin, db, Chunks(chain, db, start, ceiling, chunkBlocks, fates).db)
    decreases fates, 1
  {
    if start > ceiling || fates == [] || fates[0].DiesBeforeRows?
       || Ingest(chain, fates[0].rejects, db.rows, start, Min(start + chunkBlocks - 1, ceiling)).TooLarge? {
      StoppedDurable(chain, origin, db, start, ceiling, chunkBlocks, fates);
    } else if fates[0].DiesBetweenCommits? {
      TornDurable(chain, origin, db, start, ceiling, chunkBlocks, fates);
    } else {
      GoneOnDurable(chain, origin, db, start, ceiling, chunkBlocks, fates);
    }
  }

  /** A run that gets through a chunk. */
  lemma {:induction false} GoneOnDurable(chain: seq<RawRow>, origin: nat, db: Db, start: nat, ceiling: int,
                                         chunkBlocks: nat, fates: seq<Fate>)
    requires chunkBlocks > 0 && start <= ceiling && Ready(chain, origin, db, start)
    requires fates != [] && fates[0].Survives?
    requires Ingest(chain, fates[0].rejects, db.rows, start, Min(start + chunkBlocks - 1, ceiling)).Ingested?
    ensures Advanced(chain, origin, db, Chunks(chain, db, start, ceiling, chunkBlocks, fates).db)
    decreases fates, 0
  {
    var end := Min(start + chunkBlocks - 1, ceiling);
    var next := Db(Ingest(chain, fates[0].rejects, db.rows, start, end).table, Some(end));
    ChunkDurable(chain, origin, db, start, end, fates[0].rejects);
    ChunksGoOn(chain, db, start, ceiling, chunkBlocks, fates);
    ChunksDurable(chain, origin, next, end + 1, ceiling, chunkBlocks, fates[1..]);
    AdvancedTwice(chain, origin, db, next, Chunks(chain, next, end + 1, ceiling, chunkBlocks, fates[1..]).db);
  }

  lemma {:induction false} ChunksEndAtCeiling(chain: seq<RawRow>, db: Db, start: int, ceiling: int, chunkBlocks: nat,
                                              fates: seq<Fate>)
    requires chunkBlocks > 0 && 0 <= start <= ceiling
    ensures var p := Chunks(chain, db, start, ceiling, chunkBlocks, fates); p.finished ==> Start(p.db) == ceiling
    decreases fates
  {
    if fates != [] && !fates[0].DiesBeforeRows? {
      var end := Min(start + chunkBlocks - 1, ceiling);
      match Ingest(chain, fates[0].rejects, db.rows, start, end) {
        case TooLarge =>
        case Ingested(table, _) =>
          if !fates[0].DiesBetweenCommits? && end < ceiling {
            ChunksEndAtCeiling(chain, Db(table, Some(end)), end + 1, ceiling, chunkBlocks, fates[1..]);
          }
      }
    }
  }

  /** A run that is not killed, on a chain none of whose single blocks is too large, gets to its ceiling. */
  lemma {:induction false} UndisturbedChunksFinish(chain: seq<RawRow>, db: Db, start: int, ceiling: int,
                                                   chunkBlocks: nat, fates: seq<Fate>)
    requires chunkBlocks > 0 && 0 <= start && |fates| >= ceiling + 1 - start
    requires forall i :: 0 <= i < |fates| ==> fates[i].Survives? && forall block: int :: !fates[i].rejects(block, block)
    ensures var p := Chunks(chain, db, start, ceiling, chunkBlocks, fates);
            p.finished && (start <= ceiling ==> Start(p.db) == ceiling)
    decreases fates
  {
    if start <= ceiling {
      var end := Min(start + chunkBlocks - 1, ceiling);
      match Ingest(chain, fates[0].rejects, db.rows, start, end) {
        case TooLarge => FailsOnlyOnABlock(chain, fates[0].rejects, db.rows, start, end);
        case Ingested(table, _) => UndisturbedChunksFinish(chain, Db(table, Some(end)), end + 1, ceiling, chunkBlocks,
          fates[1..]);
      }
    }
  }

  /** One run, wherever it dies, keeps the promise; and one that finishes has everything up to its ceiling. */
  lemma RunDurable(chain: seq<RawRow>, origin: nat, db: Db, life: Life)
    requires life.chunkBlocks > 0 && Durable(chain, origin, db)
    ensures var p := Run(chain, db, life); var ceiling := life.head - life.confirmations;
            && Durable(chain, origin, p.db) && Start(p.db) >= Start(db) && Keeps(db.rows, p.db.rows)
            && (p.finished && ceiling > Start(db) ==>
                 Start(p.db) == ceiling && Complete(chain, p.db.rows, origin, ceiling))
  {
    var ceiling := life.head - life.confirmations;
    if ceiling > Start(db) {
      assert Start(db) == origin || Complete(chain, db.rows, origin, Start(db) - 1);
      ChunksDurable(chain, origin, db, Start(db), ceiling, life.chunkBlocks, life.fates);
      ChunksEndAtCeiling(chain, db, Start(db), ceiling, life.chunkBlocks, life.fates);
    }
  }

  /** Sync survives crashes: after any number of runs, each dying anywhere or finishing, every row of every
      block from the starting cursor to the current one is stored, nothing else is, and no row changes. */
  lemma {:induction false} SyncSurvivesCrashes(chain: seq<RawRow>, origin: nat, db: Db, lives: seq<Life>)
    requires Durable(chain, origin, db) && forall i :: 0 <= i < |lives| ==> lives[i].chunkBlocks > 0
    ensures var final := Lives(chain, db, lives);
            Durable(chain, origin, final) && Start(final) >= Start(db) && Keeps(db.rows, final.rows)
    decreases lives
  {
    if lives != [] {
      RunDurable(chain, origin, db, lives[0]);
      SyncSurvivesCrashes(chain, origin, Run(chain, db, lives[0]).db, lives[1..]);
    }
  }

  // ---- What may be stored, and how far a run gets ----

  /** The table has only grown, by rows of the chain within these blocks. */
  ghost predicate Grown(chain: seq<RawRow>, before: Table, after: Table, lo: int, hi: int) {
    AddsWithin(before, after, lo, hi) && Keeps(before, after) && Faithful(chain, after)
  }

  lemma GrownTwice(chain: seq<RawRow>, a: Table, b: Table, c: Table, lo: int, mid: int, later: int, hi: int)
    requires Grown(chain, a, b, lo, mid) && Grown(chain, b, c, later, hi) && lo <= later && mid <= hi
    ensures Grown(chain, a, c, lo, hi)
  {
  }

  lemma ChunkGrows(chain: seq<RawRow>, rejects: Rejections, table: Table, lo: int, hi: int)
    requires lo <= hi && Faithful(chain, table) && Ingest(chain, rejects, table, lo, hi).Ingested?
    ensures Grown(chain, table, Ingest(chain, rejects, table, lo, hi).table, lo, hi)
  {
    IngestComplete(chain, rejects, table, lo, hi);
  }

  lemma {:induction false} ChunksWithin(chain: seq<RawRow>, db: Db, start: nat, ceiling: int, chunkBlocks: nat,
                                        fates: seq<Fate>)
    requires chunkBlocks > 0 && Faithful(chain, db.rows)
    ensures Grown(chain, db.rows, Chunks(chain, db, start, ceiling, chunkBlocks, fates).db.rows, start, ceiling)
    decreases fates
  {
    if start > ceiling || fates == [] || fates[0].DiesBeforeRows?
       || Ingest(chain, fates[0].rejects, db.rows, start, Min(start + chunkBlocks - 1, ceiling)).TooLarge? {
      assert Chunks(chain, db, start, ceiling, chunkBlocks, fates).db == db;
    } else {
      var end := Min(start + chunkBlocks - 1, ceiling);
      var table := Ingest(chain, fates[0].rejects, db.rows, start, end).table;
      ChunkGrows(chain, fates[0].rejects, db.rows, start, end);
      if fates[0].Survives? {
        var last := Chunks(chain, Db(table, Some(end)), end + 1, ceiling, chunkBlocks, fates[1..]);
        ChunksGoOn(chain, db, start, ceiling, chunkBlocks, fates);
        ChunksWithin(chain, Db(table, Some(end)), end + 1, ceiling, chunkBlocks, fates[1..]);
        GrownTwice(chain, db.rows, table, last.db.rows, start, end, end + 1, ceiling);
      }
    }
  }

  /** Wherever a run dies, what it has added is of confirmed blocks, from the cursor on: a row of a block that is
      not confirmed would be there for good. */
  lemma RunWithin(chain: seq<RawRow>, db: Db, life: Life)
    requires life.chunkBlocks > 0 && Faithful(chain, db.rows)
    ensures var next := Run(chain, db, life).db;
            && Faithful(chain, next.rows) && Keeps(db.rows, next.rows)
            && forall k :: k in next.rows && k !in db.rows ==>
                 Start(db) <= next.rows[k].block <= life.head - life.confirmations
  {
    if life.head - life.confirmations > Start(db) {
      ChunksWithin(chain, db, Start(db), life.head - life.confirmations, life.chunkBlocks, life.fates);
    }
  }

  /** So over any number of runs nothing is stored beyond the highest block that one of them saw confirmed. */
  lemma {:induction false} LivesWithin(chain: seq<RawRow>, db: Db, lives: seq<Life>, highest: int)
    requires Faithful(chain, db.rows)
    requires forall i :: 0 <= i < |lives| ==>
               lives[i].chunkBlocks > 0 && lives[i].head - lives[i].confirmations <= highest
    ensures var final := Lives(chain, db, lives);
            forall k :: k in final.rows && k !in db.rows ==> final.rows[k].block <= highest
    decreases lives
  {
    if lives != [] {
      var next := Run(chain, db, lives[0]).db;
      RunWithin(chain, db, lives[0]);
      LivesWithin(chain, next, lives[1..], highest);
      LivesKeep(chain, next, lives[1..]);
    }
  }

  lemma {:induction false} LivesKeep(chain: seq<RawRow>, db: Db, lives: seq<Life>)
    requires Faithful(chain, db.rows) && forall i :: 0 <= i < |lives| ==> lives[i].chunkBlocks > 0
    ensures Keeps(db.rows, Lives(chain, db, lives).rows)
    decreases lives
  {
    if lives != [] {
      RunWithin(chain, db, lives[0]);
      LivesKeep(chain, Run(chain, db, lives[0]).db, lives[1..]);
    }
  }

  /** A run killed between the two commits of a chunk has the chunk's rows and the cursor it had before. */
  lemma TornKeepsCursor(chain: seq<RawRow>, db: Db, start: nat, ceiling: int, chunkBlocks: nat, fates: seq<Fate>)
    requires chunkBlocks > 0 && start <= ceiling && fates != [] && fates[0].DiesBetweenCommits?
    requires Faithful(chain, db.rows) && forall block: int :: !fates[0].rejects(block, block)
    ensures var p := Chunks(chain, db, start, ceiling, chunkBlocks, fates);
            && !p.finished && p.db.cursor == db.cursor
            && Complete(chain, p.db.rows, start, Min(start + chunkBlocks - 1, ceiling))
  {
    var end := Min(start + chunkBlocks - 1, ceiling);
    if Ingest(chain, fates[0].rejects, db.rows, start, end).TooLarge? {
      FailsOnlyOnABlock(chain, fates[0].rejects, db.rows, start, end);
    }
    IngestComplete(chain, fates[0].rejects, db.rows, start, end);
  }

  /** The pace of a run: n chunks that go through move the cursor by n times chunk_blocks, the block the run started
      at being the first of them, or to the ceiling. */
  lemma {:induction false} ChunksPace(chain: seq<RawRow>, db: Db, start: nat, ceiling: int, chunkBlocks: nat,
                                      fates: seq<Fate>)
    requires chunkBlocks > 0 && start <= ceiling && fates != []
    requires forall i :: 0 <= i < |fates| ==> fates[i].Survives? && forall block: int :: !fates[i].rejects(block, block)
    ensures var p := Chunks(chain, db, start, ceiling, chunkBlocks, fates);
            p.db.cursor.Some? && p.db.cursor.value == Min(start + |fates| * chunkBlocks - 1, ceiling)
    decreases fates
  {
    var end := Min(start + chunkBlocks - 1, ceiling);
    match Ingest(chain, fates[0].rejects, db.rows, start, end) {
      case TooLarge => FailsOnlyOnABlock(chain, fates[0].rejects, db.rows, start, end);
      case Ingested(table, _) =>
        var next, rest := Db(table, Some(end)), fates[1..];
        assert |fates| * chunkBlocks == chunkBlocks + |rest| * chunkBlocks;
        assert |rest| * chunkBlocks >= 0;
        if rest != [] && end < ceiling {
          ChunksPace(chain, next, end + 1, ceiling, chunkBlocks, rest);
        }
    }
  }

  // ---- As it runs ----

  class Syncer {
    const chain: seq<RawRow>       // what the explorer serves
    var session: Table             // the session's view of the raw tables
    var committed: Db              // what would survive a crash

    predicate Valid()
      reads this
    {
      session == committed.rows
    }

    constructor (chain: seq<RawRow>, db: Db)
      ensures Valid() && this.chain == chain && committed == db
    {
      this.chain := chain;
      session, committed := db.rows, db;
    }

    method UpsertAll(rows: seq<RawRow>)
      modifies this`session
      ensures session == Upsert(old(session), rows)
    {
      var i := 0;
      while i < |rows|
        invariant 0 <= i <= |rows|
        invariant Upsert(old(session), rows) == Upsert(session, rows[i..])
      {
        assert rows[i..][1..] == rows[i + 1..];
        if rows[i].key !in session {
          session := session[rows[i].key := rows[i]];
        }
        i := i + 1;
      }
    }

    method IngestChunk(rejects: Rejections, lo: int, hi: int) returns (ok: bool)
      modifies this`session
      ensures ok <==> Ingest(chain, rejects, old(session), lo, hi).Ingested?
      ensures ok ==> session == Ingest(chain, rejects, old(session), lo, hi).table
      decreases hi - lo
    {
      if rejects(lo, hi) {
        if hi <= lo {
          return false;
        }
        var mid := (lo + hi) / 2;
        ok := IngestChunk(rejects, lo, mid);
        if ok {
          ok := IngestChunk(rejects, mid + 1, hi);
        }
        return;
      }
      UpsertAll(Filter(chain, InWindow(lo, hi)));
      ok := true;
    }

    method SyncWallet(life: Life) returns (finished: bool)
      requires Valid() && life.chunkBlocks > 0
      modifies this
      ensures Valid()
      ensures Progress(committed, finished) == Run(chain, old(committed), life)
    {
      var ceiling := life.head - life.confirmations;
      var cursor := Start(committed);
      if ceiling <= cursor {
        return true;
      }
      finished := SyncChunks(cursor, ceiling, life);
    }

    method SyncChunks(start: int, ceiling: int, life: Life) returns (finished: bool)
      requires Valid() && life.chunkBlocks > 0 && start >= 0
      modifies this
      ensures Valid()
      ensures Progress(committed, finished)
              == Chunks(chain, old(committed), start, ceiling, life.chunkBlocks, life.fates)
    {
      var chunkStart, k := start, 0;
      while chunkStart <= ceiling
        invariant Valid() && 0 <= chunkStart && 0 <= k <= |life.fates|
        invariant Chunks(chain, old(committed), start, ceiling, life.chunkBlocks, life.fates)
               == Chunks(chain, committed, chunkStart, ceiling, life.chunkBlocks, life.fates[k..])
        decreases |life.fates| - k
      {
        if k == |life.fates| || life.fates[k].DiesBeforeRows? {
          return false;
        }
        var chunkEnd := Min(chunkStart + life.chunkBlocks - 1, ceiling);
        var ok := IngestChunk(life.fates[k].rejects, chunkStart, chunkEnd);
        if !ok {
          session := committed.rows;
          return false;
        }
        committed := committed.(rows := session);
        if life.fates[k].DiesBetweenCommits? {
          return false;
        }
        committed := committed.(cursor := Some(chunkEnd));
        assert life.fates[k..][1..] == life.fates[k + 1..];
        chunkStart, k := chunkEnd + 1, k + 1;
      }
      finished := true;
    }
  }
}
