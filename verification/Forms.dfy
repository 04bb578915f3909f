/** Form 8949 and Schedule D, and why their totals are the ledger's totals to the last digit. */
module Forms {
  import opened Decimals
  import opened Calendar
  import opened Sequences
  import opened Lots
  import opened Disposals
  import opened Events
  import opened Books
  import opened Conservation
  import opened Guarantees
  import opened Gains

  datatype CoveredStatus = BasisReported | BasisNotReported | No1099Da

  datatype Box = A | B | C | D | E | F

  datatype FormRow = FormRow(proceeds: int, basis: int, adjustment: Option<int>, period: HoldingPeriod,
                             covered: CoveredStatus)

  datatype Subtotals = Subtotals(proceeds: int, basis: int, adjustment: int, net: int, rows: seq<FormRow>)

  type Form8949 = map<Box, Subtotals>

  datatype ScheduleD = ScheduleD(shortTerm: int, longTerm: int, total: int)

  function Amount(x: Option<int>): int {
    match x case Some(v) => v case None => 0
  }

  /** Column (h) = (d) - (e) + (g). */
  function Net(row: FormRow): int {
    row.proceeds - row.basis + Amount(row.adjustment)
  }

  function BoxFor(row: FormRow): Box {
    match (row.period, row.covered)
    case (Short, BasisReported) => A
    case (Short, BasisNotReported) => B
    case (Short, No1099Da) => C
    case (Long, BasisReported) => D
    case (Long, BasisNotReported) => E
    case (Long, No1099Da) => F
  }

  /** A box tells the holding period and the coverage apart, and nothing else. */
  lemma BoxTells(a: FormRow, b: FormRow)
    ensures BoxFor(a) == BoxFor(b) <==> a.period == b.period && a.covered == b.covered
  {
  }

  function InBox(box: Box): FormRow -> bool {
    (row: FormRow) => BoxFor(row) == box
  }

  function SumNet(rows: seq<FormRow>): int {
    if rows == [] then 0 else Net(rows[0]) + SumNet(rows[1..])
  }

  function SumProceeds(rows: seq<FormRow>): int {
    if rows == [] then 0 else rows[0].proceeds + SumProceeds(rows[1..])
  }

  function SumBasis(rows: seq<FormRow>): int {
    if rows == [] then 0 else rows[0].basis + SumBasis(rows[1..])
  }

  function SumAdjustment(rows: seq<FormRow>): int {
    if rows == [] then 0 else Amount(rows[0].adjustment) + SumAdjustment(rows[1..])
  }

  function SubtotalOf(rows: seq<FormRow>): Subtotals {
    Subtotals(SumProceeds(rows), SumBasis(rows), SumAdjustment(rows), SumNet(rows), rows)
  }

  /** All six boxes, empty ones included. */
  function BuildForm(rows: seq<FormRow>): Form8949 {
    map box: Box | true :: SubtotalOf(Filter(rows, InBox(box)))
  }

  lemma FilterNext(rows: seq<FormRow>, i: nat, box: Box)
    requires i < |rows|
    ensures Filter(rows[..i + 1], InBox(box))
         == Filter(rows[..i], InBox(box)) + if BoxFor(rows[i]) == box then [rows[i]] else []
  {
    assert rows[..i + 1] == rows[..i] + [rows[i]];
    FilterAppend(rows[..i], [rows[i]], InBox(box));
  }

  method Build8949(rows: seq<FormRow>) returns (form: Form8949)
    ensures form == BuildForm(rows)
  {
    var byBox: map<Box, seq<FormRow>> := map[A := [], B := [], C := [], D := [], E := [], F := []];
    forall b: Box ensures b in byBox && byBox[b] == Filter(rows[..0], InBox(b)) {
      match b case A | B | C | D | E | F =>
    }
    var i := 0;
    while i < |rows|
      invariant 0 <= i <= |rows|
      invariant forall b: Box :: b in byBox && byBox[b] == Filter(rows[..i], InBox(b))
    {
      var box := BoxFor(rows[i]);
      forall b: Box
        ensures Filter(rows[..i + 1], InBox(b)) == Filter(rows[..i], InBox(b)) + if box == b then [rows[i]] else []
      {
        FilterNext(rows, i, b);
      }
      byBox := byBox[box := byBox[box] + [rows[i]]];
      i := i + 1;
    }
    assert rows[..i] == rows;
    form := map b: Box | true :: SubtotalOf(byBox[b]);
  }

  function BuildScheduleD(form: Form8949): ScheduleD
    requires forall box: Box :: box in form
  {
    var short := form[A].net + form[B].net + form[C].net;
    var long := form[D].net + form[E].net + form[F].net;
    ScheduleD(short, long, short + long)
  }

  function SumNetOf(rows: seq<FormRow>, period: HoldingPeriod): int {
    if rows == [] then 0 else (if rows[0].period == period then Net(rows[0]) else 0) + SumNetOf(rows[1..], period)
  }

  lemma BoxStep(rows: seq<FormRow>, box: Box)
    requires rows != []
    ensures SumNet(Filter(rows, InBox(box)))
         == SumNet(Filter(rows[1..], InBox(box))) + if BoxFor(rows[0]) == box then Net(rows[0]) else 0
  {
    var tail := Filter(rows[1..], InBox(box));
    assert ([rows[0]] + tail)[1..] == tail;
  }

  lemma {:induction false} BoxesByPeriod(rows: seq<FormRow>)
    ensures SumNet(Filter(rows, InBox(A))) + SumNet(Filter(rows, InBox(B))) + SumNet(Filter(rows, InBox(C)))
            == SumNetOf(rows, Short)
    ensures SumNet(Filter(rows, InBox(D))) + SumNet(Filter(rows, InBox(E))) + SumNet(Filter(rows, InBox(F)))
            == SumNetOf(rows, Long)
  {
    if rows != [] {
      BoxesByPeriod(rows[1..]);
      BoxStep(rows, A);
      BoxStep(rows, B);
      BoxStep(rows, C);
      BoxStep(rows, D);
      BoxStep(rows, E);
      BoxStep(rows, F);
    }
  }

  lemma {:induction false} PeriodsAddUp(rows: seq<FormRow>)
    ensures SumNetOf(rows, Short) + SumNetOf(rows, Long) == SumNet(rows)
    ensures SumNet(rows) == SumProceeds(rows) - SumBasis(rows) + SumAdjustment(rows)
  {
    if rows != [] {
      PeriodsAddUp(rows[1..]);
    }
  }

  lemma FormNets(rows: seq<FormRow>)
    ensures forall box: Box :: box in BuildForm(rows) && BuildForm(rows)[box].net == SumNet(Filter(rows, InBox(box)))
  {
  }

  lemma ScheduleOfForm(rows: seq<FormRow>, form: Form8949)
    requires forall box: Box :: box in form && form[box].net == SumNet(Filter(rows, InBox(box)))
    ensures BuildScheduleD(form) == ScheduleD(SumNetOf(rows, Short), SumNetOf(rows, Long), SumNet(rows))
  {
    BoxesByPeriod(rows);
    PeriodsAddUp(rows);
  }

  /** Anti-drift: every row lands in exactly one box of its own holding period, so the parts of Schedule D
      are the sums over the short-term and the long-term rows, and its total the sum over all. */
  lemma ScheduleDAddsUp(rows: seq<FormRow>)
    ensures BuildScheduleD(BuildForm(rows)) == ScheduleD(SumNetOf(rows, Short), SumNetOf(rows, Long), SumNet(rows))
  {
    FormNets(rows);
    ScheduleOfForm(rows, BuildForm(rows));
  }

  function OfKind(period: HoldingPeriod, covered: CoveredStatus): FormRow -> bool {
    (row: FormRow) => row.period == period && row.covered == covered
  }

  /** Box by box: short-term rows go to A, B and C, long-term ones to D, E and F, each in the order of coverage:
      basis reported to the Internal Revenue Service, not reported, and no form 1099-DA at all. */
  lemma BoxesByCoverage(rows: seq<FormRow>)
    ensures var form := BuildForm(rows);
            && A in form && form[A].rows == Filter(rows, OfKind(Short, BasisReported))
            && B in form && form[B].rows == Filter(rows, OfKind(Short, BasisNotReported))
            && C in form && form[C].rows == Filter(rows, OfKind(Short, No1099Da))
            && D in form && form[D].rows == Filter(rows, OfKind(Long, BasisReported))
            && E in form && form[E].rows == Filter(rows, OfKind(Long, BasisNotReported))
            && F in form && form[F].rows == Filter(rows, OfKind(Long, No1099Da))
  {
    RowsOfBox(rows, A, Short, BasisReported);
    RowsOfBox(rows, B, Short, BasisNotReported);
    RowsOfBox(rows, C, Short, No1099Da);
    RowsOfBox(rows, D, Long, BasisReported);
    RowsOfBox(rows, E, Long, BasisNotReported);
    RowsOfBox(rows, F, Long, No1099Da);
  }

  lemma RowsOfBox(rows: seq<FormRow>, box: Box, period: HoldingPeriod, covered: CoveredStatus)
    requires forall row :: BoxFor(row) == box <==> row.period == period && row.covered == covered
    ensures box in BuildForm(rows) && BuildForm(rows)[box].rows == Filter(rows, OfKind(period, covered))
  {
    FilterSame(rows, InBox(box), OfKind(period, covered));
  }

  /** One column of a list of rows. */
  function Column(rows: seq<FormRow>, value: FormRow -> int): int {
    if rows == [] then 0 else value(rows[0]) + Column(rows[1..], value)
  }

  lemma ColumnStep(rows: seq<FormRow>, box: Box, value: FormRow -> int)
    requires rows != []
    ensures Column(Filter(rows, InBox(box)), value)
         == Column(Filter(rows[1..], InBox(box)), value) + if BoxFor(rows[0]) == box then value(rows[0]) else 0
  {
    var tail := Filter(rows[1..], InBox(box));
    assert ([rows[0]] + tail)[1..] == tail;
  }

  lemma {:induction false} SixBoxes(rows: seq<FormRow>, value: FormRow -> int)
    ensures Column(rows, value)
         == Column(Filter(rows, InBox(A)), value) + Column(Filter(rows, InBox(B)), value)
            + Column(Filter(rows, InBox(C)), value) + Column(Filter(rows, InBox(D)), value)
            + Column(Filter(rows, InBox(E)), value) + Column(Filter(rows, InBox(F)), value)
  {
    if rows != [] {
      SixBoxes(rows[1..], value);
      ColumnStep(rows, A, value);
      ColumnStep(rows, B, value);
      ColumnStep(rows, C, value);
      ColumnStep(rows, D, value);
      ColumnStep(rows, E, value);
      ColumnStep(rows, F, value);
    }
  }

  lemma {:induction false} SumsAreColumns(rows: seq<FormRow>)
    ensures SumProceeds(rows) == Column(rows, (row: FormRow) => row.proceeds)
    ensures SumBasis(rows) == Column(rows, (row: FormRow) => row.basis)
    ensures SumAdjustment(rows)
         == Column(rows, (row: FormRow) => if row.adjustment.Some? then row.adjustment.value else 0)
  {
    if rows != [] {
      SumsAreColumns(rows[1..]);
    }
  }

  /** A box's subtotals are the columns of its rows, and its net is the first less the second plus the third. */
  ghost predicate Columns(s: Subtotals) {
    && s.proceeds == Column(s.rows, (row: FormRow) => row.proceeds)
    && s.basis == Column(s.rows, (row: FormRow) => row.basis)
    && s.adjustment == Column(s.rows, (row: FormRow) => if row.adjustment.Some? then row.adjustment.value else 0)
    && s.net == s.proceeds - s.basis + s.adjustment
  }

  lemma SubtotalsAreColumns(rows: seq<FormRow>)
    ensures Columns(SubtotalOf(rows))
  {
    SumsAreColumns(rows);
    PeriodsAddUp(rows);
  }

  /** Column by column the six boxes add up to the rows, and each box's own subtotals are its columns. */
  lemma ColumnsAddUp(rows: seq<FormRow>)
    ensures var form := BuildForm(rows);
            && (forall box: Box :: box in form && Columns(form[box]))
            && form[A].proceeds + form[B].proceeds + form[C].proceeds
               + form[D].proceeds + form[E].proceeds + form[F].proceeds
               == Column(rows, (row: FormRow) => row.proceeds)
            && form[A].basis + form[B].basis + form[C].basis + form[D].basis + form[E].basis + form[F].basis
               == Column(rows, (row: FormRow) => row.basis)
            && form[A].adjustment + form[B].adjustment + form[C].adjustment
               + form[D].adjustment + form[E].adjustment + form[F].adjustment
               == Column(rows, (row: FormRow) => if row.adjustment.Some? then row.adjustment.value else 0)
  {
    forall box: Box ensures Columns(SubtotalOf(Filter(rows, InBox(box)))) {
      SubtotalsAreColumns(Filter(rows, InBox(box)));
    }
    SixBoxes(rows, (row: FormRow) => row.proceeds);
    SixBoxes(rows, (row: FormRow) => row.basis);
    SixBoxes(rows, (row: FormRow) => if row.adjustment.Some? then row.adjustment.value else 0);
  }

  // ---- From the ledger ----

  function EntityOf(lots: seq<Lot>, source: nat): Option<nat> {
    if lots == [] then None else if lots[0].source == source then Some(lots[0].entity) else EntityOf(lots[1..], source)
  }

  /** covered_status of a disposal; 'no-1099-da' unless someone set it. */
  type Coverage = map<(nat, nat), CoveredStatus>

  function Covered1099(coverage: Coverage, row: DisposalRow): CoveredStatus {
    if (row.tx, row.lot) in coverage then coverage[(row.tx, row.lot)] else No1099Da
  }

  function AsFormRow(coverage: Coverage, row: DisposalRow): FormRow {
    FormRow(row.proceeds, row.basis, row.adjustment, row.period, Covered1099(coverage, row))
  }

  /** The disposals of an entity's lots in a tax year. */
  function FetchRows(lots: seq<Lot>, disposals: seq<DisposalRow>, coverage: Coverage, entity: nat,
                     year: int): seq<FormRow> {
    if disposals == [] then []
    else (if EntityOf(lots, disposals[0].lot) == Some(entity) && disposals[0].disposedAt.date.year == year
          then [AsFormRow(coverage, disposals[0])] else [])
         + FetchRows(lots, disposals[1..], coverage, entity, year)
  }

  /** The form row is this disposal, of a lot that is the entity's now, in the year. */
  predicate Reports(lots: seq<Lot>, coverage: Coverage, entity: nat, year: int, row: DisposalRow, reported: FormRow) {
    && EntityOf(lots, row.lot) == Some(entity) && row.disposedAt.date.year == year
    && reported.proceeds == row.proceeds && reported.basis == row.basis && reported.adjustment == row.adjustment
    && reported.period == row.period
    && reported.covered == if (row.tx, row.lot) in coverage then coverage[(row.tx, row.lot)] else No1099Da
  }

  /** The rows of an entity's form are the disposals of its lots in the year, each as the ledger has it. */
  lemma {:induction false} FetchedIff(lots: seq<Lot>, disposals: seq<DisposalRow>, coverage: Coverage, entity: nat,
                                      year: int, reported: FormRow)
    ensures reported in FetchRows(lots, disposals, coverage, entity, year)
            <==> exists row :: row in disposals && Reports(lots, coverage, entity, year, row, reported)
  {
    if disposals != [] {
      FetchedIff(lots, disposals[1..], coverage, entity, year, reported);
      assert Reports(lots, coverage, entity, year, disposals[0], reported)
        <==> EntityOf(lots, disposals[0].lot) == Some(entity) && disposals[0].disposedAt.date.year == year
             && reported == AsFormRow(coverage, disposals[0]);
    }
  }

  /** What the ledger says the entity's disposals of one holding period net in the year. */
  function LedgerNet(lots: seq<Lot>, rows: seq<DisposalRow>, entity: nat, year: int, period: HoldingPeriod): int {
    if rows == [] then 0
    else
      var row := rows[0];
      (if EntityOf(lots, row.lot) == Some(entity) && row.disposedAt.date.year == year && row.period == period
       then row.proceeds - row.basis + (if row.adjustment.Some? then row.adjustment.value else 0) else 0)
      + LedgerNet(lots, rows[1..], entity, year, period)
  }

  lemma {:induction false} FetchedNet(lots: seq<Lot>, disposals: seq<DisposalRow>, coverage: Coverage, entity: nat,
                                      year: int, period: HoldingPeriod)
    ensures SumNetOf(FetchRows(lots, disposals, coverage, entity, year), period)
         == LedgerNet(lots, disposals, entity, year, period)
  {
    if disposals != [] {
      var rest := FetchRows(lots, disposals[1..], coverage, entity, year);
      FetchedNet(lots, disposals[1..], coverage, entity, year, period);
      assert ([AsFormRow(coverage, disposals[0])] + rest)[1..] == rest && [] + rest == rest;
    }
  }

  /** An entity's Schedule D is the ledger's own sum of its disposals in the year, short-term and long-term apart,
      whatever forms the brokers sent. */
  lemma ScheduleDOfEntity(lots: seq<Lot>, disposals: seq<DisposalRow>, coverage: Coverage, entity: nat, year: int)
    ensures var short, long := LedgerNet(lots, disposals, entity, year, Short),
                               LedgerNet(lots, disposals, entity, year, Long);
            BuildScheduleD(BuildForm(FetchRows(lots, disposals, coverage, entity, year)))
              == ScheduleD(short, long, short + long)
  {
    var rows := FetchRows(lots, disposals, coverage, entity, year);
    ScheduleDAddsUp(rows);
    PeriodsAddUp(rows);
    FetchedNet(lots, disposals, coverage, entity, year, Short);
    FetchedNet(lots, disposals, coverage, entity, year, Long);
  }

  function YearProceeds(rows: seq<DisposalRow>, year: int): int {
    if rows == [] then 0
    else (if rows[0].disposedAt.date.year == year then rows[0].proceeds else 0) + YearProceeds(rows[1..], year)
  }

  function YearBasis(rows: seq<DisposalRow>, year: int): int {
    if rows == [] then 0
    else (if rows[0].disposedAt.date.year == year then rows[0].basis else 0) + YearBasis(rows[1..], year)
  }

  function YearDisallowed(rows: seq<DisposalRow>, year: int): int {
    if rows == [] then 0
    else
      var here := if rows[0].disposedAt.date.year == year then Amount(rows[0].adjustment) else 0;
      here + YearDisallowed(rows[1..], year)
  }

  /** The net totals of everyone's Schedule D. */
  function TotalNet(lots: seq<Lot>, disposals: seq<DisposalRow>, coverage: Coverage, entities: seq<nat>,
                    year: int): int {
    if entities == [] then 0
    else BuildScheduleD(BuildForm(FetchRows(lots, disposals, coverage, entities[0], year))).total
         + TotalNet(lots, disposals, coverage, entities[1..], year)
  }

  ghost predicate Distinct(xs: seq<nat>) {
    forall i, j :: 0 <= i < j < |xs| ==> xs[i] != xs[j]
  }

  lemma {:induction false} NoRowsNoNet(lots: seq<Lot>, coverage: Coverage, entities: seq<nat>, year: int)
    ensures TotalNet(lots, [], coverage, entities, year) == 0
  {
    if entities != [] {
      ScheduleDAddsUp([]);
      NoRowsNoNet(lots, coverage, entities[1..], year);
    }
  }

  function YearNet(row: DisposalRow, year: int): int {
    if row.disposedAt.date.year == year then row.proceeds - row.basis + Amount(row.adjustment) else 0
  }

  lemma FetchStep(lots: seq<Lot>, disposals: seq<DisposalRow>, coverage: Coverage, entity: nat, year: int)
    requires disposals != []
    ensures SumNet(FetchRows(lots, disposals, coverage, entity, year))
         == SumNet(FetchRows(lots, disposals[1..], coverage, entity, year))
            + if EntityOf(lots, disposals[0].lot) == Some(entity) then YearNet(disposals[0], year) else 0
  {
    var rest := FetchRows(lots, disposals[1..], coverage, entity, year);
    assert ([AsFormRow(coverage, disposals[0])] + rest)[1..] == rest;
    assert [] + rest == rest;
  }

  /** A row counts for one entity: the one that holds its lot. */
  lemma {:induction false} OneEntityCounts(lots: seq<Lot>, disposals: seq<DisposalRow>, coverage: Coverage,
                                           entities: seq<nat>, year: int)
    requires disposals != [] && Distinct(entities)
    ensures TotalNet(lots, disposals, coverage, entities, year)
         == TotalNet(lots, disposals[1..], coverage, entities, year)
            + if EntityOf(lots, disposals[0].lot).Some? && EntityOf(lots, disposals[0].lot).value in entities
              then YearNet(disposals[0], year) else 0
  {
    if entities != [] {
      ScheduleDAddsUp(FetchRows(lots, disposals, coverage, entities[0], year));
      ScheduleDAddsUp(FetchRows(lots, disposals[1..], coverage, entities[0], year));
      FetchStep(lots, disposals, coverage, entities[0], year);
      forall x | x in entities[1..] ensures x != entities[0] {
        var j :| 0 <= j < |entities[1..]| && entities[1..][j] == x;
        assert entities[j + 1] == x;
      }
      OneEntityCounts(lots, disposals, coverage, entities[1..], year);
    }
  }

  /** Over all entities the Schedule D totals of a year are the ledger's: proceeds less basis plus what
      section 267 disallowed, whoever holds the lots by now. */
  lemma {:induction false} TotalsAgree(lots: seq<Lot>, disposals: seq<DisposalRow>, coverage: Coverage,
                                       entities: seq<nat>, year: int)
    requires Distinct(entities)
    requires forall row :: row in disposals ==>
               EntityOf(lots, row.lot).Some? && EntityOf(lots, row.lot).value in entities
    ensures TotalNet(lots, disposals, coverage, entities, year)
         == YearProceeds(disposals, year) - YearBasis(disposals, year) + YearDisallowed(disposals, year)
  {
    if disposals == [] {
      NoRowsNoNet(lots, coverage, entities, year);
    } else {
      assert disposals[0] in disposals;
      OneEntityCounts(lots, disposals, coverage, entities, year);
      TotalsAgree(lots, disposals[1..], coverage, entities, year);
    }
  }

  // ---- Proceeds of the events that materialised ----

  lemma {:induction false} YearProceedsAppend(a: seq<DisposalRow>, b: seq<DisposalRow>, year: int)
    ensures YearProceeds(a + b, year) == YearProceeds(a, year) + YearProceeds(b, year)
  {
    if a == [] {
      assert a + b == b;
    } else {
      YearProceedsAppend(a[1..], b, year);
      assert (a + b)[1..] == a[1..] + b;
    }
  }

  lemma {:induction false} RowsCarryProceeds(e: Event, lines: seq<Line>, year: int)
    ensures YearProceeds(DisposalRows(e, lines), year)
         == if e.occurredAt.date.year == year then LineProceeds(lines) else 0
  {
    if lines != [] {
      RowsCarryProceeds(e, lines[1..], year);
      assert DisposalRows(e, lines)[1..] == DisposalRows(e, lines[1..]);
    }
  }

  /** Proceeds, in a year, of the events of a pass that booked disposals. */
  function MaterialisedProceeds(reg: Registry, b: Books, events: seq<Event>, year: int): int
    decreases events
  {
    if events == [] then 0
    else match Apply(reg, b, events[0])
      case Raised => 0
      case Posted(next) =>
        (if next.disposals != b.disposals && events[0].occurredAt.date.year == year then ProceedsOf(events[0]) else 0)
        + MaterialisedProceeds(reg, next, events[1..], year)
  }

  lemma DisposalBooksProceeds(reg: Registry, b: Books, e: Event, year: int)
    ensures var next := ApplyDispose(reg, b, e).books;
            YearProceeds(next.disposals, year) == YearProceeds(b.disposals, year)
              + if next.disposals != b.disposals && e.occurredAt.date.year == year then ProceedsOf(e) else 0
  {
    if !HasDisposal(b, e.id) && e.token.Some? {
      var pool, strategy := CanonicalPool(reg, e.token.value), MethodFor(reg, e);
      SelectCovers(b.lots, e.wallet, pool, strategy, e.amount);
      match Select(b.lots, e.wallet, pool, strategy, e.amount) {
        case Insufficient(_) =>
        case Covered(slices) =>
          var lines := BuildLines(slices, ProceedsOf(e), e.occurredAt, strategy);
          YearProceedsAppend(b.disposals, DisposalRows(e, lines), year);
          RowsCarryProceeds(e, lines, year);
          if slices != [] {
            ProceedsSumExact(slices, Taken(slices), ProceedsOf(e), 0, e.occurredAt, strategy);
            LinesKeepSlices(slices, Taken(slices), ProceedsOf(e), 0, e.occurredAt, strategy);
            assert |b.disposals + DisposalRows(e, lines)| > |b.disposals|;
          } else {
            assert b.disposals + DisposalRows(e, lines) == b.disposals;
          }
      }
    }
  }

  lemma {:induction false} RunBooksProceeds(reg: Registry, b: Books, events: seq<Event>, year: int)
    requires Run(reg, b, events).Posted?
    ensures YearProceeds(Run(reg, b, events).books.disposals, year)
         == YearProceeds(b.disposals, year) + MaterialisedProceeds(reg, b, events, year)
    decreases events
  {
    if events != [] {
      var e := events[0];
      if TreatmentOf(e) == Dispose {
        DisposalBooksProceeds(reg, b, e, year);
      } else {
        OnlyDisposalsDispose(reg, b, e);
      }
      RunBooksProceeds(reg, Apply(reg, b, e).books, events[1..], year);
    }
  }

  lemma {:induction false} EntityFound(lots: seq<Lot>, source: nat)
    requires HasSource(lots, source)
    ensures EntityOf(lots, source).Some? && exists lot :: lot in lots && lot.entity == EntityOf(lots, source).value
  {
    if lots[0].source == source {
      assert lots[0] in lots;
    } else {
      var k :| 0 <= k < |lots| && lots[k].source == source;
      assert lots[1..][k - 1].source == source;
      EntityFound(lots[1..], source);
      var lot :| lot in lots[1..] && lot.entity == EntityOf(lots[1..], source).value;
      assert lot in lots;
    }
  }

  /** Schedule D agrees with the ledger to the last digit: summed over all entities, a year's total after a
      pass from empty books is the proceeds of the disposal events that materialised in that year, less the
      basis their lots gave up, plus the losses disallowed. */
  lemma ScheduleDAgrees(reg: Registry, events: seq<Event>, coverage: Coverage, entities: seq<nat>, year: int)
    requires Run(reg, EMPTY, events).Posted? && Distinct(entities)
    requires forall lot :: lot in Run(reg, EMPTY, events).books.lots ==> lot.entity in entities
    ensures var b := Run(reg, EMPTY, events).books;
            TotalNet(b.lots, b.disposals, coverage, entities, year)
              == MaterialisedProceeds(reg, EMPTY, events, year) - YearBasis(b.disposals, year)
                + YearDisallowed(b.disposals, year)
  {
    var b := Run(reg, EMPTY, events).books;
    RunSound(reg, EMPTY, events);
    RunBooksProceeds(reg, EMPTY, events, year);
    SoundTotalsAgree(b, coverage, entities, year);
  }

  /** In sound books every disposal is on a known lot, so the totals agree. */
  lemma SoundTotalsAgree(b: Books, coverage: Coverage, entities: seq<nat>, year: int)
    requires Sound(b) && Distinct(entities) && forall lot :: lot in b.lots ==> lot.entity in entities
    ensures TotalNet(b.lots, b.disposals, coverage, entities, year)
         == YearProceeds(b.disposals, year) - YearBasis(b.disposals, year) + YearDisallowed(b.disposals, year)
  {
    DisposalCutsAt(b.disposals);
    forall row | row in b.disposals
      ensures EntityOf(b.lots, row.lot).Some? && EntityOf(b.lots, row.lot).value in entities
    {
      var i :| 0 <= i < |b.disposals| && b.disposals[i] == row;
      assert Cuts(b)[i].lot == row.lot;
      EntityFound(b.lots, row.lot);
    }
    TotalsAgree(b.lots, b.disposals, coverage, entities, year);
  }

  // ---- Over whole histories ----

  /** The year's proceeds on lots of the wallet: what a wipe takes off the books. */
  function WipedProceeds(b: Books, rows: seq<DisposalRow>, wallet: nat, year: int): int {
    if rows == [] then 0
    else (if LotIn(b, rows[0].lot, wallet) && rows[0].disposedAt.date.year == year then rows[0].proceeds else 0)
         + WipedProceeds(b, rows[1..], wallet, year)
  }

  lemma {:induction false} WipeTakesOff(b: Books, rows: seq<DisposalRow>, wallet: nat, year: int)
    ensures YearProceeds(Filter(rows, OnOtherLot(b, wallet)), year)
            == YearProceeds(rows, year) - WipedProceeds(b, rows, wallet, year)
  {
    if rows != [] {
      WipeTakesOff(b, rows[1..], wallet, year);
    }
  }

  /** What a step adds to a year's proceeds: those of the disposal events that materialise in it, less those
      a rebuild takes off first; a step that throws adds nothing. */
  function StepProceeds(b: Books, step: Step, year: int): int {
    match step
    case Pass(reg, events) =>
      if Run(reg, b, events).Posted? then MaterialisedProceeds(reg, b, events, year) else 0
    case Rebuilding(reg, wallet) =>
      if Rebuild(reg, b, wallet).Posted?
      then MaterialisedProceeds(reg, Wipe(reg, b, wallet), WalletEvents(reg, wallet), year)
           - WipedProceeds(b, b.disposals, wallet, year)
      else 0
  }

  function HistoryProceeds(b: Books, steps: seq<Step>, year: int): int
    decreases steps
  {
    if steps == [] then 0 else StepProceeds(b, steps[0], year) + HistoryProceeds(After(b, steps[0]), steps[1..], year)
  }

  lemma {:induction false} HistoryBooksProceeds(b: Books, steps: seq<Step>, year: int)
    ensures YearProceeds(History(b, steps).disposals, year)
            == YearProceeds(b.disposals, year) + HistoryProceeds(b, steps, year)
    decreases steps
  {
    if steps != [] {
      match steps[0] {
        case Pass(reg, events) =>
          if Run(reg, b, events).Posted? {
            RunBooksProceeds(reg, b, events, year);
          }
        case Rebuilding(reg, wallet) =>
          if Rebuild(reg, b, wallet).Posted? {
            WipeTakesOff(b, b.disposals, wallet, year);
            RunBooksProceeds(reg, Wipe(reg, b, wallet), WalletEvents(reg, wallet), year);
          }
      }
      HistoryBooksProceeds(After(b, steps[0]), steps[1..], year);
    }
  }

  /** And so after any history of passes and rebuilds, with events reclassified in between: a year's total over
      all entities is what the history's disposals brought in, less basis, plus the losses disallowed. */
  lemma ScheduleDAlwaysAgrees(steps: seq<Step>, coverage: Coverage, entities: seq<nat>, year: int)
    requires Distinct(entities) && forall lot :: lot in History(EMPTY, steps).lots ==> lot.entity in entities
    ensures var b := History(EMPTY, steps);
            TotalNet(b.lots, b.disposals, coverage, entities, year)
              == HistoryProceeds(EMPTY, steps, year) - YearBasis(b.disposals, year) + YearDisallowed(b.disposals, year)
  {
    var b := History(EMPTY, steps);
    EmptySound();
    HistorySound(EMPTY, steps);
    HistoryBooksProceeds(EMPTY, steps, year);
    SoundTotalsAgree(b, coverage, entities, year);
  }

  /** What a disposal adds to the form: proceeds less basis, except that a loss to a related party nets nothing. */
  lemma RelatedPartyNetsNoLoss(reg: Registry, b: Books, e: Event, coverage: Coverage, k: nat)
    requires |b.disposals| <= k < |ApplyDispose(reg, b, e).books.disposals|
    ensures var row := ApplyDispose(reg, b, e).books.disposals[k];
            Net(AsFormRow(coverage, row)) == if e.resolution == Some(DisposalRelatedParty)
                                             then Max(row.proceeds - row.basis, 0)
                                             else row.proceeds - row.basis
  {
    DisposalBooks(reg, b, e, k);
  }
}
