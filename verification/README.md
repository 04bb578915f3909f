# Lemon Ledger, modelled and proved

Lemon Ledger turns blockchain transactions into classified events, tax lots, disposals and the totals of
Form 8949 and Schedule D. This project restates its core in Dafny and proves what the core is for.

**The lot engine.** A lot is consumed greedily in FIFO or HIFO order; each slice gives up a rounded share of
the lot's basis and receives a rounded share of the proceeds. `Lots`, `Selection`, `Rounding`, `Excess` and
`Disposals` specify that walk and prove HIFO optimal, FIFO long-term first, the rounding bounds, when rounding can
exceed a lot's basis, and exact sums. `Events` and `Books` specify what one classified event does to the tables;
`Conservation`, `Guarantees`, `Flows` and `Carrying` prove what every run keeps and what a relocation takes along,
`Scopes`, `Replay`, `Passes` and `Posting` why pools commute, why the pipeline's order of wallets does not matter and
why a rebuild is a replay, `Repeats`, `Rebuilding` and `Idempotence` when a second pass or a second rebuild is idle and
which lots a rebuild brings back. `Chronology` says in plain numbers which event comes first and when a wallet run in
that order is never short, `Elections` who owns a wallet and which lots the owner's election sells first, `Entries` what
each kind of event books, to the last column, and `Gains` what every booked disposal says of its gain and of a loss
disallowed. `LedgerClass.Ledger` is the engine as it runs: tables updated row by row, each
method proved against `Books`. `Forms` carries the sums to Schedule D, and `Attribution` says whose they are when lots
have moved since.

**Bridge pairing.** `Pairing` is one pass of the greedy matching over eligible legs, `Bridge` the scoring,
the ageing out and the user's decisions, `Settling` why a repeated pass is idle, `Decisions` what is true after
any interleaving of them, `Verdicts` when a confirmed leg stays part of its bridge, `Grades` the thresholds in
amounts and microseconds and what each action leaves on rows and events, and `Workflow` the loops that edit the rows in
place.

**Ingestion.** `Sync` is the recursive bisection under the two-commit cursor, with a crash possible before,
between and after the commits; `Backfill` the adaptive crawl and its cursor; `TokenBucket` the script of the
rate limiter.

**Resolution and classification.** `Resolve` is the audited state machine of pending classifications and the
legs it stamps, and `Consequences` what the lot engine then books: the loss disallowed, the gift flagged, the lots moved
and retyped. `Classify` is the recognizers, decoders and common layer over one transaction: `Partition` proves that each
transfer becomes one event, `Directions` that every event is true to the movement it is about, `Kinds` which kind a
transfer gets, `Income` what may be booked as income. `ClassifierClass` is their loops.

## How the model reads

- Monetary amounts and quantities are integers in units of 1e-18. Quotients are exact, with the roundings the
  program names (half-even for basis, round-down for proceeds). The program's decimals carry 28 digits; with
  exact quotients the two branches that compute a slice's basis agree.
- A lot is named by the event that opened it, a unique column, and tables list rows in the order of creation,
  which is the order of their time-ordered ids. A stable sort therefore breaks ties as the ids do.
- A call that throws rolls its transaction back. A relocation without enough lots at its source throws, because
  nothing there catches the shortage; a negative acquired amount throws on the table's own constraint.
- Gifts leave no quantity in the program's tables; the ledger keeps them as ghost history so that conservation
  can be stated.
- Custody facts, entity treatments, prices, mint fees, what a wallet is synced past, block heads, clock readings,
  node answers and crashes are parameters, and theorems hold for all of them.
- `chunk_blocks` is positive and the bucket's rate is not negative, as their settings are.

## Where code and documentation disagree

The model follows the code.

- The docstring of `consume` says that anchoring the exhausting slice prevents accumulated rounding from
  exceeding the lot's basis. It does not: `Rounding.BookedBasisCanExceed` is an input, `Excess.SomeSplitExceedsIff`
  says in closed form for which lots some split exceeds, and `Guarantees.BasisDrift` is the bound that does hold.
  Exact equality is a separate matter: `Rounding.UsingUpIsExactIff`.
- The docstring of the bridge relocation says that the difference between what was sent and what arrived stays in
  the source wallet. Whole lots move, with all that remains of them: `Carrying.FeeGoesAlong` is an input and
  `Carrying.RelocationMovesExactlyIff` says when exactly the amount moves.
- `process_wallet_lots` is documented as idempotent. It is exactly when the first pass records no failure:
  `Repeats.SecondPassIsIdleIff`, with an input in `Repeats.SecondTimeSells`.
- `rebuild_wallet` is documented as idempotent. Once a relocation has brought lots in from another wallet it is not:
  the wipe drops them, and the replayed relocation finds nothing at its source. `Idempotence.RebuildTwiceThrows` is an
  input; `Idempotence.RebuildIdempotentIff` says when a repeated rebuild is idle and `Rebuilding.LotsComeBackIff` when
  a rebuild loses no lot.
- The read model's docstring calls attribution by a lot's current entity correct. A later move to another entity takes
  disposals of earlier years along, and retyping a reward as a contribution or a gift takes it out of the income of
  its year: `Attribution.GivingRewritesTheYear`, with the exact conditions in `Attribution.ReportedIsSoldIff`,
  `Attribution.IncomeIsEarnedIff` and `Attribution.EveryonesIncomeIff`.
- A decision by the user is meant to survive automation. The rows do, but ageing out a stray single row can
  restore a confirmed leg to a taxable transfer: `Decisions.AgeingCanUndoADecision`, with the exact condition in
  `Decisions.SurfaceKeepsBridgeIff` for one ageing out and in `Verdicts.BridgedForGoodIff` for all that may follow.
  Rejecting a second row for the same outflow undoes a confirmation too: `Verdicts.RejectingTheRivalUndoes`, and
  `Verdicts.BridgedThroughoutIff` for any actions.
- The resolve service promises that automation never reopens a row the user resolved. `reclassify` guards against
  the one actor name "rule" and no other, `resolve_classification` with a rule not at all:
  `Resolve.RuleEngineReclassifies` and `Resolve.RuleOverrulesUser` are inputs, `Resolve.AutomationOverrulesIff` the
  exact condition for one call and `Resolve.GuardProtectsIff` for any run of reclassifications.
- Changing a choice takes no stamp off an inflow leg: `Resolve.GiftThenSale` and, for every such history,
  `Resolve.SoldAndMoved`, with the exact condition in `Resolve.InflowAgreesIff`.

## Model

| member | source | states |
|---|---|---|
| Selection.HifoOptimal | apps/api/src/lemon_ledger/domain/lots/methods.py:46-57 | HIFO is optimal: over every pool of open lots and every feasible choice of takes, the greedy walk in HIFO order covers the same quantity and gives up at least as much exact (unrounded) basis |
| Selection.FifoLongFirst | apps/api/src/lemon_ledger/domain/lots/engine.py:219-224 | FIFO slices list every long-term lot before every short-term one, for every disposal date |
| Calendar.HoldingMonotone | apps/api/src/lemon_ledger/domain/lots/engine.py:219-224 | An older acquisition is long-term whenever a younger one is: the anniversary with the 29 February clamp is monotone in the acquisition date |
| Calendar.HoldingBoundary | apps/api/src/lemon_ledger/domain/lots/engine.py:219-224 | In year, month and day: short up to and on the same day of the next year, long from the day after; what was acquired on 29 February is long from 1 March |
| Lots.WalkLots | apps/api/src/lemon_ledger/domain/lots/engine.py:129-152 | The loop over ordered lots, with its two ways of computing a slice's basis, returns what the recursive walk returns, shortage included |
| Lots.ConsumeLots | apps/api/src/lemon_ledger/domain/lots/engine.py:115-152 | Ordering the lots by the method and walking them returns the walk over the lots sorted by that method's key |
| Lots.ConsumeExact | apps/api/src/lemon_ledger/domain/lots/engine.py:132-152 | The walk covers a quantity exactly when the lots hold it, takes exactly that quantity, and otherwise reports exactly what is missing |
| Lots.ConsumePrefix | apps/api/src/lemon_ledger/domain/lots/engine.py:132-152 | Slices cut a prefix of the ordered lots, each positively and within what remains, and exhaust every touched lot except possibly the last |
| Lots.ConsumeWithinRemaining | apps/api/src/lemon_ledger/domain/lots/engine.py:132-152 | No lot gives more than it has left, however the walk goes |
| Rounding.WholeLotExact | apps/api/src/lemon_ledger/domain/lots/engine.py:138-142 | A lot taken whole in one slice is booked at exactly its cost basis |
| Rounding.DriftBound | apps/api/src/lemon_ledger/domain/lots/engine.py:132-147 | After n slices the booked basis is within n half-units of 1e-18 of the exact pro-rata basis |
| Excess.SomeSplitExceedsIff | apps/api/src/lemon_ledger/domain/lots/engine.py:120-147 | Some way of using a lot up books more than its basis, against the docstring, if and only if a closed form in basis and quantity says so: with k whole units a piece and remainder c, always when c is more than half the quantity, on an exact half when k is odd or there are six pieces or more, otherwise when the first slice to be rounded up fits in more than c times |
| Excess.RepeatingIsWorst | apps/api/src/lemon_ledger/domain/lots/engine.py:120-147 | The split to look at: repeating the least slice booked above its share, and then taking the rest, exceeds the basis whenever any split does |
| Rounding.UsingUpIsExactIff | apps/api/src/lemon_ledger/domain/lots/engine.py:138-147 | Using a lot up, in whatever slices, always books exactly its basis, neither more nor less, if and only if the basis divides evenly by the quantity |
| Rounding.BookedBasisCanExceed | apps/api/src/lemon_ledger/domain/lots/engine.py:120-126 | Anchoring the exhausting slice does not keep the booked basis within the lot's, contrary to the docstring: a concrete split books more than the basis |
| Decimals.HalfEvenNearest | apps/api/src/lemon_ledger/domain/lots/engine.py:140-144 | The half-even quotient is never further than half a unit from the exact one, and even on a tie |
| Decimals.HalfEvenUnique | apps/api/src/lemon_ledger/domain/lots/engine.py:140-144 | Those two properties leave one integer only, so they define the rounding |
| Decimals.TruncateTowardsZero | apps/api/src/lemon_ledger/domain/lots/engine.py:194-196 | The round-down quotient is less than a unit from the exact one, on the side of zero, for either sign |
| Disposals.AllocateProceeds | apps/api/src/lemon_ledger/domain/lots/engine.py:171-216 | The loop with its running total and last-slice sweep returns the lines of the recursive allocation |
| Disposals.ProceedsSumExact | apps/api/src/lemon_ledger/domain/lots/engine.py:171-200 | The lines add up to the total proceeds to the last digit, whatever its sign and the shares |
| Disposals.ProceedsFair | apps/api/src/lemon_ledger/domain/lots/engine.py:185-200 | With proceeds not negative no line is negative, each is less than a unit below its exact share, and only the last exceeds its share, by less than one unit per other line |
| Disposals.LinesKeepSlices | apps/api/src/lemon_ledger/domain/lots/engine.py:190-216 | There is one line per slice, in order, with the slice's lot, quantity and basis, a gain of the proceeds less the basis, signed, the lot's asset class, and a long period exactly when the disposal is later than the anniversary of the lot's own acquisition |
| Gains.HistoryHonest | apps/api/src/lemon_ledger/domain/lots/engine.py:200-206 | After any history of passes and rebuilds every disposal row's gain is its proceeds less its basis, and what it disallows, if anything, is its loss, whole |
| Gains.RunBooks | apps/api/src/lemon_ledger/domain/lots/engine.py:541-577 | Every disposal row a pass adds is booked by one of its selling events, at its time, with that gain, and a loss disallowed exactly when the event is a sale to a related party below basis |
| Gains.DisposalBooks | apps/api/src/lemon_ledger/domain/lots/engine.py:541-577 | And it is about a lot that was in the event's wallet with that much left, of that lot's class and period, under the owner's method |
| Elections.OwnerIff | apps/api/src/lemon_ledger/domain/lots/engine.py:327-345 | A wallet's owner on a day is the entity of the first assignment whose dates, compared as YYYYMMDD, include the day, and there is none exactly when none does |
| Elections.SellableIff | apps/api/src/lemon_ledger/domain/lots/engine.py:60-102 | The lots a sale may take are exactly those of the wallet with something left that share the token's asset, or its very token if it has none |
| Elections.ElectionIsBest | apps/api/src/lemon_ledger/domain/lots/engine.py:353-377 | When the owner of the day has elected specific identification, a sale or gift gives up at least the exact basis of any other way to take its amount from those lots, and books at most half a unit a slice less |
| Elections.ElectedDearestFirst | apps/api/src/lemon_ledger/domain/lots/methods.py:46-57 | And it takes from a lot only when every dearer one, and of equally dear ones every older one, is used up |
| Elections.OtherwiseOldestFirst | apps/api/src/lemon_ledger/domain/lots/engine.py:353-377 | Without that election a sale or gift takes from a lot only when every older lot it may take from is used up |
| Conservation.ApplySound | apps/api/src/lemon_ledger/domain/lots/engine.py:400-422 | Every branch of apply_event keeps the accounts: 0 <= remaining <= quantity, remaining plus everything ever cut is the quantity, cuts name known lots, and each cut is booked within half a unit of pro rata |
| Conservation.RunSound | apps/api/src/lemon_ledger/domain/lots/service.py:24-47 | So does every pass over any events |
| Guarantees.WipeSound | apps/api/src/lemon_ledger/domain/lots/engine.py:823-857 | So does the wipe that starts a rebuild: what survives it still accounts for every surviving lot |
| Guarantees.HistorySound | apps/api/src/lemon_ledger/domain/lots/engine.py:400-422 | So does every history of passes and rebuilds, with events reclassified in between and failing steps rolled back |
| Guarantees.PoolConserved | apps/api/src/lemon_ledger/domain/lots/engine.py:425-577 | After any history, per canonical pool and over all wallets, the lots' quantity is what remains plus what was disposed of plus what was given away |
| Entries.AcquisitionOpens | apps/api/src/lemon_ledger/domain/lots/engine.py:262-506 | An unresolved reward, mint, transfer in or redeemed NFT that has a price of its own or of its swap credit, a token and an owner opens one lot, given column by column, and nothing else; with a negative amount it throws |
| Entries.AcquisitionFails | apps/api/src/lemon_ledger/domain/lots/engine.py:425-506 | Any other of those, unless it is booked already, records a missing basis and nothing else |
| Entries.SaleBooks | apps/api/src/lemon_ledger/domain/lots/engine.py:508-577 | What left, was burnt, was paid with as a swap credit or was resolved as sold takes its amount out of lots in rows that share out its value to the last digit, or nothing when burnt or unpriced, and changes nothing else |
| Entries.ShortageFails | apps/api/src/lemon_ledger/domain/lots/engine.py:517-548 | A sale or gift without a token, or without lots enough, records that, with exactly what is missing, and nothing else |
| Entries.GiftBooks | apps/api/src/lemon_ledger/domain/lots/engine.py:764-817 | A gift out takes its amount, logs each lot as moved from its wallet to the same one as a gift, books no disposal and is flagged |
| Entries.LoanFlags | apps/api/src/lemon_ledger/domain/lots/engine.py:421-422 | A loan is flagged and that is all |
| Entries.IdleBooksNothing | apps/api/src/lemon_ledger/domain/lots/engine.py:239-289 | Stakes, wraps, outgoing sides of moves and whatever waits for a decision book nothing at all |
| Entries.ArrivalMoves | apps/api/src/lemon_ledger/domain/lots/engine.py:583-758 | A posted arrival, bridged or resolved, moves lots from the wallet of the event it names, logs each with the reason of its resolution, hands them to the owner of the day, retypes contributions and gifts only, flags gifts only, and changes nothing else |
| Entries.LostArrivalFails | apps/api/src/lemon_ledger/domain/lots/engine.py:599-619 | An arrival whose counterpart is not on record, or not named, is recorded as a missing basis |
| Flows.RunConserves | apps/api/src/lemon_ledger/domain/lots/engine.py:400-422 | Over any pass, relocations included, a pool's balance over all wallets moves by the amounts of the acquisitions that opened lots less the amounts of the disposals and gifts that were covered |
| Flows.RunLotsOpened | apps/api/src/lemon_ledger/domain/lots/engine.py:425-488 | Every lot a pass adds shows at its end the quantity, value, time and pool of the acquisition event that opened it |
| Flows.OpensWhole | apps/api/src/lemon_ledger/domain/lots/engine.py:425-488 | A lot that an event opens is whole, in the event's wallet, and owned by whoever owned that wallet on the day |
| Flows.RelocationArrives | apps/api/src/lemon_ledger/domain/lots/engine.py:637-758 | A posted relocation takes whole lots of the one pool from the source wallet to the event's wallet and its owner, retyped as the resolution says, logs one move for each, and leaves every other lot as it was |
| Guarantees.BasisDrift | apps/api/src/lemon_ledger/domain/lots/engine.py:132-147 | After any history the basis booked against a lot is within one half-unit per slice of its basis pro rata to the quantity consumed, and that quantity is exactly what the lot has lost |
| Guarantees.DisposeAllOrNothing | apps/api/src/lemon_ledger/domain/lots/engine.py:508-577 | A disposal takes exactly the event's amount and records cuts of exactly that, or changes no lot and no disposal |
| Guarantees.GiftAllOrNothing | apps/api/src/lemon_ledger/domain/lots/engine.py:764-817 | A gift takes exactly the event's amount and records cuts of exactly that, or changes no lot and no gift |
| Guarantees.RunDescends | apps/api/src/lemon_ledger/domain/lots/engine.py:400-422 | No pass changes a lot's origin, quantity, basis, asset class or acquisition time, adds to what remains of it, or reorders the table, so moves carry holding periods with them |
| Guarantees.RelocationMovesShortestPrefix | apps/api/src/lemon_ledger/domain/lots/engine.py:637-674 | A relocation moves the shortest FIFO prefix of whole lots that covers the amount: what moves is at least the amount and exceeds it by less than the last lot holds; it throws exactly when the pool holds less |
| Carrying.RelocationMovesExactlyIff | apps/api/src/lemon_ledger/domain/lots/engine.py:583-674 | What a posted relocation carries along is never less than the event's amount, and exactly that if and only if some first lots of the source pool, oldest first, hold exactly that |
| Carrying.FeeGoesAlong | apps/api/src/lemon_ledger/domain/lots/engine.py:583-631 | One lot of 10 is sent and 9 arrive: the lot moves with all 10, and nothing stays behind as a fee |
| Passes.PoolsCommute | apps/api/src/lemon_ledger/domain/lots/engine.py:73-102 | When both orders go through, events of different (wallet, canonical pool) keys commute in every pool no relocation crosses, from any books whose rows respect the pool's border |
| Posting.OwnPoolsCommute | apps/api/src/lemon_ledger/domain/lots/engine.py:73-102 | Two events neither of which relocates commute without that premise: both orders throw, or both go through and leave the pool the same |
| Passes.InterleavingsAgree | apps/api/src/lemon_ledger/tasks/sync.py:172-187 | Two passes that agree on the events of a set of pools leave those pools with the same books, however the rest is interleaved |
| Chronology.WalletInTime | apps/api/src/lemon_ledger/domain/lots/service.py:30-39 | The events of a pass over a wallet are the wallet's, and each comes before all that follow it: by year, month, day and time of day, then block, then place in the transaction, then id |
| Chronology.ChronologyInTime | apps/api/src/lemon_ledger/domain/lots/engine.py:841-852 | So are those of one pass over several wallets |
| Chronology.NeverShortIff | apps/api/src/lemon_ledger/domain/lots/service.py:24-47 | A pass from nothing over a wallet that no relocation enters or leaves, with acquisitions that are priced and owned, goes through, and records no failure if and only if before each disposal or gift, by those numbers and however the events are listed, the wallet has acquired in the pool what the event takes and what it parted with earlier |
| Passes.PipelineIsChronological | apps/api/src/lemon_ledger/tasks/sync.py:172-187 | When both go through, applying events wallet by wallet books in every pool no relocation touches what one chronological pass over all wallets books there; what chronological means is Chronology.ChronologyInTime |
| Posting.PassPostsIff | apps/api/src/lemon_ledger/domain/lots/engine.py:425-488 | A pass none of whose events relocates goes through if and only if every acquisition of a negative amount in it, priced and owned, is booked already; the order of the events has no part in it |
| Posting.PipelineMatchesChronology | apps/api/src/lemon_ledger/tasks/sync.py:172-187 | Where nothing relocates, the wallet-by-wallet and the chronological pass both throw, or both go through and book the same in every pool |
| Passes.RebuildIsReplay | apps/api/src/lemon_ledger/domain/lots/engine.py:823-857 | Rebuilding a wallet that no relocation crosses yields what replaying its events from empty books yields, whatever was booked before; only flags set earlier stay set |
| Passes.RebuildForgets | apps/api/src/lemon_ledger/domain/lots/engine.py:823-857 | After any two histories from nothing, with events arriving, tokens joining assets and classifications changing between their steps, a rebuild that goes through leaves the wallet with the same lots, disposals, relocations and failures, provided that at no step a relocation crosses the wallet's border |
| Passes.ArrivalsExtend | apps/api/src/lemon_ledger/domain/lots/engine.py:823-857 | A later registry serves such histories as soon as it still has every earlier event, in its wallet |
| Idempotence.RebuildRemembersMoves | apps/api/src/lemon_ledger/domain/lots/engine.py:823-857 | Why that proviso: with a bridge out of the wallet in the past, and without it, a rebuild under one registry leaves different books |
| Passes.RebuildLeavesOthers | apps/api/src/lemon_ledger/domain/lots/engine.py:823-857 | A rebuild of a wallet whose border no relocation crosses changes nothing of any other wallet's books |
| Rebuilding.LotsComeBackIff | apps/api/src/lemon_ledger/domain/lots/engine.py:823-857 | A rebuild that goes through loses no lot of any wallet if and only if every lot the wallet holds was opened by an event of the wallet's own; what a relocation had brought in is wiped for good |
| Rebuilding.NewLotIsOpened | apps/api/src/lemon_ledger/domain/lots/engine.py:425-488 | A lot appears only with the event it is named after, and only when that is a priced acquisition with a token and an owner |
| Idempotence.RebuildIdempotentIff | apps/api/src/lemon_ledger/domain/lots/engine.py:823-828 | After any history, a rebuild that goes through and is repeated at once changes nothing, as documented, if and only if no relocation row shows a lot of the wallet's to have come from another wallet |
| Idempotence.RebuildTwiceIsIdleIff | apps/api/src/lemon_ledger/domain/lots/engine.py:823-857 | The same from any sound books whose relocation rows are about lots in the table |
| Idempotence.RebuildTwiceThrows | apps/api/src/lemon_ledger/domain/lots/engine.py:823-857 | A purchase bridged to a second wallet: rebuilding that wallet books the arrival, rebuilding it again, or once the pipeline has run, throws |
| Repeats.SecondPassIsIdleIff | apps/api/src/lemon_ledger/domain/lots/service.py:24-47 | A second pass over the same events, with distinct ids, changes nothing at all if and only if the first recorded no failure |
| Repeats.SecondTimeSells | apps/api/src/lemon_ledger/domain/lots/service.py:24-47 | A sale entered before its purchase: the first pass fails on it and books the purchase, the second sells the lot |
| Passes.SecondPassIsIdle | apps/api/src/lemon_ledger/domain/lots/service.py:24-47 | After a pass that records no failure a second pass over the same events, whatever their ids, changes nothing at all, relocations included |
| Passes.FlagsUnread | apps/api/src/lemon_ledger/domain/lots/engine.py:400-422 | Review flags are written and never read: they change no outcome |
| Replay.RunSeen | apps/api/src/lemon_ledger/domain/lots/engine.py:73-102 | A pass seen through a set of pools is the pass of those pools' events alone, and keeps rows within their border |
| LedgerClass.Ledger.Acquire | apps/api/src/lemon_ledger/domain/lots/engine.py:425-488 | The method's branches leave the tables as the specified acquisition does, and refuse exactly when that raises |
| LedgerClass.Ledger.Dispose | apps/api/src/lemon_ledger/domain/lots/engine.py:508-577 | Selecting, allocating, decrementing and inserting line by line leaves the tables as the specified disposal does |
| LedgerClass.Ledger.GiftOut | apps/api/src/lemon_ledger/domain/lots/engine.py:764-817 | Decrementing and logging slice by slice leaves the tables as the specified gift does |
| LedgerClass.Ledger.MoveSlices | apps/api/src/lemon_ledger/domain/lots/engine.py:637-674 | Moving lot by lot and recording each move leaves the tables as the move of all slices at once |
| LedgerClass.Ledger.Relocate | apps/api/src/lemon_ledger/domain/lots/engine.py:583-758 | Both relocation branches, with the later retyping of moved lots, leave the tables as the specified relocation does |
| LedgerClass.Ledger.ApplyEvent | apps/api/src/lemon_ledger/domain/lots/engine.py:400-422 | The dispatch leaves the tables as the specified event does, or as they were when it throws |
| LedgerClass.Ledger.ProcessWallet | apps/api/src/lemon_ledger/domain/lots/service.py:24-47 | The loop in canonical order is the specified pass, rolled back when it throws |
| LedgerClass.Ledger.RunPipeline | apps/api/src/lemon_ledger/tasks/sync.py:172-187 | The nested loops over wallets and events are one pass over the wallets' events in that order, rolled back when it throws |
| LedgerClass.Ledger.WipeWallet | apps/api/src/lemon_ledger/domain/lots/engine.py:823-845 | The deletions leave the tables as the specified wipe does |
| LedgerClass.Ledger.RebuildWallet | apps/api/src/lemon_ledger/domain/lots/engine.py:823-857 | Wipe and replay leave the tables as the specified rebuild does, or as they were when it throws |
| Forms.Build8949 | apps/api/src/lemon_ledger/domain/forms/form_8949.py:87-130 | The loop that fills the six boxes returns the form whose boxes are the rows filtered by box, with their sums |
| Forms.BoxTells | apps/api/src/lemon_ledger/domain/forms/form_8949.py:31-46 | Two rows share a box exactly when they share holding period and coverage |
| Forms.BoxesByCoverage | apps/api/src/lemon_ledger/domain/forms/form_8949.py:31-46 | Box by box: A, B and C hold the short-term rows and D, E and F the long-term ones, with basis reported, basis not reported, and no form 1099-DA, in the order of the rows |
| Forms.ColumnsAddUp | apps/api/src/lemon_ledger/domain/forms/form_8949.py:113-122 | Each box's proceeds, basis and adjustment are those columns of its own rows and its net the first less the second plus the third; over the six boxes each column adds up to that column of all rows |
| Forms.ScheduleDAddsUp | apps/api/src/lemon_ledger/domain/forms/schedule_d.py:33-49 | Every row lands in exactly one box of its own period: the parts of Schedule D are the sums over the short-term and the long-term rows and its total the sum over all |
| Forms.FetchedIff | apps/api/src/lemon_ledger/domain/forms/read_model.py:54-107 | The rows of an entity's form are exactly the ledger's disposals of lots that are the entity's, in the year, each with its own proceeds, basis, adjustment, period and coverage |
| Forms.ScheduleDOfEntity | apps/api/src/lemon_ledger/domain/forms/read_model.py:54-107 | An entity's Schedule D is the ledger's sum over those disposals, short-term and long-term apart, whatever was reported on form 1099-DA |
| Forms.TotalsAgree | apps/api/src/lemon_ledger/domain/forms/read_model.py:54-107 | Over all entities a year's Schedule D totals are the ledger's proceeds less basis plus disallowed losses, whoever holds the lots by now |
| Forms.RunBooksProceeds | apps/api/src/lemon_ledger/domain/lots/engine.py:550-575 | A pass adds to a year's booked proceeds exactly the proceeds of the disposal events of that year that materialised |
| Forms.ScheduleDAgrees | apps/api/src/lemon_ledger/domain/forms/schedule_d.py:39-49 | After any pass from empty books a year's Schedule D totals over all entities are the proceeds of the disposal events that materialised, less the basis consumed, plus the losses disallowed under section 267 of the Internal Revenue Code |
| Forms.ScheduleDAlwaysAgrees | apps/api/src/lemon_ledger/domain/forms/schedule_d.py:39-49 | The same after any history of passes and rebuilds with events reclassified in between: proceeds are those of the disposals that materialised, less those a rebuild took off the books |
| Attribution.ReportedIsSoldIff | apps/api/src/lemon_ledger/domain/forms/read_model.py:54-107 | An entity's Schedule D total of a year is what its own disposals net if and only if the disposals it has got with lots moved since, and those that have left it with lots moved since, net the same |
| Attribution.StayingLotsAgree | apps/api/src/lemon_ledger/domain/forms/read_model.py:54-107 | After any pass in which no lot goes to another entity once it has a disposal in the year, every entity's total is what its own disposals net |
| Attribution.IncomeIsEarnedIff | apps/api/src/lemon_ledger/domain/forms/read_model.py:156-180 | After any pass a year's reward income of an entity is the value of the rewards it earned if and only if the rewards that have left it since, retyped or with another entity, and those that have come to it are worth the same |
| Attribution.EveryonesIncomeIff | apps/api/src/lemon_ledger/domain/forms/read_model.py:156-180 | Over everyone, with no reward of negative value, a year's reward income is the value of its rewards if and only if none that was worth anything has been moved as a contribution or a gift |
| Attribution.RunTyped | apps/api/src/lemon_ledger/domain/lots/engine.py:583-758 | Over any pass a lot is of the type its event opened it as, or a contribution or a gift; nothing is ever retyped as a reward |
| Attribution.GivingRewritesTheYear | apps/api/src/lemon_ledger/domain/forms/read_model.py:54-180 | A reward partly sold in one year and given away in the next: the sale then counts for the new holder, the reward for no one |
| Forms.RelatedPartyNetsNoLoss | apps/api/src/lemon_ledger/domain/lots/engine.py:556-575 | Every row a disposal books nets its proceeds less its basis, except that a row of a related-party disposal below basis nets zero |
| Pairing.PassPartitionsLegs | apps/api/src/lemon_ledger/domain/bridge/pairing.py:142-241 | A pass over an empty table puts every leg in exactly one written row |
| Pairing.HypothesisIff | apps/api/src/lemon_ledger/domain/bridge/pairing.py:48-87 | An outflow and an inflow are a hypothesis if and only if they are of one asset on two chains, less than 14401 seconds apart, and their amounts differ by at most 500.5 basis points of the outflow, whatever its sign; against an outflow of nothing any amount passes |
| Pairing.DeltasMeasure | apps/api/src/lemon_ledger/domain/bridge/pairing.py:48-62 | The stored deltas, and no other numbers, are the seconds between the legs cut off towards zero and the difference of amounts in basis points to the nearest, even on a tie |
| Pairing.PassPairsMatchable | apps/api/src/lemon_ledger/domain/bridge/pairing.py:142-241 | Whatever is in the table, every pair a pass writes is of two legs of its own within those bounds, and the row says by how much they differ |
| Pairing.FreshRows | apps/api/src/lemon_ledger/domain/bridge/pairing.py:142-241 | Field by field, the rows of a pass over an empty table: such pairs, waiting for confirmation, and single legs, unmatched, decided by nobody |
| Pairing.GreedyIsHalfOptimal | apps/api/src/lemon_ledger/domain/bridge/pairing.py:142-214 | No matching of legs within those bounds has more than twice the pairs the pass writes |
| Pairing.NoBlockingPair | apps/api/src/lemon_ledger/domain/bridge/pairing.py:69-87 | For every outflow and inflow within those bounds a written pair, itself within them, holds one of the two on its own side and is no further apart in basis points, or as far and no further apart in seconds |
| Pairing.FreshPass | apps/api/src/lemon_ledger/domain/bridge/pairing.py:142-241 | A pass over an empty table writes a row for each pair of a matching that beats every hypothesis and one for each leg left over, and nothing else |
| Settling.PairingIsIdempotent | apps/api/src/lemon_ledger/domain/bridge/pairing.py:142-241 | From any table, pairing the same legs a second time leaves every row as it is and lists the same rows as written |
| Settling.BridgePassIsIdempotent | apps/api/src/lemon_ledger/domain/bridge/tasks.py:38-134 | From any table and signals, a pass repeated over the same legs, custody facts and treatments changes no row and no signal |
| Bridge.AutomationKeepsHandsOff | apps/api/src/lemon_ledger/domain/bridge/tasks.py:83-87 | Over any interleaving of passes and ageing out, the user's rows are never modified, deleted or reordered, and their legs enter no row that was not there before |
| Bridge.OnlyTheUserReopens | apps/api/src/lemon_ledger/domain/bridge/workflow.py:139-182 | A row the user resolved changes only when the user decides on that very row |
| Decisions.AutoConfirmedIsEarned | apps/api/src/lemon_ledger/domain/bridge/confidence.py:33-70 | After any passes, ageing and decisions a row confirmed automatically joins two legs of different chains and one asset within 50 basis points and 30 minutes, with recognized custody |
| Decisions.AutoConfirmedAmountsAgree | apps/api/src/lemon_ledger/domain/bridge/pairing.py:48-52 | The inflow of a row confirmed automatically is within 50.5 basis points of a positive outflow: what rounding the basis points can hide is at most half of one |
| Bridge.ScoreMonotone | apps/api/src/lemon_ledger/domain/bridge/confidence.py:33-70 | A pair no further apart in amount or time, with custody no weaker, never scores lower; unknown custody always scores low and is never confirmed automatically |
| Grades.PassGrades | apps/api/src/lemon_ledger/domain/bridge/tasks.py:83-127 | After a pass over any table of known legs each pair it wrote is graded in amounts and times: high, and confirmed, within 1801 seconds and 50.5 basis points with recognized custody; medium within 7201 seconds and 200.5 with custody at least inferred; otherwise low; and its events carry the link, kinds and source that go with it |
| Grades.PairDecided | apps/api/src/lemon_ledger/domain/bridge/workflow.py:69-182 | A decision on a pair writes the row and the two events it is about, as confirmed or as plain transfers, and touches no other row or event |
| Grades.SingleDecided | apps/api/src/lemon_ledger/domain/bridge/workflow.py:188-236 | A single leg sold or passed on is rejected and taxable, one still pending stays as it is, and one resolved otherwise is put up for review |
| Grades.AgeingFlagsIff | apps/api/src/lemon_ledger/domain/bridge/workflow.py:259-305 | Ageing out puts an event up for review if and only if an unmatched, undecided row of it is old enough and its wallet synced past it |
| Decisions.DecisionIsBooked | apps/api/src/lemon_ledger/domain/bridge/workflow.py:69-122 | The lot engine books what the user decides on a pair, also against an earlier decision: confirmed, the outflow is no disposal and the inflow a move from it; rejected, the two are sold and bought |
| Decisions.PassKeepsHeldSignals | apps/api/src/lemon_ledger/domain/bridge/tasks.py:83-127 | A pass rewrites no signal of an event that a row of the user's holds |
| Decisions.SurfaceKeepsBridgeIff | apps/api/src/lemon_ledger/domain/bridge/workflow.py:259-305 | Ageing out leaves an event part of its bridge exactly when no row it surfaces holds the event |
| Verdicts.BridgedForGoodIff | apps/api/src/lemon_ledger/domain/bridge/workflow.py:259-305 | A leg of a row the user resolved stays part of its bridge over every interleaving of passes and ageing out if and only if no unresolved unmatched row holds it at the time |
| Verdicts.BridgedUnlessDecidedIff | apps/api/src/lemon_ledger/domain/bridge/workflow.py:139-236 | The same over every interleaving of passes, ageing out and decisions of the user other than rejecting or selling a row that holds the leg at the time |
| Verdicts.BridgedThroughoutIff | apps/api/src/lemon_ledger/domain/bridge/workflow.py:139-305 | Over any passes, ageing out and decisions whatever, a leg of a row the user resolved is part of its bridge all along if and only if no action ages out, rejects or sells a row that holds it |
| Verdicts.RejectingTheRivalUndoes | apps/api/src/lemon_ledger/domain/bridge/workflow.py:139-182 | Two passes pair one outflow with two inflows; the user confirms the first row and rejects the second, and the outflow is taxable while the first row still reads as confirmed |
| Decisions.AgeingCanUndoADecision | apps/api/src/lemon_ledger/domain/bridge/workflow.py:259-305 | A pass over two legs, one that looks back to the later leg only, a confirmation by the user and an ageing out leave the pair confirmed and its outflow taxable again |
| Workflow.BuildHypotheses | apps/api/src/lemon_ledger/domain/bridge/pairing.py:69-87 | The nested loops and the sort return the ranked eligible pairs |
| Workflow.Correlations.PairAndPersist | apps/api/src/lemon_ledger/domain/bridge/pairing.py:142-241 | The greedy loop with its used set, reuse of singletons and leftovers leaves the table and the list of written rows as the specified pass does |
| Workflow.Correlations.RunPass | apps/api/src/lemon_ledger/domain/bridge/tasks.py:76-134 | Pairing and then scoring the written rows in place is the specified automatic pass |
| Workflow.Correlations.SurfaceAged | apps/api/src/lemon_ledger/domain/bridge/workflow.py:259-305 | The loop over the rows leaves the signals as the specified ageing does |
| Workflow.Correlations.Decide | apps/api/src/lemon_ledger/domain/bridge/workflow.py:139-182 | Confirming or rejecting a pair leaves rows and signals as specified, a repeated decision none |
| Workflow.Correlations.DecideSingle | apps/api/src/lemon_ledger/domain/bridge/workflow.py:188-236 | Each disposition of a single leg leaves rows and signals as specified |
| Sync.IngestComplete | apps/api/src/lemon_ledger/ingestion/sync.py:51-92 | Whatever windows are rejected, an ingestion that gets through asked for windows that tile the chunk exactly, and has added the chain's rows of those blocks, all of them and none of any other block |
| Sync.WindowsHalved | apps/api/src/lemon_ledger/ingestion/sync.py:75-81 | No window is smaller than it has to be: each that is accepted is the whole chunk or, but for an odd block, half of a rejected one |
| Sync.RunWithin | apps/api/src/lemon_ledger/ingestion/sync.py:106-126 | Wherever a run dies, every row it has added is of a block from its cursor to the head less the confirmations |
| Sync.LivesWithin | apps/api/src/lemon_ledger/ingestion/sync.py:106-126 | Over any number of runs no row is added beyond the highest block that one of them saw confirmed |
| Sync.TornKeepsCursor | apps/api/src/lemon_ledger/ingestion/sync.py:119-125 | A run killed between the two commits of a chunk has every row of the chunk and the cursor it had before |
| Sync.ChunksPace | apps/api/src/lemon_ledger/ingestion/sync.py:118-136 | A run of n undisturbed chunks puts the cursor n times chunk_blocks on, less the block it starts at, or at the ceiling |
| Sync.FailsOnlyOnABlock | apps/api/src/lemon_ledger/ingestion/sync.py:75-77 | A chunk fails only when the explorer rejects a window of one block |
| Sync.FailsIffABlock | apps/api/src/lemon_ledger/ingestion/sync.py:75-81 | When a window is rejected whenever a part of it is, a chunk fails exactly when one of its blocks is too large by itself |
| Sync.RunDurable | apps/api/src/lemon_ledger/ingestion/sync.py:95-145 | A run that dies anywhere, also between the two commits, leaves every row up to the cursor stored; one that finishes has every row up to its ceiling |
| Sync.SyncSurvivesCrashes | apps/api/src/lemon_ledger/ingestion/sync.py:115-136 | So do any number of runs in sequence; the cursor never moves back and no stored row changes |
| Sync.UndisturbedChunksFinish | apps/api/src/lemon_ledger/ingestion/sync.py:118-136 | A run that is not killed, on blocks none of which is too large alone, finishes with the cursor at its ceiling |
| Sync.Syncer.UpsertAll | apps/api/src/lemon_ledger/ingestion/sync.py:33-48 | Inserting row by row with conflicts ignored leaves the table as specified |
| Sync.Syncer.IngestChunk | apps/api/src/lemon_ledger/ingestion/sync.py:51-92 | The recursion that accumulates into the session leaves the tables as the specified bisection, and fails when that does |
| Sync.Syncer.SyncWallet | apps/api/src/lemon_ledger/ingestion/sync.py:95-145 | The loop with its two commits leaves the database as the specified run |
| Backfill.RetryBound | apps/api/src/lemon_ledger/pricing/historical_backfill.py:214-245 | In every run the retried refusals number at most the accepted requests plus five |
| Backfill.RetriesAmortised | apps/api/src/lemon_ledger/pricing/historical_backfill.py:55-58 | Retries are paid for by accepted requests and the halvings the first chunk had in hand, and the chunk stays between 200 and 20000 |
| Backfill.RefusedAtMinimum | apps/api/src/lemon_ledger/pricing/historical_backfill.py:227-237 | A run gives up only on a request of at most 200 blocks, its last, which the node refused |
| Backfill.WidthsBounded | apps/api/src/lemon_ledger/pricing/historical_backfill.py:214-245 | No accepted request is of more than 20000 blocks, and only one that reaches the head of fewer than 200 |
| Backfill.UnrefusedPace | apps/api/src/lemon_ledger/pricing/historical_backfill.py:55-58 | A node that refuses nothing is asked for 5000 blocks, then 10000, then 20000 at a time |
| Backfill.RefusalHalves | apps/api/src/lemon_ledger/pricing/historical_backfill.py:227-236 | After a refusal the same blocks are asked for again, half as many but at least 200 |
| Backfill.CrawlEnds | apps/api/src/lemon_ledger/pricing/historical_backfill.py:214-245 | A run left alone ends by itself, within two requests a block and the halvings of its first chunk |
| Backfill.CrawlTiles | apps/api/src/lemon_ledger/pricing/historical_backfill.py:214-245 | The accepted ranges tile the crawled blocks without gap or overlap; a completed run has tiled up to the head |
| Backfill.ResumedCrawlMissesNothing | apps/api/src/lemon_ledger/pricing/historical_backfill.py:205-242 | However often the crawl is killed, refused or torn between commit and cursor, every block up to the cursor has been stored and the cursor never moves back |
| Backfill.ResumesAtCursor | apps/api/src/lemon_ledger/pricing/historical_backfill.py:205-242 | A run starts at the last block saved, which it asks for again, and leaves the cursor at the last block it stored, unless it was killed before saving it |
| Backfill.Crawler.Crawl | apps/api/src/lemon_ledger/pricing/historical_backfill.py:190-247 | The adaptive loop with its cursor leaves store and cursor as the specified run |
| TokenBucket.WindowBound | apps/api/src/lemon_ledger/clients/rate_limit.py:8-31 | Whatever came before and whatever the clocks of the callers read, calls are granted at most burst plus rate times the forward steps between their readings; with readings that do not go back, that is the time from first to last |
| TokenBucket.WindowBoundServed | apps/api/src/lemon_ledger/clients/rate_limit.py:8-31 | The same bound with the key's expiry in play, when sixty seconds refill the bucket |
| TokenBucket.WindowBoundServedIff | apps/api/src/lemon_ledger/clients/rate_limit.py:8-31 | From an absent key, with readings that do not go back and expiry in play, every window keeps to burst + rate * elapsed if and only if burst <= 60 * rate |
| TokenBucket.ExpiryHarmlessIff | apps/api/src/lemon_ledger/clients/rate_limit.py:24-31 | The sixty-second expiry changes no reply to any sequence of calls to a key first seen absent if and only if burst <= 60 * rate, and then from any stored bucket too |
| TokenBucket.GrantsBounded | apps/api/src/lemon_ledger/clients/rate_limit.py:14-31 | Grants never exceed the tokens in stock plus what has come in, also when the clock goes back |
| TokenBucket.NoStarvation | apps/api/src/lemon_ledger/clients/rate_limit.py:17-31 | Whoever keeps asking, however often and with or without expiry, is granted a call by the time a whole token has come in |
| TokenBucket.SteadyGrants | apps/api/src/lemon_ledger/clients/rate_limit.py:17-31 | A lower bound: with burst at least two, no reading that goes back and at most one token coming in between two calls, the grants are what was there and came in, less at most burst - 1 |
| TokenBucket.RedisBucket.RefillAndTake | apps/api/src/lemon_ledger/clients/rate_limit.py:8-31 | One execution of the script leaves the hash and answers as the specified call |
| Resolve.PlayKeeps | apps/api/src/lemon_ledger/domain/cross_entity/resolve.py:110-281 | Over any sequence of service calls, refused ones included, a classified row has a choice its kind allows and its located outflow leg carries the mapped resolution |
| Resolve.DismissedForGood | apps/api/src/lemon_ledger/domain/cross_entity/resolve.py:127-133 | A dismissed row stays dismissed, on the choice it had, whatever is called |
| Resolve.AuditTrail | apps/api/src/lemon_ledger/domain/cross_entity/resolve.py:386-406 | The log is only appended to; the entries about a row chain, the first starting at the row as it was and the last ending at the row as it is |
| Resolve.ChoiceIsBooked | apps/api/src/lemon_ledger/domain/cross_entity/resolve.py:71-80 | After any calls the lot engine treats the outflow of a classified row as the choice says: sold, given away, lent, or left to the inflow leg |
| Consequences.SoldAs | apps/api/src/lemon_ledger/domain/cross_entity/resolve.py:71-80 | After any calls a row classified as a sale or payment is booked as a disposal, and a loss on it is disallowed, whole, exactly when it is between the user's own entities |
| Consequences.GivenAs | apps/api/src/lemon_ledger/domain/cross_entity/resolve.py:71-80 | One classified as a gift outside is booked as a gift out and flagged, with no disposal |
| Consequences.KeptAs | apps/api/src/lemon_ledger/domain/cross_entity/resolve.py:71-80 | The outflow of a loan is flagged, that of a contribution, reassignment or gift between entities books nothing |
| Consequences.LegsFoundIff | apps/api/src/lemon_ledger/domain/cross_entity/resolve.py:317-349 | The legs a decision stamps are the first of the row's wallet, transaction and place, and the first that came in at the wallet it was sent to, in that transaction, on that chain and of that contract |
| Consequences.ArrivesAs | apps/api/src/lemon_ledger/domain/cross_entity/resolve.py:83-89 | And its inflow moves lots from the sender, logged as contribution, reassignment or gift; a contribution and a gift are retyped as such, a reassignment is not; a gift is flagged |
| Consequences.CallIsLogged | apps/api/src/lemon_ledger/domain/cross_entity/resolve.py:110-281 | A call changes nothing, or one row, field by field as it should, with one entry that names caller and deed and shows the row before and after |
| Consequences.RefusedIff | apps/api/src/lemon_ledger/domain/cross_entity/resolve.py:110-281 | It changes nothing if and only if the row is unknown, its state or kind does not allow the call, the guard stops it, or it repeats the choice |
| Consequences.RefusalIs | apps/api/src/lemon_ledger/domain/cross_entity/resolve.py:110-207 | And which of these is reported, in that order |
| Resolve.InflowAgreesIff | apps/api/src/lemon_ledger/domain/cross_entity/resolve.py:352-372 | After any call that writes a choice, resolve or reclassify, the inflow leg agrees with it if and only if the choice stamps it or nothing had stamped it before |
| Resolve.CarriesForGood | apps/api/src/lemon_ledger/domain/cross_entity/resolve.py:352-372 | A leg once stamped and linked to move lots along does so after any further calls |
| Resolve.SoldAndMoved | apps/api/src/lemon_ledger/domain/cross_entity/resolve.py:352-372 | After any choice between entities that moves lots along, and any further calls, a row that ends up classified as a sale is disposed of by the engine and, from the stale inflow stamp, relocated as well |
| Resolve.GiftThenSale | apps/api/src/lemon_ledger/domain/cross_entity/resolve.py:110-236 | A transfer called a gift and then a sale, by either entry point, that ends that way |
| Resolve.AutomationOverrulesIff | apps/api/src/lemon_ledger/domain/cross_entity/resolve.py:110-207 | Whoever counts as automation, its call changes the choice of a row the user classified if and only if it names another choice the kind allows and either resolves or reclassifies under a name other than "rule"; and takes the row out of the classified ones if and only if it dismisses it |
| Resolve.GuardProtectsIff | apps/api/src/lemon_ledger/domain/cross_entity/resolve.py:200-207 | The guard keeps what the user decided through every run of automated reclassifications if and only if no automated actor goes by a name other than "rule" |
| Resolve.RuleOverrulesUser | apps/api/src/lemon_ledger/domain/cross_entity/resolve.py:110-173 | A user's gift that a rule resolves as a loan |
| Resolve.RuleEngineReclassifies | apps/api/src/lemon_ledger/domain/cross_entity/resolve.py:176-236 | A user's gift that the actor "rule-engine" reclassifies as a loan while the row still names the user as its resolver |
| Resolve.StampEffect | apps/api/src/lemon_ledger/domain/cross_entity/resolve.py:352-369 | Stamping puts the mapped resolution on the row's outflow leg, links no leg that is not an inflow, and leaves every other outflow alone |
| Resolve.StampReach | apps/api/src/lemon_ledger/domain/cross_entity/resolve.py:352-369 | Stamping reaches the row's outflow leg and at most one other, an inflow leg of the row's, and nothing when the outflow leg is not found |
| Resolve.ResolveService.Resolve | apps/api/src/lemon_ledger/domain/cross_entity/resolve.py:110-173 | The method leaves rows, legs and log as the specified call and raises what it refuses with |
| Resolve.ResolveService.Stamp | apps/api/src/lemon_ledger/domain/cross_entity/resolve.py:352-369 | Both stamps, in place, leave the legs as specified |
| Resolve.ResolveService.Reclassify | apps/api/src/lemon_ledger/domain/cross_entity/resolve.py:176-236 | The method leaves rows, legs and log as the specified call and raises what it refuses with |
| Resolve.ResolveService.Dismiss | apps/api/src/lemon_ledger/domain/cross_entity/resolve.py:239-281 | The method leaves rows, legs and log as the specified call, from any state |
| Partition.OneEventPerTransfer | apps/api/src/lemon_ledger/classify/orchestrator.py:49-71 | Whatever decoders are registered, each token transfer to or from the wallet that no wrap absorbs yields exactly one event, and every other transfer none |
| Partition.EventsHaveOrigin | apps/api/src/lemon_ledger/classify/orchestrator.py:74-194 | No event is about anything else: it is the wrap of the bundle, books one of the bundle's native movements, or is about one of its transfers and that transfer's contract |
| Directions.EventsAreDirected | apps/api/src/lemon_ledger/classify/orchestrator.py:97-194 | Whatever decoders are registered, every event is about a transfer and goes with its direction, sink, amount and price, is a positive native movement to or from the wallet, or is the wrap, with the amount wrapped |
| Directions.RedemptionsPairUp | apps/api/src/lemon_ledger/classify/recognizers.py:145-240 | Swap credits are redeemed if and only if as many leave as other NFTs arrive, and some do; then each of either side has an event, and otherwise none |
| Directions.AbsorbedIff | apps/api/src/lemon_ledger/classify/recognizers.py:41-129 | A wrap absorbs exactly the mints of wrapped coin to the wallet, and an unwrap the first burn of it |
| Directions.NativesAllThere | apps/api/src/lemon_ledger/classify/orchestrator.py:134-192 | Besides the events of transfers there are exactly one for each native movement of some value that touches the wallet, of the envelope and of every internal transaction, and one for a wrap |
| Kinds.UnclaimedIsPlain | apps/api/src/lemon_ledger/classify/orchestrator.py:97-132 | A transfer no recognizer or decoder claims is, to the last field, a transfer in when it is to the wallet, and otherwise a transfer out, or a burn when it goes to a confirmed sink of a deflationary token |
| Kinds.KindIsTable | apps/api/src/lemon_ledger/classify/decoders/base.py:67-259 | With any decoders, and neither wrap nor redemption, each transfer has exactly the event one table of kinds says, of the first decoder to claim it or plain: alone in its bundle whatever is known of the tokens, and among others once both contracts of every token are known |
| Kinds.LearnsFrom | apps/api/src/lemon_ledger/classify/decoders/base.py:82-183 | What a decoder learns from a transfer: the payer of a first unexplained payment, the contract and collection of a first stake, as discovered, and never over what is known |
| Partition.CommonLeavesNothing | apps/api/src/lemon_ledger/classify/orchestrator.py:97-132 | After the common layer every transfer to or from the wallet is claimed |
| Partition.SwapFair | apps/api/src/lemon_ledger/classify/recognizers.py:145-240 | The swap-credit recognizer claims each transfer it books once, and only unclaimed ones |
| Partition.SeqIsOrder | apps/api/src/lemon_ledger/classify/orchestrator.py:29-42 | event_seq is 0 to n-1 in the order of hint and, among equal hints, of the twelve kinds as listed, and no event is lost or made up |
| Partition.ReplaceIsClean | apps/api/src/lemon_ledger/classify/orchestrator.py:231-261 | Replacing a transaction's rows keeps (wallet, transaction, event_seq) unique and other transactions' rows; a pinned transaction keeps its own, any other has exactly the new ones |
| Income.IncomeIsConfirmed | apps/api/src/lemon_ledger/classify/decoders/base.py:82-144 | A reward is booked without review only if it is priced and sent by a staking contract confirmed before the transaction was looked at, whatever the decoders discover on the way |
| ClassifierClass.ClaimSet.Add | apps/api/src/lemon_ledger/classify/types.py:63-85 | Adding a token transfer claims its log index, adding an internal transaction its trace, under keys that never meet, and nothing else is claimed |
| ClassifierClass.Classifier.RunDetector | apps/api/src/lemon_ledger/classify/decoders/base.py:82-259 | A detector's loop, with its claims and configuration write-backs, leaves the claim set, the configurations and the events as the specified sweep, whose outcome is Kinds.KindIsTable |
| ClassifierClass.Classifier.RecognizeWrap | apps/api/src/lemon_ledger/classify/recognizers.py:41-129 | The wrap recognizer's loops claim the absorbed transfers and book one event |
| ClassifierClass.Classifier.RecognizeSwaps | apps/api/src/lemon_ledger/classify/recognizers.py:145-240 | Collecting, comparing and claiming redemptions leaves claims and events as specified |
| ClassifierClass.Classifier.ClassifyBundle | apps/api/src/lemon_ledger/classify/orchestrator.py:49-71 | Recognizers, decoders and the common layer in turn return the numbered rows specified for the bundle |

## Left out

- Selection.FifoLongFirst: states the order of holding periods; that every touched lot but the last is exhausted is Lots.ConsumePrefix.
- Passes.RebuildIsReplay: about wallets that no relocation crosses; what a rebuild does to any other wallet is Rebuilding.LotsComeBackIff and Idempotence.RebuildIdempotentIff, both about rebuilds that go through. When a rebuild with relocations throws is left to the relocation, Guarantees.RelocationMovesShortestPrefix.
- Passes.PoolsCommute: as Passes.PipelineIsChronological and Passes.InterleavingsAgree, about passes that do not throw, because whether a relocation throws depends on the order, and about pools no relocation crosses; Posting has the first two without that premise where nothing relocates.
- Passes.RebuildLeavesOthers: like RebuildIsReplay about wallets whose border no relocation crosses; a relocation replayed by a rebuild takes lots from another wallet.
- Forms.TotalsAgree: sums over all entities; for one entity Attribution.ReportedIsSoldIff says when its total is that of its own disposals.
- Attribution.StayingLotsAgree: as IncomeIsEarnedIff and EveryonesIncomeIff about a pass from empty books; a rebuild books disposals and rewards afresh under the owners of the day.
- Passes.RebuildForgets: needs that no relocation crosses the wallet's border at any step; Idempotence.RebuildRemembersMoves shows why. Events that disappear between steps are not covered.
- Chronology.NeverShortIff: about a wallet none of whose events relocates; what a relocation needs at its source is Guarantees.RelocationMovesShortestPrefix.
- Entries.ArrivalMoves: about arrivals that post, with lots enough at the source; the shortage that throws is Guarantees.RelocationMovesShortestPrefix, an arrival without a token Entries.TokenlessArrival.
- Pairing.GreedyIsHalfOptimal: about one pass over an empty table, as are PassPartitionsLegs and NoBlockingPair; a better leg that arrives later opens a second row for the same outflow.
- Sync.FailsOnlyOnABlock: one direction for arbitrary explorers, where a rejected block inside an accepted window does no harm; Sync.FailsIffABlock has both for those that reject a window with any part of it.
- Decisions.DecisionIsBooked: about entities that do not treat bridging as a disposition, where a confirmation leaves both legs as they are.
- TokenBucket.WindowBoundServed: needs sixty seconds to refill the bucket; TokenBucket.WindowBoundServedIff says why.
- TokenBucket.SteadyGrants: needs a burst of two, because with one the fraction a refused caller leaves can overflow; TokenBucket.NoStarvation holds for either.
- Kinds.KindIsTable: where a token's contracts are not known, about bundles of one transfer; what one transfer teaches a decoder about the next is Kinds.LearnsFrom.
- Resolve.PlayKeeps: starts from rows whose outflow legs are not inflows, as detection files them; detection itself is not modelled.
- Partition.OneEventPerTransfer: about token transfers with distinct log indexes; native movements are not claimed, so a wrap also yields a native transfer-out.
- The 28-digit decimal context and its inexact intermediate quotients.
- Lifo and SpecificIdValidator, which the engine never selects.
- Row order and descriptions on Form 8949, and the draft flag.
- SQL sessions, row locks and concurrent transactions: tables are values of one transaction at a time.
- Candidate discovery, custody learning, and the lot rebuild that follows a bridge pass; a repeated pass is idle over the same candidates.
- The audit rows and the stored user_resolution of the bridge workflow.
- The parsing and upserting of oracle prices behind the crawl, and manual price overrides.
- The polling loop of acquire, which waits for a grant.
- The state 'applied' of pending rows is modelled, but nothing in the repository sets it.
- Prices and mint fees inside decoders are looked up per token; LQST's order hint is taken to be the log index.
- Which decoders a bundle selects: the partition holds for every list of them.
- HTTP clients, task queues, rendering, migrations and column definitions.
