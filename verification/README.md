# Verified core of a Korean equity research engine

A Dafny model of the parts of k-stock-engine where a mistake would be silent: the KRW ledger and the
futures overlay that trade on it, the content-addressed lake backup, the exchange-action blocks and price limits
of the market panel, the point-in-time financial completeness events, the collapsing of corrected dividend
filings, and the coverage diff of investor-flow targets.

The model follows the code's own form. The ledger and the remote backup store are classes whose methods update
fields; loops are methods with invariants; what each of them computes is a function on values, and the laws are
lemmas about those functions. `dafny verify dfyconfig.toml` checks everything.

## What is proved

**Ledger and engine.** Over every sequence of booking operations from an opened account, cash, margin and owed tax
equal their journal sums, every holding equals its quantity sum, the dividend receivable equals what is due by pay
session, and the inverse basis is positive exactly when units are held. With charges priced as the engine prices them,
cash never goes negative. The same holds over every sequence of engine sessions, in which no ledger call is refused; a
session stops early exactly when the inverse close is missing while units are held or aimed at. At any marks whatever,
the net asset value is opening cash plus dividends owed plus the worth of the journal, and every operation moves it by
exactly its gain in prices, charges, income and taxes. The taxes of a year are levied on exactly the yields and the
variation booked in it. Each phase of a session is also stated from outside, without the functions that compute it:
events, fills, the order of settlements, the futures legs, the inverse ETF and the year end.

**Overlay.** The funding search that starts at floor(available / unit reserve) returns what a scan from the target
returns, for every target, holding and budget, if and only if the multiplier handed to it does not exceed the one in
the terms. Synchronising any number of legs conserves money up to the commissions, never spends owed tax, and fills
the margin pool exactly when it could be filled. Repeated with the same targets and levels it books nothing if and
only if the first call held or left a settled account: the pool is full, or nothing is held, or the margin alone keeps
every leg inside the band (`SyncRepeat.RepeatBooksNothingExactly`); `SyncRepeat.ShortPoolMovesTwice` is a pool that
moves again. In a session without a pending target the hedge is kept while margin at the close covers the maintenance
floors, topped up to the reserves when it does not and free cash allows, and a pending target is reached when funds
cover it; in every other case each leg in turn takes the largest count that fits (`SessionMeaning.SessionPicks`).
Reserves, floors and commissions are shares of the exposure that variation marks. Variation margin telescopes, and
stays within one KRW of the exact profit per stretch of unchanged position.

**Backup.** However a push or a collection is interrupted, every index line names a present archive holding that
member with that hash. A push completes if and only if none of its archive names is taken by other bytes, and rerun
from any interrupted state it completes exactly when it would have at first. A completed push makes every scanned file
current, and restoring returns its bytes, provided the manifest had listed the archives of contents known before. A
collection keeps every retained state, and which states are retained is stated by counting the later ones.

An interruption between the index and the manifest of a push hides files from restore: a file stays restorable if and
only if its content was already in the old index or its archive already listed (`BackupRoundTrip.LagHidesExactly`,
with `BackupRoundTrip.HiddenFile` as the smallest case). Pushing the same files again changes nothing, so they stay
hidden, and no collection is applied meanwhile.

**Panel.** The two-pointer scan of exchange actions gives exactly the blocks and reasons the actions mean, and never
looks ahead. Rounding a price to its own tick finds the nearest quotable price everywhere if and only if it does at
the band boundaries, as it does for every published table. The column expressions for ticks and limits agree with the
scalar rules; where ticks are in force but no limit ratio is, the lower-limit column holds the first band's tick
instead of a missing value.

**Financial quality.** Cutting the events built later to an earlier time gives the events built at that time, for
every table over given identifiers, if and only if cleaning merges no two of those identifiers: rows are sorted by the
identifiers as reported but grouped by the cleaned ones. Under the same condition, once at least two facts are
required and spelled cleanly, completeness never reverts and eligibility does not look ahead; for any two spellings of
one identifier there is a table on which both fail (`QualityExactness.NeverRevertsExactly`,
`QualityExactness.EligibilityExactly`). Without merged identifiers, what an event names as missing and which companies
are eligible are stated on the table itself: which rows, in which currency and by when, report what.

**Dividends and flow targets.** Resolution partitions the filings, keeps exactly the decisions that stand, the latest
per dividend, applies every correction and explains each superseded one. Pending cells are exactly the target cells
outside every answered range.

## Reading the model

- Rates and index levels are reals, amounts are integers, and floor and ceiling are exact. Most of the code multiplies
  decimals, so that only the stated rounding rounds; share factors and the cash yield are products of binary floats
  (src/backtest/ledger.py:230-232 and :293), which the model takes as exact. The precision of the decimal context is
  not modelled.
- A KRW amount per contract (rate times multiplier times level) is one real number; a reserve is the ceiling of it
  times the contract count.
- A content hash is an injective function. A store operation is atomic; the states a store passes through are
  recorded in a ghost field, which is what statements about interruption quantify over.
- The store's listing names the archives it holds; upload times enter a collection as a parameter.
- Dates and session instants are integers. Identifier cleaning, period parsing, archive naming and line validation
  are arbitrary functions passed as parameters.
- Column comparisons with a missing value do not hold, and the horizontal maximum ignores missing values, as the
  column library defines them.
- The documentation of the entry blocks speaks of a delisting cancellation; in the code a cancellation flag on an
  action of any kind clears open notices and stated windows, and the model follows the code.

## Model

| member | source | states |
|---|---|---|
| LedgerInvariants.EveryRunReconciles | src/backtest/ledger.py:111-127 | after every run of accepted operations from opening: each balance is its journal sum, the receivable is its map, and with engine-priced charges cash and holdings stay non-negative |
| LedgerInvariants.RunKeepsBooks | src/backtest/ledger.py:164-582 | the same between any two points of a run: every balance moves by exactly what the journal gained |
| LedgerInvariants.ApplyBooks | src/backtest/ledger.py:164-582 | each single operation appends to the journal exactly what it moves, for all seventeen operations |
| LedgerInvariants.ApplyConsistent | src/backtest/ledger.py:111-127 | each operation keeps receivable equal to the by-pay map, owed tax non-negative, and basis positive exactly with units |
| LedgerInvariants.ApplyHealthy | src/backtest/ledger.py:164-582 | each operation with charges priced by the rates keeps cash non-negative and positions positive |
| LedgerInvariants.RunKeepsHealth | src/backtest/ledger.py:164-582 | whole runs of such operations do |
| Ledgers.Ledger.Deposit | src/backtest/ledger.py:164-168 | refused exactly as the source refuses, otherwise the booked account value |
| Ledgers.Ledger.Buy | src/backtest/ledger.py:170-187 | refused for bad arguments or insufficient cash, otherwise cash, position and journal move together |
| Ledgers.Ledger.Sell | src/backtest/ledger.py:189-221 | refused for overselling, otherwise proceeds less charges, position removed at zero |
| Ledgers.Ledger.ApplyShareFactor | src/backtest/ledger.py:223-246 | floors the scaled holding and pays the fraction in cash |
| Ledgers.Ledger.RecordDividendEntitlements | src/backtest/ledger.py:248-255 | adds each entitlement to the receivable and to its pay session |
| Ledgers.Ledger.SettleDividends | src/backtest/ledger.py:257-265 | pays what is due less withholding and removes the pay session |
| Ledgers.Ledger.CloseExit | src/backtest/ledger.py:267-275 | sells the whole position at the exit price without charges |
| Ledgers.Ledger.AccrueCashYield | src/backtest/ledger.py:277-299 | floors the yield on positive cash and remembers it for the year |
| Ledgers.Ledger.SettleCashYieldTax | src/backtest/ledger.py:301-329 | pays the tax from cash and books the unpaid rest as owed |
| Ledgers.Ledger.SettleTaxPayable | src/backtest/ledger.py:331-345 | pays owed tax out of available cash |
| Ledgers.Ledger.TransferMargin | src/backtest/ledger.py:347-371 | moves money between cash and margin, refused when cash would be overdrawn |
| Ledgers.Ledger.SettleVariation | src/backtest/ledger.py:373-410 | books the change of the floored mark of the held leg |
| Ledgers.Ledger.TradeFutures | src/backtest/ledger.py:412-460 | sets the leg to a signed count and charges the ceiling commission |
| Ledgers.Ledger.RollFutures | src/backtest/ledger.py:462-493 | charges two sides of the held count |
| Ledgers.Ledger.BuyInverse | src/backtest/ledger.py:495-514 | adds units at cost to the average basis |
| Ledgers.Ledger.SellInverse | src/backtest/ledger.py:516-558 | releases the proportional basis and taxes a gain |
| Ledgers.Ledger.SettleFuturesTax | src/backtest/ledger.py:560-582 | taxes the yearly profit above the deduction out of margin |
| Nav.MarkLedger | src/backtest/ledger.py:620-657 | refused exactly when a held instrument or inverse price is missing; the parts add up to the net asset value of the account |
| Nav.NavIsJournal | src/backtest/ledger.py:620-657 | for a reconciled account and any marks: value is opening cash, dividends owed and the worth of the journal lines |
| Nav.EveryRunIsValued | src/backtest/ledger.py:620-657 | the same after every run from opening |
| Nav.OperationMovesNav | src/backtest/ledger.py:164-582 | any accepted operation moves value by what is newly owed and the worth of the lines it books |
| Nav.BuyMovesNav | src/backtest/ledger.py:170-187 | a purchase moves value by the distance from its price to the mark, less commission |
| NavGains.OperationGains | src/backtest/ledger.py:164-582 | every accepted operation moves the value at any marks by exactly its gain: prices against marks, dividends, yield, charges and taxes in their rates |
| NavGains.RunGains | src/backtest/ledger.py:164-582 | over every run of priced operations the value moves by the sum of those gains alone |
| TaxBases.RunBase | src/backtest/ledger.py:277-329 | over every run without a settlement the yearly bases and the outside flow move by exactly the yield, variation and deposit lines booked |
| TaxBases.YieldYear | src/backtest/ledger.py:277-329 | the cash-yield tax of a year is the floored rate on the yields booked in it, paid or owed |
| TaxBases.FuturesYear | src/backtest/ledger.py:560-582 | the futures tax of a year is the floored rate on the variation booked above the deduction |
| TaxBases.InverseRoundTrip | src/backtest/ledger.py:495-558 | bought from nothing and sold again, the inverse ETF is taxed on the price rise alone, and not at all on a fall |
| Costs.SaleCoversItsCosts | src/backtest/costs.py:60-73 | sale charges never exceed the proceeds when the rates sum to at most one |
| Costs.SalesCoverExactly | src/backtest/costs.py:60-73 | every sale covers its charges if and only if the two rates sum to at most one |
| Costs.TruncatedBounds | src/backtest/costs.py:76-91 | truncated tax lies between zero and the amount |
| Variation.SettledIsMarkChange | src/backtest/ledger.py:373-410 | over any levels and positions the settled amounts are the end mark less the start mark, corrected at each change of position |
| Variation.SettledTelescopes | src/backtest/ledger.py:97-99 | with an unchanged position only the two end marks remain, with no rounding drift |
| Variation.SettledNearProfit | src/backtest/ledger.py:373-410 | settled amounts differ from the exact profit by less than one KRW per stretch of unchanged position, whatever the number of days |
| Variation.RunLegMargin | src/backtest/engine.py:710-724 | a run of settling and trading moves margin by exactly those marks less the commissions |
| Overlay.CeilAmountKrw | src/backtest/overlay.py:196-206 | the ceiling of the exact product of the factors |
| Overlay.RequiredReserve | src/backtest/overlay.py:209-226 | zero when flat, an error at a non-positive level, otherwise the ceiling reserve on gross exposure |
| Overlay.UnitsConsistent | src/backtest/overlay.py:25-96 | for valid terms the maintenance floor never exceeds the reserve per contract |
| Overlay.CommissionTriangle | src/backtest/engine.py:264-265 | moving directly never costs more than stopping on the way |
| Overlay.FloorBelowReserve | src/backtest/engine.py:268-275 | the maintenance floor of a count never exceeds its reserve |
| Exposure.AmountsOfExposure | src/backtest/engine.py:264-275 | reserve, maintenance floor and commission of every count are the ceilings of their rates times the exposure that variation marks |
| FundingSearch.LargestFundableContracts | src/backtest/engine.py:278-340 | the loop returns the specified search result |
| FundingSearch.LargestFundableIsMaximal | src/backtest/engine.py:278-340 | the scan result lies between flat and target, is affordable, and nothing of greater magnitude is |
| FundingSearch.MaximalIsScan | src/backtest/engine.py:278-340 | any count with those properties is the scan result |
| FundingSearch.SearchIsScan | src/backtest/engine.py:278-340 | starting at the reserve bound skips nothing affordable, although affordability is not monotone |
| FundingSearch.SearchMisses | src/backtest/engine.py:278-340 | with a larger multiplier than the terms, an explicit target and budget where the search misses |
| FundingSearch.SearchAgreesExactly | src/backtest/engine.py:278-340 | search and scan agree on all inputs if and only if the passed multiplier is at most that of the terms |
| SyncTheory.SyncConserves | src/backtest/engine.py:371-419 | cash plus margin falls by exactly the commissions, cash stays above min(cash, owed tax), other legs are untouched |
| SyncTheory.SyncStaysInside | src/backtest/engine.py:391-408 | every leg ends between flat and its target |
| SyncTheory.SyncFundedExactly | src/backtest/engine.py:390-419 | outside the hold branch the pool equals the summed reserve if and only if margin and spendable cash cover all reserves and commissions |
| SyncTargets.SyncReaches | src/backtest/engine.py:390-419 | with funds for every reserve and commission each leg ends at its target, and the pool at their reserve unless all stood there in the band |
| SyncTargets.SyncGreedy | src/backtest/engine.py:390-411 | outside the hold branch each leg in turn takes the largest count toward its target whose reserve and commission fit what the earlier legs left |
| SyncTheory.SyncIdempotent | src/backtest/engine.py:343-419 | after a hold or a filled pool, synchronising again books nothing, for any legs |
| SyncTheory.ChoiceIsFinal | src/backtest/engine.py:391-411 | the count chosen within a budget is chosen again when what it left is offered on top of its own reserve |
| SyncRepeat.RepeatBooksNothingExactly | src/backtest/engine.py:343-419 | a second synchronisation books nothing if and only if the first one held or left a settled account: pool full, nothing held, or every leg kept by the margin alone inside the band |
| SyncRepeat.ShortPoolMovesTwice | src/backtest/engine.py:381-419 | a concrete short pool that is not settled, after which a second synchronisation closes another leg |
| SyncRepeat.ShortLegsHaveTerms | src/backtest/overlay.py:25-96 | the legs of that pool come from valid terms at one level |
| SyncFutures.ResyncBooksNothingExactly | src/backtest/engine.py:371-419 | the same condition decides the second call with the legs recomputed from targets and holdings, although closed legs have dropped out |
| SyncFutures.DroppingKeepsSync | src/backtest/engine.py:373-379 | leaving out flat untargeted legs does not change a synchronisation |
| OverlaySync.SyncLegs | src/backtest/engine.py:380-419 | the loops on the ledger compute the synchronisation, and no transfer is refused |
| OverlaySync.SyncOverlay | src/backtest/engine.py:343-419 | the whole call, with legs ordered primary first and names ascending; the rows on SyncTargets, OverlayMeaning and Exposure say what it amounts to |
| OverlayMeaning.TradePicks | src/backtest/engine.py:380-411 | the same by names, levels and rates: every leg picks the largest affordable count toward its aim out of margin and cash less owed tax |
| OverlayMeaning.FundsReach | src/backtest/engine.py:390-419 | with funds for all reserves and commissions, every leg ends at its aim and the pool at its reserve |
| OverlayMeaning.BandKeeps | src/backtest/engine.py:380-389 | legs at their aim with margin of at least their floors are kept, and only margin above the reserves is released |
| OverlaySync.LegChoice | src/backtest/engine.py:392-399 | keeps a leg at target inside the band, otherwise searches |
| NameOrder.SortNames | src/backtest/engine.py:373 | the names once each in ascending order, which NameOrder.Ascending states pairwise |
| NameOrder.Ascending | src/backtest/engine.py:373 | every name once, each pair in lexicographic order |
| Ledgers.FuturesCommission | src/backtest/engine.py:264-265 | the ceiling of the exact cost of the moved contracts |
| Fills.StepDownIsLargest | src/backtest/engine.py:161-193 | the stepped-down quantity is affordable and no larger one up to the fill is |
| Fills.BuyQuantityIsLargest | src/backtest/engine.py:171-181 | the quantity bought is the largest not above the fill whose cost and floored commission fit spendable cash |
| Fills.AfterBuyIsSafe | src/backtest/engine.py:161-193 | a buy is never refused and leaves cash owed as tax alone |
| Fills.BuysAreSafe | src/backtest/engine.py:161-193 | after the whole batch cash is at least min(starting cash, owed tax) |
| Fills.AppliedPlusCarried | src/backtest/engine.py:182-193 | applied and carried quantities add up to the batch |
| FillMeaning.TallyMeans | src/backtest/engine.py:147-158 | a batch reports exactly the quantities that moved, the orders left short and, when asked to, their remainders |
| FillMeaning.BuyMeans | src/backtest/engine.py:161-193 | a buy takes the largest quantity up to the fill whose price and floored commission fit cash less owed tax, and moves nothing else |
| FillMeaning.BuysInOrder | src/backtest/engine.py:164 | buys are taken in falling order of notional, each once, ties in the order given |
| FillMeaning.SellMeans | src/backtest/engine.py:131-158 | a sell takes the fill or the whole holding, whichever is less, for the proceeds less both floored charges |
| FillMeaning.SellsMean | src/backtest/engine.py:131-158 | however the fills of an instrument are split, a batch sells what they want together up to what is held |
| FillMeaning.InverseMeans | src/backtest/engine.py:422-452 | sells down to the whole units the target value pays for, or buys the most toward them that cash less owed tax pays for |
| Fills.ApplyBuyFills | src/backtest/engine.py:161-193 | the loop over the sorted fills books exactly those buys and that tally |
| Fills.AfterSellIsSafe | src/backtest/engine.py:131-158 | a sell is never refused and covers its own charges |
| Fills.ApplySellFills | src/backtest/engine.py:131-158 | the loop books exactly the sells up to the holding and that tally |
| Fills.InversePurchaseIsSafe | src/backtest/engine.py:422-452 | buys the most units that fit spendable cash, is never refused and leaves owed tax alone |
| Fills.SyncInverse | src/backtest/engine.py:422-452 | trades the inverse holding toward its target value |
| EngineSession.RunSession | src/backtest/engine.py:644-773 | one session in the engine order gives the specified account, no ledger call being refused; it stops before the year-end taxes if and only if units are held or aimed at and the inverse close is missing |
| SessionMeaning.SessionKeepsHedge | src/backtest/engine.py:741-745 | without a pending target and with margin at the close of at least the floors of what is held, every leg holds after the session what it held before |
| SessionMeaning.SessionTopsUp | src/backtest/engine.py:268-275 | the margin call: below the floors, with free cash enough, every leg is kept and the pool ends at the reserves |
| SessionMeaning.SessionReachesTarget | src/backtest/engine.py:739-750 | with a pending target and funds for its reserves and commissions, every leg ends at the count the target names, or at zero |
| SessionMeaning.SessionPicks | src/backtest/engine.py:739-750 | whatever the funds, each leg in turn takes the largest count toward its aim that fits what the earlier legs left |
| SessionMeaning.SessionInverse | src/backtest/engine.py:751-762 | without a pending target the inverse units are kept; with one they are traded toward what its value pays for |
| SessionMeaning.CloseMeans | src/backtest/engine.py:710-736 | variation and roll move margin alone: by the change of every floored mark and, at an expiry, by both sides of every roll |
| EventMeaning.EventsMean | src/backtest/engine.py:644-669 | factored holdings but nothing of what exits, dividends paid and promised, outside flow, and cash from all of them and the yield on it |
| EventMeaning.OrdersPayTax | src/backtest/engine.py:679-690 | owed tax is paid out of what the sells leave before any buy |
| EventMeaning.YearEndMeans | src/backtest/engine.py:764-773 | at a year end, and only then, the yearly bases are settled |
| EngineSession.ApplyEvents | src/backtest/engine.py:644-669 | share factors, dividends, exits, deposits and yield in order |
| EngineSession.ApplyOrders | src/backtest/engine.py:679-690 | sells, then owed tax, then buys, with the applied and carried tallies of both batches |
| EngineSession.SettleAndRoll | src/backtest/engine.py:710-736 | variation of every leg, then the roll at expiry |
| EngineSession.ApplyOverlay | src/backtest/engine.py:710-766 | variation, roll, synchronisation and inverse trade in order; an error exactly when the inverse close is needed and missing, and then nothing of the inverse trade is booked |
| EngineSession.TradeInverse | src/backtest/engine.py:751-762 | an error if and only if the close is missing while units are held or aimed at |
| Engine.SessionIsSafe | src/backtest/engine.py:644-773 | a session keeps the books, keeps cash non-negative, and opens no leg outside the known ones |
| Engine.SyncIsSafe | src/backtest/engine.py:739-746 | a synchronisation keeps them too |
| Engine.EveryBacktestReconciles | src/backtest/engine.py:490-887 | over every sequence of sessions from opening: all balances equal their journal sums and cash never goes negative |
| BackupIndex.LatestAppend | src/data/lake_backup.py:345-357 | later lines win: the latest-line map of a concatenation |
| BackupIndex.KeptKeepsStateExactly | src/data/lake_backup.py:925-934 | dropping lines leaves a state unchanged if and only if every archive of its latest lines is kept |
| BackupIndex.ReachableArchives | src/data/lake_backup.py:810-823 | one pass of running reference counts yields exactly the archives holding a latest line of some retained prefix |
| BackupIndex.CollectionKeepsRetained | src/data/lake_backup.py:885-887 | dropping all other lines leaves the latest-line map of every retained prefix unchanged |
| BackupVersions.DeriveVersions | src/data/lake_backup.py:753-776 | the day-by-day states of an index |
| BackupVersions.VersionsAscend | src/data/lake_backup.py:753-776 | they are numbered, end at growing line counts on growing days, and the last is the whole index |
| BackupVersions.LatestIsRetained | src/data/lake_backup.py:793-807 | the latest state is retained whatever the retention counts |
| BackupRetention.StatesExactly | src/data/lake_backup.py:753-776 | a state ends at the end of the index and before every line that names an archive of a later day than all before it, dated by the newest archive it names |
| BackupRetention.RetainedExactly | src/data/lake_backup.py:793-807 | a state is retained if and only if it is the latest, has fewer than keepDaily dated states after it, or is the last of its month with fewer than keepMonthly later months |
| BackupStore.RemoteStore.UploadVerified | src/data/lake_backup.py:487-495 | uploads unless present; fails exactly when other bytes are present, and leaves them |
| BackupScan.Summarize | src/data/lake_backup.py:345-357 | paths with hash and size, known hashes, file count and byte total of the latest lines |
| BackupScan.Scan | src/data/lake_backup.py:519-544 | classifies every changed file as new content, reference or duplicate within the run; the new content is the first file of each hash the index lacks |
| BackupPlace.Segments | src/data/lake_backup.py:506-516 | the greedy cut: batches concatenate to the pending files, each fits the cap or is a single file, and none could have taken the first file of the next |
| BackupPlace.PlaceBatch | src/data/lake_backup.py:572-591 | stores one archive, lists it with its true hash, returns entries whose content it holds; fails exactly when its name is taken by other bytes |
| BackupPlace.PlaceAll | src/data/lake_backup.py:572-591 | the same for all segments, touching neither index nor manifest; fails if and only if the name of a segment is taken by other bytes, stored before or by an earlier segment |
| BackupPlace.UploadedConflicts | src/data/lake_backup.py:487-495 | storing some of the segments creates and removes no conflict |
| BackupRefer.ResolveFirstLocations | src/data/lake_backup.py:360-377 | the first location of every wanted hash; fails exactly when one never occurs |
| BackupRefer.ReferAll | src/data/lake_backup.py:593-602 | references and duplicates point to archives that hold their content; no lookup misses |
| BackupTotals.Totals | src/data/lake_backup.py:420-435 | incremental totals equal the number of paths and summed sizes of the new latest-line map |
| BackupTotals.SaveState | src/data/lake_backup.py:388-439 | writes index then manifest, with those totals, although the summary was shrunk to changed paths |
| BackupRun.Upload | src/data/lake_backup.py:556-603 | uploads and entries, with every intermediate remote state intact; fails if and only if a segment finds its name taken |
| BackupRun.Push | src/data/lake_backup.py:547-613 | completes if and only if no segment finds its name taken; intact at every interruption, and from every interrupted state the same push completes exactly if this one did; on completion every scanned file is current; does nothing when all is current |
| BackupRun.RerunCompletes | src/data/lake_backup.py:442-495 | rerunning an interrupted upload completes exactly when the first run would have |
| BackupRestore.WriteMember | src/data/lake_backup.py:631-656 | writes a member for the entries that name it, refuses a hash mismatch |
| BackupRestore.Extract | src/data/lake_backup.py:631-656 | succeeds exactly when every wanted member is present with its hash, and then writes exactly those |
| BackupRestore.Restore | src/data/lake_backup.py:659-704 | succeeds if and only if every outstanding line is restorable, and then the tree holds exactly the named contents; on failure every path is untouched or holds its named content |
| BackupRestore.IntactRestores | src/data/lake_backup.py:659-704 | an intact and fully listed remote restores every line |
| BackupGc.Retain | src/data/lake_backup.py:793-807 | the ends of exactly the wanted states, counted as in BackupRetention.RetainedExactly, always including the whole index |
| BackupGc.Gc | src/data/lake_backup.py:850-953 | every interruption leaves an intact remote; every wanted state is preserved; exactly the archives go that are not kept and are listed or look like archives; the latest-state guard never fires; a complete manifest is never refused unless the index is empty |
| BackupGc.KeptPreserves | src/data/lake_backup.py:925-934 | the rewritten index has every retained state as a prefix state |
| BackupGc.CollectingIntact | src/data/lake_backup.py:946-951 | every state between the rewrite and the last deletion is intact and as well listed as before |
| BackupRoundTrip.PushThenRestore | src/data/lake_backup.py:547-704 | from any intact remote: restoring after a push returns every byte of every file if and only if the push completed and the manifest had listed the archives of contents known before; nothing else is touched either way |
| BackupRoundTrip.ListingRecovers | src/data/lake_backup.py:547-704 | a complete manifest always meets that condition |
| BackupRoundTrip.CollectThenRestore | src/data/lake_backup.py:850-953 | restoring a retained state after a collection gives what it named before |
| BackupRoundTrip.RestorableExactly | src/data/lake_backup.py:693-703 | in an intact remote a line is restorable if and only if the manifest lists its archive rightly |
| BackupRoundTrip.PushThroughLag | src/data/lake_backup.py:438-439 | every push that writes passes through a remote with the new index and the old manifest |
| BackupRoundTrip.LagHidesExactly | src/data/lake_backup.py:693-703 | there a file is restorable if and only if its content was in the old index or the archive it went to happened to be listed already |
| BackupRoundTrip.HiddenFile | src/data/lake_backup.py:438-439 | one file pushed into an empty remote is stored, current in the index and not restorable just before the last write |
| BackupRoundTrip.PushAgain | src/data/lake_backup.py:603-605 | pushing again from there changes nothing, so a restore succeeds if and only if no file is hidden by that condition |
| BackupRoundTrip.CollectHidden | src/data/lake_backup.py:850-953 | no collection is applied while a file is hidden |
| IndexLines.IterIndexLines | src/data/lake_backup.py:296-324 | for every split into chunks, the lines and the first error are those of the whole payload |
| IndexLines.ReadingMeans | src/data/lake_backup.py:296-324 | without an error the non-blank lines, all valid; with one, those before the numbered line, which is neither blank nor valid |
| IndexLines.JoinSplit | src/data/lake_backup.py:296-324 | splitting at newlines loses nothing and leaves none inside a line |
| IndexLines.SplitJoin | src/data/lake_backup.py:296-324 | and is the only way to cut the bytes into newline-free lines |
| IndexLines.AppendPayload | src/data/lake_backup.py:396-412 | the written payload reads back as the old lines and then the new ones, with or without a final newline before |
| IndexLines.EndLine | src/data/lake_backup.py:409-410 | ending an unended payload changes nothing that is read |
| EntryBlock.ScanSessions | src/data/market_panel.py:420-479 | the scan with flags, windows and pointer yields exactly the blocks and reasons the actions mean |
| EntryBlock.EntryBlocks | src/data/market_panel.py:417-479 | the same after sorting |
| EntryBlock.BlockedExactly | src/data/market_panel.py:427-479 | blocked if and only if a standing window covers the session, a standing open notice is at most the limit old, or an enabled designation is active |
| EntryBlock.ReasonExactly | src/data/market_panel.py:454-471 | which reason is given: liquidation once a covering window has started, delisting for a recent standing delisting notice, the only kind of open notice there is, and a designation only when nothing else blocks |
| EntryBlock.OpenNoticesBlockExactly | src/data/market_panel.py:451-453 | whatever lapsed on the way, open notices block exactly when one that stands is recent |
| EntryBlock.NoLookAhead | src/data/market_panel.py:427-430 | the verdict depends only on sessions so far and actions in effect by then |
| EntryBlock.ActionTracks | src/data/market_panel.py:429-450 | one action keeps the flags, last notice and windows equal to their meaning |
| EntryBlock.LapseTracks | src/data/market_panel.py:451-453 | so does the lapse check, for either kind of notice |
| MarketRules.CheckBands | src/core/market_rules.py:199-208 | bands are accepted if and only if they start at zero, ascend strictly and have positive ticks |
| MarketRules.CheckAscending | src/core/market_rules.py:211-227 | regimes are accepted if and only if there is one and their dates ascend strictly |
| MarketRules.InForceMeans | src/core/market_rules.py:66-75 | nothing is in force exactly before the first regime, otherwise the greatest one not after the date |
| MarketRules.Lookup | src/core/market_rules.py:66-97 | the scan that stops early finds the regime in force |
| MarketRules.TickSize | src/core/market_rules.py:99-114 | the tick of the band containing the price; no answer for a non-positive price or an uncovered session |
| MarketRules.WidthIsExact | src/data/market_panel.py:345-354 | the integer width on columns equals the floored decimal width on single prices |
| PriceLimits.DailyLimits | src/core/market_rules.py:124-148 | answers exactly for a positive base and a covered session, with the snapped limits |
| PriceLimits.WidthIsGreatest | src/core/market_rules.py:138-140 | the width is the greatest multiple of the base tick that is at most the ratio of the base |
| PriceLimits.LimitsAreOutermost | src/core/market_rules.py:127-148 | where band boundaries round rightly the limits are the outermost quotable prices within the width |
| PriceLimits.LimitsOnGrid | src/core/market_rules.py:127-148 | on grid bands they are, and bracket a quotable base |
| PriceLimits.LimitsWithinRatio | src/core/market_rules.py:136-148 | for all bands the limits stay within the ratio of the base |
| PriceLimits.LowerFloorIsIdle | src/core/market_rules.py:146-147 | the one-tick floor under the lower limit never binds |
| PriceGrid.RoundsDownExactly | src/core/market_rules.py:145 | rounding down to the own tick gives the greatest quotable price at every price if and only if it does at every band start |
| PriceGrid.RoundsUpExactly | src/core/market_rules.py:146 | rounding up to the own tick gives the least quotable price at every price if and only if it does at the last price before every further band |
| PriceGrid.OnGridRounds | src/core/market_rules.py:145-146 | bands that start at multiples of their own and the preceding tick satisfy both |
| PriceGrid.PublishedTablesOnGrid | config/market/krx_market_rules.toml:8-46 | every published tick table has band starts divisible by its own and the preceding tick |
| PriceGrid.OffGridRoundsWrong | src/core/market_rules.py:199-208 | an accepted table off the grid where rounding down misses the greatest quotable price |
| PriceGrid.OffGridRoundsRight | src/core/market_rules.py:199-208 | another off the grid where both roundings are right everywhere |
| MarketPanel.TickExpr | src/data/market_panel.py:319-333 | the override chain evaluates to the tick of the last regime and band that apply, missing where none does |
| MarketPanel.WidthExpr | src/data/market_panel.py:345-354 | the override chain evaluates to the width of the ratio in force |
| MarketPanel.TickColumnAgrees | src/data/market_panel.py:319-333 | tick column and scalar rule agree for every positive price and session, covered or not |
| MarketPanel.LimitsOfRow | src/data/market_panel.py:516-531 | the limit columns in terms of the rules, including missing values |
| MarketPanel.CompareLimits | src/data/market_panel.py:516-531 | scalar and column limits agree for every positive base; the lower column differs exactly where ticks are in force without a limit ratio |
| FinancialQuality.ScanRows | src/data/financial_quality.py:260-325 | the loop records one snapshot per run of equal key and availability, with the state known at its end |
| FinancialQuality.Build | src/data/financial_quality.py:231-346 | scoped, sorted, scanned, extended with unresolved filings and sorted again; the rows on QualityMeaning say what that means for the table |
| QualityMeaning.EventsExactly | src/data/financial_quality.py:302-325 | a key has an event at a time if and only if a row of a required fact, in KRW with a readable amount and usable identifiers of that key, becomes available then |
| QualityMeaning.EventMeans | src/data/financial_quality.py:264-325 | over identifiers that cleaning does not merge, every event names as missing exactly the required facts no such row reports by its time, with the filings and the last publication of those that are reported |
| QualityPointInTime.EmittedCut | src/data/financial_quality.py:302-325 | over orderly rows the snapshots of the cut are the cut of the snapshots |
| QualityPointInTime.TidyCommutes | src/data/financial_quality.py:231-346 | with tidy identifiers the events built later, cut to a time, are the events built at it |
| QualityPointInTime.UntidyBreaks | src/data/financial_quality.py:254-258 | for any two spellings of one identifier, a table on which it fails |
| QualityPointInTime.CommutesExactly | src/data/financial_quality.py:254-317 | over given identifiers it holds for all tables and times if and only if cleaning merges none of them |
| QualityEligibility.TidyNeverReverts | src/data/financial_quality.py:245-346 | over identifiers that cleaning does not merge, completeness of a company, period and basis never reverts |
| QualityExactness.NeverRevertsExactly | src/data/financial_quality.py:245-346 | over given identifiers it never reverts, for all tables and times, if and only if cleaning merges none of them, at most one fact is required, or cleaning changes a required fact |
| QualityExactness.SpellingsRevert | src/data/financial_quality.py:254-325 | for any two spellings of one identifier and two or more facts, a table on which completeness reverts and the newest event is stale |
| QualityEligibility.NewestSaysState | src/data/financial_quality.py:264-300 | over rows of one key in one stretch, the newest snapshot names exactly the required facts not yet reported |
| QualityExactness.NewestIsCurrentExactly | src/data/financial_quality.py:264-325 | with cleanly spelled facts the newest event is current for all tables and times if and only if cleaning merges no identifiers or at most one fact is required |
| QualityEligibility.Eligible | src/data/financial_quality.py:349-389 | the companies whose latest readable period has a complete newest event on a preferred basis |
| QualityGate.EligibleExactly | src/data/financial_quality.py:349-389 | over identifiers that cleaning does not merge, a company is eligible if and only if rows of the table report every required fact on a preferred basis in its latest readable period of which anything is known |
| QualityEligibility.TidyEligibility | src/data/financial_quality.py:365-389 | over identifiers that cleaning does not merge, eligibility at a time is the same from events built then or later |
| QualityExactness.EligibilityExactly | src/data/financial_quality.py:365-389 | with two or more required facts that holds for all tables and times if and only if cleaning merges no identifiers or changes a required fact |
| QualityExactness.SpellingsLookAhead | src/data/financial_quality.py:349-389 | on the table of the two spellings a company is eligible at time 1 from events built at 2 and not from events built at 1 |
| Dividends.ResolveDecisions | src/data/dividend_events.py:314-350 | the loops with match and pop compute the resolution, which keeps exactly the standing decisions by DividendStanding.KeptExactly |
| DividendStanding.KeptExactly | src/data/dividend_events.py:314-350 | kept are exactly the decisions that stand: displaced neither by a later one about the same dividend nor, as the latest standing one it may replace, by a correction |
| DividendStanding.CorrectionsApply | src/data/dividend_events.py:319-337 | for every correction and every kept decision within its reach, one received no earlier and within its reach was superseded |
| DividendStanding.SupersededHasReason | src/data/dividend_events.py:319-350 | every superseded decision has another behind it about the same dividend, or a correction within reach |
| Dividends.MatchIsLatest | src/data/dividend_events.py:322-337 | a correction replaces the latest received decision it may replace |
| Dividends.ResultPartitions | src/data/dividend_events.py:314-350 | kept and superseded partition the input |
| Dividends.ResultIsSound | src/data/dividend_events.py:314-350 | at most one kept per company and record date, the latest received; each superseded one has a later one that explains it; each last decision of a company is kept |
| Dividends.ResultOrderFree | src/data/dividend_events.py:314-316 | with distinct keys the result does not depend on input order |
| FlowTargets.MergeSorted | src/data/flow_targets.py:107-118 | sorted spans become disjoint ascending intervals covering the same days, even with inverted spans |
| FlowTargets.MergedIntervals | src/data/flow_targets.py:99-119 | the same per subject over the answered ranges |
| FlowTargets.BisectRight | src/data/flow_targets.py:144 | the number of starts at or before a day |
| FlowTargets.IsCovered | src/data/flow_targets.py:141-145 | the clipped right-bisect lookup decides membership for every day |
| FlowTargets.PendingCells | src/data/flow_targets.py:122-147 | exactly the target cells outside every answered range of their ticker, each once, in order |

## Left out

- Float market impact, participation caps, order pricing and target-to-order conversion: binary floating point with no exact law; fills enter the model with their quantity and price.
- Precision of the decimal context: quotients of decimals are exact reals here.
- JSON, tar, zstd, memory mapping, the rclone and directory stores: an archive is its list of members and a manifest its fields; only the control flow around them is modelled.
- A remote index or manifest that changes under a running collection: the recheck before applying compares two reads of one state, which is constant in a sequential model.
- Version numbers re-derived after a collection: retained states are followed as index prefixes, because lines that only refer to older archives may fold into an earlier state.
- The byte totals of a collection plan and the counts of a push report: sums shown to the operator that decide nothing.
- Backup verification and the choice of a past version to restore: `BackupRestore.Restore` takes any prefix of the index.
- Parsing of market actions and their grouping by instrument: `EntryBlock.EntryBlocks` is one instrument with parsed actions and any sort order that respects the effective date.
- Sell-tax lookups: the same scan as the tick regimes, with no law of its own.
- The rest of the market panel (returns, share factors, limit-lock flags, rolling statistics): column library calls.
- The source hash of a quality event: a function of fields the model has.
- The fiscal key of a period: any ranking of periods, distinct for distinct readable ones where that matters.
- Reading investor-flow targets from Silver datasets: `FlowTargets.PendingCells` starts from the cells.
- Providers, relays, HTML parsing, dataset publishing, the registry, research and live trading: input, output and string matching.
- Ledgers.Ledger.ApplyShareFactor: multiplies exact reals where the code multiplies binary floats, and does not model the rejection of non-finite factors, because a factor is a real number.
- Ledgers.Ledger.AccrueCashYield: floors an exact real product where the code floors a product of binary floats, because float rounding is not modelled.
- QualityExactness.EligibilityExactly: takes a policy that reads every period the builder reads and prefers both bases, because a policy that ignores the events of a key cannot see them look ahead.
- BackupStore.RemoteStore.UploadVerified: does not model a store operation that fails, because a failed operation stops the run in a state the trace already contains.
- BackupRestore.Restore: does not model the refusal of paths and archive names that leave their directory, because paths here are keys of a tree and not file names.
- IndexLines.IterIndexLines: takes line validation as a parameter, because the fields it checks decide only which lines are invalid.
- FinancialQuality.Build: does not model rows of equal sort key in an unspecified order, because the sort is taken to be stable.
- EngineSession.RunSession: takes the day's fills, events and overlay target as given, because pricing them is floating point or policy code.
