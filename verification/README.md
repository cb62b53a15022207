# scoutlgs verification

A Dafny model of the parts of scoutlgs (a search and cart service for Magic cards over many Shopify stores) where
correctness is hardest to see: the cart optimizer and the database prune before it, storefront discovery as a job
state machine, the listing write pipeline, the interactive list refresh, three small concurrent helpers, the identity
tables, the printing matcher and the COPY text the seeder streams. Each module says what a piece of the source
computes and proves what it is for. Check everything with `dafny verify dfyconfig.toml`.

## How the model is laid out

- **Cart** (`CartOptimizer`, `CartOptimality`, `ShippingSigns`, `CartReport`, `CartGuarantees`, `CartInputs`, `CartResults`,
  `CartCosts`, `CardOptimization`, `CartRequests`, `CandidatePruning`, `OrderedPruning`, `PruningExactness`).
  The mask loop, its in-place penalty pass and the report are methods; each is proved against a function, and the
  functions carry the optimality argument. A complete search is globally optimal for every input exactly up to 32
  candidate stores: the mask test shifts by the store index, and JavaScript takes shift counts modulo 32. From 33 stores on
  the result can be flagged optimal and not be; from 54 on the double-precision mask counter stalls and none is flagged.
  No candidate store may charge negative shipping for it, which `ShippingSigns`
  shows to be necessary. The SQL prune ranks rows by price alone. It changes neither the missing count nor the objective
  exactly for the requests that never charge for a condition or weigh one against another: strict mode, a minimum of
  UNKNOWN or DMG, no downgrade step allowed, or allow-if-needed without a penalty per step. The preference for better
  copies holds in a group exactly if no penalised copy's better copy is in the price band of a still better one.
  `CartInputs`, `CartResults`, `CartCosts` and `CartRequests` read inputs, picks, costs and report off their fields.
- **Discovery** (`UtcCalendar`, `YearlyBuckets`, `StorefrontDiscovery`, `StorefrontJobs`, `StorefrontCoverage`,
  `StorefrontTermination`, `StorefrontProcessor`). The platform is an oracle over a fixed catalogue: exhaustive within a date range, in pages
  of 250, with a limit of 25000 products. A run is any interleaving of job starts, attempts, throttles, failures,
  attempts cut off between two enqueues, repeated plans and sweeps. `sweeperAttempts` is dropped by page continuations
  and split children, so what is proved is a bound on the counter a job carries, not on sweeps over a bucket's life.
- **Writing** (`ListingTables`, `WrittenRows`, `ListingUpsert`, `StockFlags`, `RetriedFlushes`, `BatchAccumulator`,
  `RunCounters`, `FlushOrder`, `FlushContinuations`, `FlushDecisions`, `FlushedTables`, `DrainedStock`). Items are objects, because the service merges
  duplicates into them and a failed batch is retried with the merged objects. Each item's stale cleanup runs over the whole
  product, so an older extraction in the same batch can clear a flag the newest one set; `StockFlags` says exactly when.
  Flushes overlap and failed ones start over, so an older extraction can overwrite a newer one; `FlushDecisions` says, of a
  given state, exactly when nothing that may still happen without arrivals does that, and `FlushOrder`, `FlushedTables`
  and `DrainedStock` what whole runs guarantee if flushes never share a listing, a row or a product.
- **Refresh** (`ListRefresh`, `CartRefresh`, `RefreshRuns`). Batches advance in any order through fetch, update of missing rows,
  extraction and read-back; replies are fixed per batch.
- **Helpers** (`WorkerPool`, `RateLimiter`, `ScrapeWaiters`). The waiter protocol never resolves twice and never
  completes early, but a waiter can be left with its timeout alone: when it joined while a cleanup was pending, when the
  subscribe fails, or when an older subscription that a lost connection or a cleanup removed has its last read.
- **Identity** (`Identity`, `IdentityEffects`, `IdentityGuarantees`, `IdentityService`). Tables with positional ids; a transaction works
  on a copy and commits it whole.
- **Matcher and printer** (`PrintingMatcher`, `MatchAnswers`, `CopyText`).
- `Options`, `Numbers`, `Sequences` and `Text` hold the shared option type and the few integer, sequence and string operations
  the sources use.

Conventions. Prices and costs are reals, so floating-point rounding is not modelled. Strings are sequences of UTF-16
code units; lower-casing and trimming act on ASCII. Instants are integer milliseconds and stand for the ISO strings the
queue carries. Clocks, database and platform replies, password checks and `normalizeCardName`'s regular expressions are
parameters. A listing's id is identified with its unique (store, product URL) key.

The code differs from its own comments in two places, and the model follows the code: `timeBudgetMs` is documented as
defaulting to ten seconds (`packages/core/src/cart-optimizer/cart-optimizer.types.ts:73`) while the optimizer uses
60000 ms, and `generateYearlyBuckets` is described as aligned to January 1, which does not hold where the following
year is numbered 0 to 99, since `Date.UTC` reads those as 1900 to 1999.

## Model

| member | source | states |
|---|---|---|
| `CartOptimality.OptimalExactlyUpTo32Stores` | packages/core/src/cart-optimizer/cart-optimizer.ts:49-80 | A complete search is globally optimal for every input with n candidate stores, none of which charges negative shipping, if and only if n is at most 32, the width of the shift in the mask test |
| `CartOptimality.CompleteSearchIsGloballyBest` | packages/core/src/cart-optimizer/cart-optimizer.ts:57-80 | With at most 32 candidate stores, none charging negative shipping, the pick of a complete search misses no more cards, and at no higher objective, than any assignment of each card to none or one of its prepared offers, whatever masks generate |
| `CartOptimality.EverySubsetHasAMask` | packages/core/src/cart-optimizer/cart-optimizer.ts:60 | Every set of candidate stores is the allowed set of some mask below 2^n, for n at most 32 |
| `CartOptimality.ShippingSplits` | packages/core/src/cart-optimizer/cart-optimizer.ts:72-76 | Shipping of a duplicate-free store list is shipping of any sub-list plus that of the rest |
| `CartOptimality.DominatingPicksCoverMore` | packages/core/src/cart-optimizer/cart-optimizer.ts:63-71 | An assignment that covers every card another covers, never dearer, selects at least as many offers, and at equal number costs no more |
| `CartOptimality.ChoicesBeatConfinedAssignments` | packages/core/src/cart-optimizer/cart-optimizer.ts:63-76 | Exchange step: the cheapest offers of a store set score at least as well as any assignment using only those stores |
| `CartOptimality.MasksReachEveryAssignment` | packages/core/src/cart-optimizer/cart-optimizer.ts:57-79 | For any assignment some mask's pick is at least as good |
| `CartOptimality.SearchHasAWinner` | packages/core/src/cart-optimizer/cart-optimizer.ts:77-79 | A non-empty search always has a first best mask |
| `ShippingSigns.BestExactlyWithoutNegativeShipping` | packages/core/src/cart-optimizer/cart-optimizer.ts:49-80 | Under given settings complete searches over up to 32 stores are best over all assignments for every input if and only if no store key is charged a negative amount, or a negative step bound rejects every offer |
| `ShippingSigns.NegativeShippingMisses` | packages/core/src/cart-optimizer/cart-optimizer.ts:64-76 | A store with negative shipping makes an input on which every mask's pick loses: the search takes each card's cheapest copy, not the one whose store pays |
| `CartOptimality.WideSearchMissesTheOptimum` | packages/core/src/cart-optimizer/cart-optimizer.ts:60 | From 33 stores on there are inputs where bits 0 and 32 coincide and every mask's pick is beaten by an assignment |
| `CartOptimizer.SearchSubsets` | packages/core/src/cart-optimizer/cart-optimizer.ts:49-80 | The mask loop returns the first best pick of the masks it evaluated, is optimal exactly when it evaluated all of them, which takes at most 53 stores since the counters are doubles that stall at 2^53, and stopped only on an expired clock reading |
| `CartOptimizer.TryMask` | packages/core/src/cart-optimizer/cart-optimizer.ts:58-79 | One turn keeps the tie-broken leader: the earliest mask with the best (missing, cost) so far |
| `CartOptimizer.EvaluateMask` | packages/core/src/cart-optimizer/cart-optimizer.ts:60-76 | The inner loops select one cheapest eligible offer per card and charge shipping once per store of cart or selection |
| `CartOptimizer.Cheapest` | packages/core/src/cart-optimizer/cart-optimizer.ts:64-66 | The filtered, sorted head is an eligible offer that no eligible offer precedes in (effective cost, price); absent only if nothing is eligible |
| `CartOptimizer.BestMaskExtends` | packages/core/src/cart-optimizer/cart-optimizer.ts:77-79 | Comparing the next mask with the leader keeps the leader best and first over one more mask |
| `CartOptimizer.ApplyConditionValue` | packages/core/src/cart-optimizer/cart-optimizer.ts:177-189 | The in-place penalty pass, which reads items it already rewrote, ends as if every penalty were computed from the untouched list |
| `CartOptimizer.HigherPriceIsTheLowest` | packages/core/src/cart-optimizer/cart-optimizer.ts:181-183 | The price compared with is the lowest among the same store's strictly better copies, absent exactly when there are none |
| `CartOptimizer.PrepareCandidates` | packages/core/src/cart-optimizer/cart-optimizer.ts:100-140 | Each wanted card's group is its prepared offers after the savings policy and the penalty pass |
| `CartOptimizer.Prepared` | packages/core/src/cart-optimizer/cart-optimizer.ts:107-135 | A prepared offer is exactly the preparation of one of the raw candidates that passes every filter |
| `CartOptimizer.Baseline` | packages/core/src/cart-optimizer/cart-optimizer.ts:157-159 | The baseline is a cheapest copy meeting the minimum, absent exactly when none does |
| `CartOptimizer.KeepWorthwhile` | packages/core/src/cart-optimizer/cart-optimizer.ts:161-174 | Exactly the copies worth the downgrade remain |
| `CartOptimizer.NotInCart` | packages/core/src/cart-optimizer/cart-optimizer.ts:45-47 | Exactly the cards whose normalised name is not in the given set remain; `CartInputs.WantedToBuyExactly` says which set that is |
| `CartReport.OptimizeCart` | packages/core/src/cart-optimizer/cart-optimizer.ts:41-83 | Every call that returns yields an outcome, under any clock: report of the first best pick of the evaluated masks, or of nothing if none was evaluated; a call over more than 53 candidate stores returns only under a clock that expires |
| `CartReport.BuildResult` | packages/core/src/cart-optimizer/cart-optimizer.ts:199-246 | The grouping loop over the selection builds the same report as regrouping the selection store by store |
| `CartReport.PutGroups` | packages/core/src/cart-optimizer/cart-optimizer.ts:227-228 | One more item keeps the insertion-ordered groups equal to the selection's items per store |
| `CartGuarantees.ExpandedKeysDistinct` | packages/core/src/cart-optimizer/cart-optimizer.ts:94-98 | Distinct colon-free wanted keys stay distinct after quantities are expanded into suffixed copies |
| `CartGuarantees.SelectedAndMissingPartitionWanted` | packages/core/src/cart-optimizer/cart-optimizer.ts:205-226 | With distinct keys, every wanted copy is selected once or reported missing once, never both |
| `CartGuarantees.StorePlansPartitionSelection` | packages/core/src/cart-optimizer/cart-optimizer.ts:227-233 | Store plans regroup exactly the selection, one plan per used store, nothing lost or repeated |
| `CartGuarantees.ReportedObjective` | packages/core/src/cart-optimizer/cart-optimizer.ts:72-76 | objectiveTotal is the search's cost less shipping of initial-cart stores no selected offer uses |
| `CartGuarantees.OutcomeIsAnAssignment` | packages/core/src/cart-optimizer/cart-optimizer.ts:61-70 | The selection of any outcome takes each card's offer, if any, from that card's own group |
| `CartGuarantees.CompleteSearchMissesOnlyOfferless` | packages/core/src/cart-optimizer/cart-optimizer.ts:64-71 | After a complete search a card is missing if and only if its prepared list is empty, for any number of stores |
| `CartGuarantees.CapacityExhaustedNeedsATimeout` | packages/core/src/cart-optimizer/cart-optimizer.ts:215-219 | The reason capacity-exhausted appears only in results cut short by the deadline |
| `CartGuarantees.OptimalResultsAreGloballyBest` | packages/core/src/cart-optimizer/cart-optimizer.ts:41-83 | A result flagged optimal over at most 32 stores is best over all assignments |
| `CartGuarantees.CompleteOutcomeExists` | packages/core/src/cart-optimizer/cart-optimizer.ts:41-83 | With a positive budget every input with at most 53 candidate stores has a result flagged optimal, under a clock that stands still |
| `CartGuarantees.OptimalFlagExactlyUpTo32Stores` | packages/core/src/cart-optimizer/cart-optimizer.ts:41-83 | For every input with n candidate stores, none charging negative shipping, and every clock, a result flagged optimal is best over all assignments if and only if n is at most 32 or beyond 53; from 33 to 53 a result that is flagged optimal and is not best exists, beyond 53 none is flagged |
| `CartGuarantees.NothingIsFlaggedBeyondCounting` | packages/core/src/cart-optimizer/cart-optimizer.ts:49-59 | From 54 candidate stores on the mask counter stalls at 2^53 short of the last mask, so that no result is flagged optimal under any clock |
| `CartGuarantees.BetterCopyWinsExactly` | packages/core/src/cart-optimizer/cart-optimizer.ts:177-192 | On prices before the pass: a penalised copy ends costlier than its cheapest better copy if and only if the better copy's condition penalty plus the surcharge its own band would bring stays below the lower copy's condition penalty plus the epsilon; with equal condition penalties and no negative premium in the band, if and only if the better copy has no cheapest better copy whose price reaches the threshold and whose premium lies in the band |
| `CartGuarantees.PenalisedInBand` | packages/core/src/cart-optimizer/cart-optimizer.ts:180-188 | A copy is penalised if and only if a cheapest strictly better copy of its store reaches the threshold price and its premium lies in the band |
| `CartGuarantees.PolicyHoldsExactly` | packages/core/src/cart-optimizer/cart-optimizer.ts:177-192 | In a prepared group every penalised copy costs more than each of its cheapest better copies if and only if no such better copy is itself in the band of another (condition penalties equal, band without negative premiums) |
| `CartGuarantees.StrictlyChargedAlike` | packages/core/src/cart-optimizer/cart-optimizer.ts:113-123 | Without downgrades every copy of a group has the same condition penalty |
| `CartGuarantees.ThreeConditionsDefeatThePolicy` | packages/core/src/cart-optimizer/cart-optimizer.ts:100-140 | An actual card with raw copies at 100, 80 and 65 in one store breaks the promise under the default policy |
| `CartGuarantees.ThreeCopiesChain` | packages/core/src/cart-optimizer/cart-optimizer.ts:180-188 | Its copies form such a chain: the worst is penalised by 15.000001, and the middle one ends costlier still |
| `CartInputs.WantedToBuyExactly` | packages/core/src/cart-optimizer/cart-optimizer.ts:45-47 | For every input and every normaliser: the copies to be bought are, in order, exactly those of the expanded wanted list whose normalised name is no cart item's normalised title |
| `CartInputs.NothingOwnedIsBought` | packages/core/src/cart-optimizer/cart-optimizer.ts:45-83 | In every outcome no selected offer and no missing card has a normalised name equal to that of a cart item |
| `CartInputs.CopiesExactly` | packages/core/src/cart-optimizer/cart-optimizer.ts:94-98 | Copy k of card i stands right after the copies of the earlier cards, as many as the whole part of their quantities, at least one each, and differs from the card at most in its key, suffixed with k + 1 if more than one is asked for |
| `CartInputs.OffersExactly` | packages/core/src/cart-optimizer/cart-optimizer.ts:107-135 | The prepared offers are, in the candidates' order, exactly those of the card's candidates with its preferred set, a store, a finite price not negative and a downgrade the policy takes; each carries the candidate's price, store and condition, the grades it lies below the minimum and their charge |
| `CartInputs.SavingsExactly` | packages/core/src/cart-optimizer/cart-optimizer.ts:142-175 | The savings rule keeps, in order, every offer at or above the minimum, and in allow-if-cheaper mode of the others exactly those at least MP that save a quarter and a dollar on a cheapest satisfying copy of at least two dollars, if there is one |
| `CartInputs.GroupExactly` | packages/core/src/cart-optimizer/cart-optimizer.ts:100-140 | A card's group is the offers its candidates make, those of them the savings rule keeps, and on each the surcharge its own price band calls for, in terms of the fields alone |
| `CartInputs.PickExactly` | packages/core/src/cart-optimizer/cart-optimizer.ts:64-66 | The pick is the first of the allowed offers with the least whole cost, and among those with the least price |
| `CartCosts.ObjectiveExactly` | packages/core/src/cart-optimizer/cart-optimizer.ts:69-76 | The objective is every selected offer's price and three penalties, and one charge, its own, the given default or three, for each distinct store of the cart or the selection |
| `CartCosts.WinnerExactly` | packages/core/src/cart-optimizer/cart-optimizer.ts:57-80 | An outcome that evaluated any mask selects, in card order, the first of each card's cheapest offers among the stores of one mask; no evaluated mask finds more cards, or as many for less, and no earlier one as many for as much |
| `CartCosts.OptimalInNumbers` | packages/core/src/cart-optimizer/cart-optimizer.ts:41-83 | A result flagged optimal over at most 32 stores that charge nothing negative selects as many cards as any assignment, and costs no more than one that selects as many |
| `CartResults.MissingAndStatusExactly` | packages/core/src/cart-optimizer/cart-optimizer.ts:204-239 | An outcome reports as missing, in order, exactly the copies to be bought whose key no selected offer carries, with their minimum; it is empty exactly if nothing is to be bought or nothing was selected though something is missing, and complete exactly if something is to be bought and nothing is missing |
| `CartResults.ReasonExactly` | packages/core/src/cart-optimizer/cart-optimizer.ts:208-219 | The reason given is no candidates, no candidate of the preferred set, none of those at or above the minimum, a group left unused or none, in this order, each read off the candidates' own fields |
| `CartResults.PlansExactly` | packages/core/src/cart-optimizer/cart-optimizer.ts:227-233 | Each store's plan holds, in order, exactly the selected offers of that store, is named after the first of them, and adds up their prices and the store's charge; every selected offer's store has one |
| `CartResults.TotalsExactly` | packages/core/src/cart-optimizer/cart-optimizer.ts:234-244 | The seven totals of an outcome are the sums of the selection's prices and penalties and of the plans' charges, and their sums |
| `CardOptimization.StrictConditions` | packages/core/src/card-optimization/card-optimization.service.ts:87-90 | Strict mode asks the database for exactly the known conditions no worse than the minimum |
| `CardOptimization.NothingAcceptableIsFiltered` | packages/core/src/card-optimization/card-optimization.service.ts:92-101 | With a known minimum the database filter drops no known condition the optimizer would accept |
| `CardOptimization.FiltersAgreeExactly` | packages/core/src/card-optimization/card-optimization.service.ts:87-101 | For every request the database and the optimizer accept the same known conditions if and only if the step bound is not negative (in strict mode); in a flexible mode not negative, or at least four for an unknown minimum, or so far negative that the slice, which then counts from its end, is empty |
| `CardOptimization.PruningKeepsTheCheapest` | packages/core/src/card-optimization/card-optimization.service.ts:48-58 | Every row lost to price_rank = 1 leaves one of its own position and store, no dearer |
| `CardOptimization.GroupByPosition` | packages/core/src/card-optimization/card-optimization.service.ts:61-62 | The position map holds every row under its position, in row order |
| `CardOptimization.Execute` | packages/core/src/card-optimization/card-optimization.service.ts:63-80 | The service's result, whenever it returns, is an outcome of the optimizer on the mapped rows |
| `CartRequests.RequestExactly` | packages/core/src/card-optimization/card-optimization.service.ts:63-80 | One copy of every entry is wanted at the request's minimum and the entry's preferred set; which downgrades are taken and what they are charged, shipping and the minute of search follow from the request's fields |
| `CartRequests.CandidatesExactly` | packages/core/src/card-optimization/card-optimization.service.ts:61-72 | The candidates handed over are, entry after entry, one for each row of the entry's position in row order, with the row's variant, price, condition, store and set |
| `CartRequests.BoughtAreRows` | packages/core/src/card-optimization/card-optimization.service.ts:42-80 | In every result of the service each offer bought is a row's, at its price and store, for an entry of that position and preferred set, at most as far below the minimum as the request allows, and of a card no cart item names |
| `PruningExactness.PruningIsHarmlessExactly` | packages/core/src/card-optimization/card-optimization.service.ts:42-80 | For every request: complete searches over all entries, rows and their pruned rows agree on missing count and objective if and only if the request is neutral (strict, or minimum unknown or DMG, or at most zero steps allowed, or allow-if-needed without a penalty per step); both with rows in the query's order, for any stores and shipping, and with rows in any order over at most 32 stores without negative shipping |
| `PruningExactness.PenaltyIsHarmful` | packages/core/src/card-optimization/card-optimization.service.ts:48-58 | A penalty per step of either sign makes two copies of one card in one store on which the pruned search pays more |
| `PruningExactness.SavingsRuleIsHarmful` | packages/core/src/card-optimization/card-optimization.service.ts:48-58 | In allow-if-cheaper mode the prune hides the satisfying copy the savings rule judges by, so that the pruned search misses the card or pays another price |
| `CandidatePruning.NeutralPreparation` | packages/core/src/card-optimization/card-optimization.service.ts:48-80 | Under a neutral request a row that passed the filter is accepted whatever its condition and costs its price |
| `CandidatePruning.PruningKeepsTheOptimum` | packages/core/src/card-optimization/card-optimization.service.ts:42-59 | Under a neutral request complete searches over pruned and unpruned rows, each in any row order, agree on the missing count and on the objective |
| `OrderedPruning.OrderedPruningChangesNothing` | packages/core/src/card-optimization/card-optimization.service.ts:42-59 | With rows in the query's store order, results of a neutral request on pruned and full rows have the same missing count and objective after equally many masks, for any number of stores, any shipping charges and any deadline |
| `OrderedPruning.MasksScoreAlike` | packages/core/src/card-optimization/card-optimization.service.ts:48-58 | Each single mask scores the same on pruned and full rows |
| `OrderedPruning.CheapestIsEarliest` | packages/core/src/cart-optimizer/cart-optimizer.ts:64-66 | The sort is stable: every eligible offer before the pick is strictly worse |
| `CandidatePruning.ThinningKeepsTheScore` | packages/core/src/card-optimization/card-optimization.service.ts:48-58 | Two complete searches over a family of offer groups, and over a thinning that keeps a twin for all it drops, score the same |
| `CandidatePruning.PruningThins` | packages/core/src/card-optimization/card-optimization.service.ts:48-80 | The database prune only drops prepared offers that keep a same-store twin no dearer |
| `CandidatePruning.NegativePricesWouldBePrunedInto` | packages/core/src/card-optimization/card-optimization.service.ts:48-58 | Why stored prices must not be negative: a negative price would be rank 1 and then be rejected |
| `UtcCalendar.DayFromYearIsTheFormula` | apps/scraper/src/storefront/storefront.processor.ts:1119 | Counting days year by year gives the closed day-from-year formula of section 21.4.1 of ECMA-262 |
| `UtcCalendar.YearFromTime` | apps/scraper/src/storefront/storefront.processor.ts:1119 | The UTC year of an instant is the one whose span contains it |
| `UtcCalendar.NextYearIsNext` | apps/scraper/src/storefront/storefront.processor.ts:1119 | The next boundary starts the following year, with a year numbered 0 to 99 read as 1900 to 1999; outside those it is the true year boundary, at most 366 days on |
| `YearlyBuckets.GenerateYearlyBuckets` | apps/scraper/src/storefront/storefront.processor.ts:1108-1125 | The loop returns the buckets of the recursive definition and terminates, including an inverted range |
| `YearlyBuckets.BucketsTile` | apps/scraper/src/storefront/storefront.processor.ts:1116-1124 | For every min <= max the buckets are non-empty, contiguous and exactly tile [min, max + 1 s) |
| `YearlyBuckets.TilesCover` | apps/scraper/src/storefront/storefront.processor.ts:1116-1124 | Each instant of a tiled span lies in exactly one tile |
| `YearlyBuckets.OneBucketPerYear` | apps/scraper/src/storefront/storefront.processor.ts:1117-1123 | One bucket per UTC year touched, bucket i starting in year i, if and only if no boundary into years 0 to 99 is crossed |
| `YearlyBuckets.BucketsAreAtMostAYear` | apps/scraper/src/storefront/storefront.processor.ts:1119-1121 | Outside those years no bucket is wider than a leap year and the closing second |
| `YearlyBuckets.HalvesTile` | apps/scraper/src/storefront/storefront.processor.ts:1132-1149 | Both halves are non-empty and tile the range exactly when it can be split |
| `YearlyBuckets.DescendantWidth` | apps/scraper/src/storefront/storefront.processor.ts:1132-1144 | A descendant at depth d of a bucket of width N is at most ceil(N / 2^d) wide |
| `YearlyBuckets.SplitDepth` | apps/scraper/src/storefront/storefront.processor.ts:290-321 | A range wider than 1 ms at depth d below a yearly bucket has d at most 34, so its halves are at depth at most 35 |
| `StorefrontCoverage.NothingIsEverLost` | apps/scraper/src/storefront/storefront.processor.ts:194-386 | In every reachable state (pages, splits, throttles, failures, repeated plans, sweeps in any order) each product of the planned range is processed, or at or past the cursor of a waiting, active or failed job, or in a recovery range at most 1 ms wide |
| `StorefrontCoverage.FinishedRunsAreComplete` | apps/scraper/src/storefront/storefront.processor.ts:266-386 | With nothing waiting, active or failed the only unprocessed products share their millisecond with more than 25000 products |
| `StorefrontCoverage.DepthAndSweepsAreBounded` | packages/core/src/queue/queue.service.ts:152-191 | In every reachable state a job's sweep counter is at most 5, and bucketDepth at most 35 unless the range crosses into years 0 to 99 |
| `StorefrontCoverage.StepKeepsInv` | apps/scraper/src/storefront/storefront.processor.ts:233-394 | Every step of the run, also one cut off between its effects, keeps the coverage invariant |
| `StorefrontCoverage.AttemptHandsOver` | apps/scraper/src/storefront/storefront.processor.ts:266-386 | Whatever a job held, one of its attempt's effects takes over |
| `StorefrontCoverage.SweepKeeps` | packages/core/src/queue/queue.service.ts:152-192 | A sweep loses no job: every product a failed job held is still held by it or by a job waiting; `StorefrontJobs.SweepExactly` says where that one starts |
| `StorefrontTermination.SmoothStepsDescend` | apps/scraper/src/storefront/storefront.processor.ts:266-386 | Taking a job, and every page, split or recovery step, strictly lowers the sum of (2*width - 1)*(K + 1) - pagesDone weights |
| `StorefrontTermination.SmoothRunsFinish` | apps/scraper/src/storefront/storefront.processor.ts:233-394 | Runs without throttles or failures are no longer than the planned weight, and one that cannot go on has an empty queue |
| `StorefrontTermination.StuckSmoothRunsAreComplete` | apps/scraper/src/storefront/storefront.processor.ts:233-394 | Such a run has then processed every product outside irreducibly dense milliseconds |
| `StorefrontProcessor.Processor.Plan` | apps/scraper/src/storefront/storefront.processor.ts:189-215 | Enqueues exactly one job per yearly bucket, in order, without cursor at depth zero, none without probed ends |
| `StorefrontProcessor.Processor.Bucket` | apps/scraper/src/storefront/storefront.processor.ts:233-394 | One attempt, by the fields: at the limit two half-range jobs without cursor one level deeper, or the recovery of a range of at most 1 ms; otherwise up to 250 products processed from the cursor on and the job continued at the next cursor if more follow; when throttled the same job again, and otherwise it throws with nothing enqueued; with the answer each case gives |
| `StorefrontProcessor.Processor.SweepFailedJobs` | packages/core/src/queue/queue.service.ts:144-192 | Of the first 1001 failed jobs exactly those that failed for a reason, no later than the cutoff and were swept less than five times leave the failed list; each adds, in order, its range and depth again from the first page with one more sweep, nothing else is added, and both counts are the numbers of such jobs and of those swept five times or more |
| `StorefrontProcessor.SweepWindow` | packages/core/src/queue/queue.service.ts:149-192 | The loop over failed jobs requeues, keeps and abandons as the recursive definitions do, which `StorefrontJobs.SweepExactly` reads off the jobs' fields |
| `StorefrontJobs.SweepExactly` | packages/core/src/queue/queue.service.ts:144-192 | For every state and cutoff the sweep divides the first 1001 failed jobs by reason, age and fewer than five sweeps; what it enqueues and keeps is said in the jobs' fields, and nothing else changes |
| `StorefrontJobs.AttemptExactly` | apps/scraper/src/storefront/storefront.processor.ts:266-394 | What an attempt does is said in the fields of its job and of the products created in its range, its end excluded, in catalogue order |
| `StorefrontJobs.MovesKeepJobs` | apps/scraper/src/storefront/storefront.processor.ts:233-394 | Starting, throttling, retrying and failing move one job from one list of the queue to another; every job is held as often as before |
| `ListingUpsert.ListingUpsertService.UpsertBatch` | apps/scraper/src/extraction/listing-upsert.service.ts:77-269 | Every listing ends as its last item has it. Every row of listing, condition and foil flag ends as the last variant of that listing and flag whose code has the condition's id, or has none while the condition is the unknown one; the rest stays, the items keep the merge, and the count is the number of distinct listings |
| `ListingUpsert.Dedupe` | apps/scraper/src/extraction/listing-upsert.service.ts:89-103 | The loop merges duplicates into the first item object in place and keeps first positions in order |
| `ListingUpsert.AppendVariants` | apps/scraper/src/extraction/listing-upsert.service.ts:197-222 | Writing over remembered offsets of the parallel arrays yields one row per (condition, foil), at its first position, with its last data |
| `ListingUpsert.CollapseKeepsLastRows` | apps/scraper/src/extraction/listing-upsert.service.ts:197-222 | The collapsed rows have distinct keys and, per key, the last data |
| `ListingUpsert.BatchRowsAreDistinct` | apps/scraper/src/extraction/listing-upsert.service.ts:193-223 | The variant statement never names a row twice, as ON CONFLICT DO UPDATE requires |
| `ListingUpsert.BatchEffect` | apps/scraper/src/extraction/listing-upsert.service.ts:89-262 | The two bulk statements over the surviving items amount to upserting every item in turn |
| `WrittenRows.UpsertExactly` | apps/scraper/src/extraction/listing-upsert.service.ts:77-269 | For every conditions map, tables and items: which variant ends in which row and which item in which listing, read off the map's own ids and the items' fields |
| `WrittenRows.KnownConditionsKeepApart` | apps/scraper/src/extraction/listing-upsert.service.ts:77-222 | Two variants of one listing whose known codes have different ids never write the same row, and both rows are there after the upsert |
| `WrittenRows.FlushExactly` | apps/scraper/src/extraction/batch-accumulator.service.ts:47-57 | After a flush the tables are the upserted ones, except that a row with a platform id is out of stock if some item's cleanup of its product does not list the id |
| `ListingUpsert.ListingUpsertService.DeleteStaleListings` | apps/scraper/src/extraction/listing-upsert.service.ts:283-323 | Exactly the rows of the product's listings whose platform id is present and not in the list go out of stock; nothing else changes |
| `ListingUpsert.ListingUpsertService.Flush` | apps/scraper/src/extraction/batch-accumulator.service.ts:47-57 | A successful flush is the upsert followed by every item's own cleanup in order |
| `ListingTables.MergingKeepsTheEffect` | apps/scraper/src/extraction/listing-upsert.service.ts:92-103 | The merged item values, applied one at a time, have the same effect as the original ones |
| `ListingTables.RetriedBatchesUpsertAlike` | apps/scraper/src/extraction/batch-accumulator.service.ts:43-80 | Through any sequence of failed attempts at prefixes of the buffer, each merging its items in place and having written nothing, the listings or everything, with newer items arriving in between, upserting the buffer gives the tables that upserting all items in arrival order would |
| `ListingTables.RetryAfterPartialWrite` | apps/scraper/src/extraction/batch-accumulator.service.ts:74-80 | A retry after the listings alone, or both tables, were already written changes nothing further |
| `RetriedFlushes.RetryAfterPartialCleanup` | apps/scraper/src/extraction/batch-accumulator.service.ts:46-80 | A batch that failed after any number of its cleanups and is flushed again, merged, ends exactly as one whole flush |
| `RetriedFlushes.RetriedBatchesFlushAlike` | apps/scraper/src/extraction/batch-accumulator.service.ts:43-80 | Through any sequence of failures of prefixes of the buffer, in the upsert or after any number of cleanups, with arrivals in between, flushing the buffer leaves exactly the tables of one flush of all items in arrival order |
| `ListingTables.SameEffectSameTables` | apps/scraper/src/extraction/listing-upsert.service.ts:86-269 | Item lists that agree on each listing's last data and each row's last variant leave every table the same |
| `StockFlags.StockAfterFlush` | apps/scraper/src/extraction/extraction.service.ts:166-199 | After the flush of any batch a row is the last extracted variant for it, or else what was there, and is in stock if and only if that was and every extraction of its product in the batch reported its platform id in stock (or it has none) |
| `StockFlags.LastFlagStaysExactly` | apps/scraper/src/extraction/extraction.service.ts:166-199 | A row ends as its last extracted variant if and only if that variant was out of stock, has no platform id, or every extraction of the product in the batch reported the id in stock |
| `StockFlags.CleaningIsExact` | apps/scraper/src/extraction/batch-accumulator.service.ts:49-57 | The cleanups of any items together clear exactly the rows one of them finds stale, and change nothing else |
| `StockFlags.DistinctProductsKeepFlags` | apps/scraper/src/extraction/extraction.service.ts:166-199 | If no product occurs twice in the batch every row keeps its last extracted flag, and another row of the listing with a platform id is in stock only if the id was reported |
| `StockFlags.RepeatedProductsCanLoseStock` | apps/scraper/src/extraction/listing-upsert.service.ts:193-263 | A batch with a product twice on which the condition fails: the row ends out of stock although its last extraction had it in stock |
| `StockFlags.BuildRows` | apps/scraper/src/extraction/extraction.service.ts:166-189 | The loop builds one row per variant in order and exactly the ids of in-stock variants that have one |
| `StockFlags.FlushShowsLastExtracted` | apps/scraper/src/extraction/extraction.service.ts:166-199 | After a flush the row of the last variant extracted for it has that variant's price and quantity, its platform id and sku or none if they are empty, and is in stock if and only if the variant was and every extraction of the product saw its platform id, if it has one, in stock |
| `BatchAccumulator.NothingIsDropped` | apps/scraper/src/extraction/batch-accumulator.service.ts:26-85 | Over all interleavings of adds, drains, flush successes and failures every added item is buffered, in flight or was upserted; at most 3 flights of at most 500 items |
| `BatchAccumulator.EveryStateIsGood` | apps/scraper/src/extraction/batch-accumulator.service.ts:38-85 | In every state passed each added item is in exactly one of buffer, flights and finished, activeFlushes is the number of flights, and each run's stored total is its number of items counted |
| `BatchAccumulator.CountedAtMostOnce` | apps/scraper/src/extraction/batch-accumulator.service.ts:59-69 | A stored increment covers only items never counted before, so no run's total passes its items added |
| `BatchAccumulator.DrainReturnsWithEverythingUpserted` | apps/scraper/src/extraction/batch-accumulator.service.ts:91-100 | When drain's loop ends every added item has been upserted and has finished exactly once |
| `BatchAccumulator.BatchAccumulatorService.AddMany` | apps/scraper/src/extraction/batch-accumulator.service.ts:26-32 | The items queue up behind the others; from 500 buffered items on the buffer is drained, below nothing else changes |
| `BatchAccumulator.BatchAccumulatorService.DrainBuffer` | apps/scraper/src/extraction/batch-accumulator.service.ts:38-85 | Flight j more holds items 500 j up to 500 j + 500 of the buffer, whose rest stays; none starts while three are active, and items stay behind only if three are |
| `BatchAccumulator.BatchAccumulatorService.RunCounts` | apps/scraper/src/extraction/batch-accumulator.service.ts:59-65 | The tally has exactly the batch's nonzero runs, each with its number of items |
| `BatchAccumulator.BatchAccumulatorService.OnFailure` | apps/scraper/src/extraction/batch-accumulator.service.ts:74-80 | The failed batch goes back to the front of the buffer |
| `RunCounters.DrainedTotalsAreComplete` | apps/scraper/src/extraction/batch-accumulator.service.ts:59-69 | In any interleaving in which no increment fails, once all is drained each run's stored total is the number of its items ever added, however often their flushes failed |
| `FlushOrder.NewestIsWrittenLast` | apps/scraper/src/extraction/batch-accumulator.service.ts:38-100 | Over any interleaving in which no two flushes that may still write ever hold items about the same thing (a listing, a row, a product), failed ones retried or not, once all is drained the newest such item was written last |
| `FlushDecisions.AlwaysLastExactly` | apps/scraper/src/extraction/batch-accumulator.service.ts:38-85 | From a reachable state, every way the flushes can go on without arrivals until all is drained leaves x the last item written about a thing if and only if all that may still be written about it is in x's own place, the buffer or one flight, and x comes last there and, once written, is the last written so far; for x sharing its place with all its rivals while more than 500 items wait, this is shown if a divisor of 500 divides the size of every place and no multiple of it falls between them |
| `FlushDecisions.BatchBoundaryUndecides` | apps/scraper/src/extraction/batch-accumulator.service.ts:38-46 | If the next batch takes something about it off the buffer but not x, some way the flushes can go on does not leave x the last item written |
| `FlushDecisions.UnsharedIsLastExactly` | apps/scraper/src/extraction/batch-accumulator.service.ts:38-85 | If x shares its place with no other item about the thing, that is so if and only if no other such item is buffered or in a flight whose upsert or cleanups are under way, and x is still to be written or is the last written so far |
| `FlushDecisions.UndecidedEnds` | apps/scraper/src/extraction/batch-accumulator.service.ts:38-85 | In every other state some continuation without arrivals ends drained with another item, or none, written last: flushes that finish in a bad order, or one that fails its cleanups and is written again |
| `FlushContinuations.Calmly` | apps/scraper/src/extraction/batch-accumulator.service.ts:38-85 | From every reachable state all can finish without failure, the flights first and then the buffer in order |
| `FlushContinuations.AllBut` | apps/scraper/src/extraction/batch-accumulator.service.ts:38-85 | From every state everything but one flight can finish while it waits |
| `FlushDecisions.OverlappingFlushesLeaveTheOlder` | apps/scraper/src/extraction/batch-accumulator.service.ts:38-85 | Without any failure two overlapping flushes can end drained with the older of two items written last |
| `FlushedTables.TablesFollowTheLog` | apps/scraper/src/extraction/batch-accumulator.service.ts:46-57 | Up to stock flags the tables after any trace, cleanups whole or cut off by a failure included, are those of upserting the written items one by one |
| `FlushedTables.DrainedListingIsNewest` | apps/scraper/src/extraction/batch-accumulator.service.ts:38-100 | Once drained, a listing that no two live flushes held at once shows its newest extraction |
| `FlushedTables.DrainedRowIsNewest` | apps/scraper/src/extraction/batch-accumulator.service.ts:38-100 | Once drained, a variant row that no two live flushes held at once shows, up to its stock flag, the newest extraction that has it |
| `FlushedTables.ListingShowsLastFlush` | apps/scraper/src/extraction/batch-accumulator.service.ts:38-85 | Whatever overlapped or failed, a listing shows the last item of the last successful flush that held it |
| `FlushedTables.RowShowsLastFlush` | apps/scraper/src/extraction/batch-accumulator.service.ts:38-85 | A variant row shows, up to its stock flag, the last item that has it of the last successful flush that did |
| `FlushedTables.DecidedListingShows` | apps/scraper/src/extraction/batch-accumulator.service.ts:38-100 | From a state in which the listing's last item is decided, whatever fails later, the drained listing is that item's |
| `FlushedTables.DecidedRowShows` | apps/scraper/src/extraction/batch-accumulator.service.ts:38-100 | And so is the drained variant row, up to its stock flag |
| `DrainedStock.DrainedFlagsFollowLastBatch` | apps/scraper/src/extraction/batch-accumulator.service.ts:46-57 | Once drained, if no two live flushes ever held items of the product, some successful flush of the trace wrote the newest extraction last among the product's items, no later one wrote any of the product, and the rows of that extraction's listing are as that flush left them: a row it names holds its last variant's data and is in stock if and only if that was and every extraction of the product in that flush reported its platform id; any other row is in stock only if they all did |
| `DrainedStock.DrainedFlagsAreNewest` | apps/scraper/src/extraction/extraction.service.ts:166-199 | Once drained, if the flushes never held two extractions of the product at once, the newest one alone decides: the rows it names keep its data and flags, and another row of the listing with a platform id is in stock only if it reported the id |
| `ListRefresh.Request` | apps/api/src/v1/lists/list-refresh.service.ts:73-102 | Each listing is backed by the last row that names it. The snapshot has one item for every variant of every listing, in order, with its id and price, the listing's title and card key, and a store and product, the listing's and its backing row's, exactly if the listing is a storefront's and is backed; targets and total follow |
| `ListRefresh.ProductsByListing` | apps/api/src/v1/lists/list-refresh.service.ts:73-78 | Each listing is backed by the last row that names it directly or through its store and URL |
| `ListRefresh.Group` | apps/api/src/v1/lists/list-refresh.service.ts:85-95 | The nested maps hold the supported listings, each under its store and product, nothing else, and no store or product twice |
| `ListRefresh.CardKeysIdentify` | apps/api/src/v1/lists/list-refresh.service.ts:79-84 | Listings of known cards share a card key exactly with each other, the rest by lower-cased title, and the two kinds never share one |
| `ListRefresh.TotalCountsPairs` | apps/api/src/v1/lists/list-refresh.service.ts:96 | The progress denominator counts each store's products once |
| `ListRefresh.SnapshotIdsDistinct` | apps/api/src/v1/lists/list-refresh.service.ts:79-84 | Snapshot ids are distinct when variant ids are |
| `ListRefresh.TargetsCoverSnapshot` | apps/api/src/v1/lists/list-refresh.service.ts:79-95 | A snapshot item has a store exactly when it has a product, and then its pair is a target |
| `ListRefresh.SnapshotExactly` | apps/api/src/v1/lists/list-refresh.service.ts:79-84 | For all listings and backing rows the snapshot has as many items as the listings have variants, each at its listing's offset and with the fields its own listing, variant and backing row give it |
| `CartRefresh.OrderDoesNotMatter` | apps/scraper/src/storefront/storefront.processor.ts:618-680 | For fixed replies every interleaving of lookups and batch stages ends with the same outcome map, whose keys are the snapshot's ids |
| `CartRefresh.EveryItemHasItsBatch` | apps/scraper/src/storefront/storefront.processor.ts:633-639 | For a requested job each supported item lies in exactly one batch, and batches hold 1 to 250 products |
| `CartRefresh.UnavailableNeedsAFetch` | apps/scraper/src/storefront/storefront.processor.ts:640-664 | In every state passed, an unavailable verdict rests on the item's own batch having fetched successfully without the product, or having read its row absent or out of stock |
| `CartRefresh.FinishedVerdicts` | apps/scraper/src/storefront/storefront.processor.ts:618-679 | In a finished run the item whose product is number p of its store's target carries its own fields, and a verdict, price and message that follow, as if-and-only-if clauses, from what the store lookup and batch p / 250 were answered |
| `CartRefresh.UntargetedVerdicts` | apps/scraper/src/storefront/storefront.processor.ts:618-621 | An item of no target ends as it began, with its own fields: unsupported if it lacks a store or a product, else unconfirmed |
| `CartRefresh.StepKeepsInv` | apps/scraper/src/storefront/storefront.processor.ts:626-680 | After every step each entry is the value its own target's and batch's progress determines |
| `RefreshRuns.RunsAreBounded` | apps/scraper/src/storefront/storefront.processor.ts:626-680 | Whatever is answered, a run takes at most one step for each target and four for each of its batches of 250 |
| `RefreshRuns.StuckMeansFinished` | apps/scraper/src/storefront/storefront.processor.ts:626-680 | A run can go on exactly until it is finished, so every run ends in a finished state |
| `CartRefresh.RefreshRun.Record` | apps/scraper/src/storefront/storefront.processor.ts:648-670 | The loop over the snapshot writes exactly the marked items' entries |
| `CartRefresh.RefreshRun.ReportProgress` | apps/scraper/src/storefront/storefront.processor.ts:600-616 | Publishes rising multiples of five up to 95, one per boundary |
| `CartRefresh.Percent` | apps/scraper/src/storefront/storefront.processor.ts:602-605 | The published percentage is a multiple of five, never ahead of the completed share and less than five behind it, up to 95 |
| `WorkerPool.ResolvedPoolsMap` | apps/api/src/v1/lists/delivery-quote.service.ts:97-101 | A pool that resolves returns the answers in input order with nothing missing if and only if max is at least 1 or the input is empty; otherwise an empty array |
| `WorkerPool.EachIndexClaimedOnce` | apps/api/src/v1/lists/delivery-quote.service.ts:99 | In every interleaving, failing calls included, each index is claimed once, in order, by one worker; there are max workers, but no more than values and none for a negative max, and at most as many calls run at once |
| `WorkerPool.RunsAreBounded` | apps/api/src/v1/lists/delivery-quote.service.ts:99 | A run takes at most two steps per value and one per worker |
| `WorkerPool.StuckMeansOver` | apps/api/src/v1/lists/delivery-quote.service.ts:99-100 | A pool can go on exactly while some worker has neither left its loop nor failed |
| `WorkerPool.SharedPool.TakeTurn` | apps/api/src/v1/lists/delivery-quote.service.ts:99 | The loop head claims the next index or stops |
| `RateLimiter.AtMostTwiceTheLimit` | apps/api/src/v1/checkout/checkout-rate-limiter.service.ts:47-73 | For every history of calls on a key, any interval of the window's length sees at most 2 * limit - 1 calls let through, wherever it starts |
| `RateLimiter.TheBoundIsReached` | apps/api/src/v1/checkout/checkout-rate-limiter.service.ts:47-73 | For every limit of at least 1 a history of calls reaches that bound |
| `RateLimiter.FirstOfEachWindow` | apps/api/src/v1/checkout/checkout-rate-limiter.service.ts:52-72 | A call is let through exactly when it is among the first limit calls of its window |
| `RateLimiter.CounterCountsTheWindow` | apps/api/src/v1/checkout/checkout-rate-limiter.service.ts:52-57 | The stored counter is the number of calls since the window's start and expires one window later |
| `RateLimiter.EmptyWindowsNeverLimit` | apps/api/src/v1/checkout/checkout-rate-limiter.service.ts:53-57 | With a window that is not positive every call counts as a first one |
| `RateLimiter.CheckoutRateLimiterService.Check` | apps/api/src/v1/checkout/checkout-rate-limiter.service.ts:47-73 | One call changes its own key only, and decides allowance, remaining count and retry delay from the new count |
| `ScrapeWaiters.ResolvedAtMostOnce` | packages/core/src/cache/cache.service.ts:485-555 | In every interleaving of joins, notifications, awaited reads, timeouts, cleanups and connection loss a promise is resolved at most once |
| `ScrapeWaiters.CompletionMeansEveryStore` | packages/core/src/cache/cache.service.ts:190-200 | The completion callback resolves a waiter only when every store it asked for has an entry in the shared results, and keeps it |
| `ScrapeWaiters.WaitingMeansOutstanding` | packages/core/src/cache/cache.service.ts:508-527 | A waiter still waiting has its callback in its subscription and some store outstanding there |
| `ScrapeWaiters.TimerEndsTheWait` | packages/core/src/cache/cache.service.ts:530-555 | A waiter whose timer fires leaves the object in the map, and its promise then resolves once, as expired |
| `ScrapeWaiters.StrandedUntilItsTimer` | packages/core/src/cache/cache.service.ts:561-568 | Once a waiter's subscription has left the map with no read under way, nothing but its own timer ends the wait |
| `ScrapeWaiters.StrandedExactly` | packages/core/src/cache/cache.service.ts:188-208 | After any step exactly those waiting are stranded that were and whose timer did not fire, or whose object a finished cleanup removes with no read of it under way, or whose removed object's last read under way leaves stores outstanding |
| `ScrapeWaiters.SafeJoinersStayAttached` | packages/core/src/cache/cache.service.ts:490-555 | A waiter on the object in the map with no cleanup pending stays so, and is never stranded, until it stops waiting, as long as no subscribe fails and no older object has its last read |
| `ScrapeWaiters.SafeExactly` | packages/core/src/cache/cache.service.ts:188-208 | For such a waiter, while it waits, exactly a failed subscribe or the last read of an older object ends that safety |
| `ScrapeWaiters.FailedSubscribeStrands` | packages/core/src/cache/cache.service.ts:508-520 | It happens: a failed subscribe |
| `ScrapeWaiters.OlderReadStrands` | packages/core/src/cache/cache.service.ts:188-208 | It happens: a read that outlived a lost connection starts a cleanup that removes the next subscription |
| `ScrapeWaiters.JoiningDuringCleanupStrands` | packages/core/src/cache/cache.service.ts:490-527 | It happens: joining while the previous round's cleanup is under way |
| `ScrapeWaiters.CacheService.WaitForStores` | packages/core/src/cache/cache.service.ts:469-527 | Joins or creates the pattern's subscription with the lower-cased stores and registers the callback |
| `ScrapeWaiters.CacheService.AfterRead` | packages/core/src/cache/cache.service.ts:188-208 | Records the entry and, when no store is outstanding, resolves every waiting callback and starts a cleanup |
| `ScrapeWaiters.CacheService.OnTimer` | packages/core/src/cache/cache.service.ts:530-555 | Marks the waiter, removes its callback from the current subscription and cleans up an empty one |
| `IdentityGuarantees.PrincipalsHaveOneRole` | apps/auth/src/auth/oauth-sign-in.service.ts:58-152 | In every history a live or merely unrevoked anonymous session belongs to an anonymous principal nobody owns; every user has its own registered principal; only anonymous principals expire |
| `IdentityGuarantees.NamesAreUnique` | apps/auth/src/auth/user-auth.service.ts:75-155 | In every history normalized e-mails and Google subjects are unique, and a primary e-mail is its user's own |
| `IdentityGuarantees.QuotasAreExact` | apps/auth/src/auth/auth-session.service.ts:290-320 | In every history each (network, day) quota equals the anonymous principals created under it and never exceeds the limit; a creation is refused for it exactly at the limit |
| `IdentityGuarantees.SignupPromotes` | apps/auth/src/auth/user-auth.service.ts:75-155 | A sign-up on a live anonymous session keeps that session's principal and spends the session; it is refused for a taken e-mail exactly when the e-mail exists |
| `IdentityGuarantees.GooglePromotes` | apps/auth/src/auth/oauth-sign-in.service.ts:166-226 | A Google sign-in that creates a user promotes the same way |
| `IdentityGuarantees.LinkingNeedsAuthority` | apps/auth/src/auth/oauth-sign-in.service.ts:67-149 | A sign-in opens one session for the user the subject stands for; a new subject reaches an existing user only through an authoritative address that is that user's own |
| `IdentityGuarantees.HistoryGrows` | apps/auth/src/auth/oauth-sign-in.service.ts:58-152 | Over any stretch of a history users keep their principal, registered principals stay registered, and revocations and disabling are permanent |
| `IdentityGuarantees.SpentTokensStaySpent` | apps/auth/src/auth/oauth-sign-in.service.ts:184-190 | A revoked anonymous token never again finds a session |
| `IdentityGuarantees.DisabledUsersStayOut` | apps/auth/src/auth/oauth-sign-in.service.ts:130-132 | No operation opens a session for a disabled user, nor refreshes one |
| `IdentityGuarantees.RefreshAnswersItsUser` | apps/auth/src/auth/auth-session.service.ts:154-198 | A refresh answers a user if and only if the token opens that user's unrevoked, unexpired session and the user is enabled |
| `IdentityGuarantees.LoginOpensItsUser` | apps/auth/src/auth/user-auth.service.ts:162-211 | A login succeeds if and only if the e-mail belongs to an enabled user with a password and the password is right, and then opens one session, for that user |
| `IdentityGuarantees.LoggedOutTokensStayOut` | apps/auth/src/auth/user-auth.service.ts:225-239 | After a logout its token refreshes nothing in any later state |
| `Identity.StepKeepsInv` | apps/auth/src/auth/oauth-sign-in.service.ts:58-152 | Every transaction, committed or rolled back, and every session operation keeps the identity invariant |
| `IdentityService.AuthService.CreateAnonymousPrincipal` | apps/auth/src/auth/auth-session.service.ts:219-320 | Bumps the quota first; adds an anonymous principal of that network and day and its session with the same expiry, unless the quota is used up or the token hash is taken, and then leaves all tables, the quota too, as they were |
| `IdentityService.AuthService.SignUp` | apps/auth/src/auth/user-auth.service.ts:50-155 | A committed sign-up adds one enabled user with the trimmed name, one unverified e-mail that is its primary one, normalised from the address given, its password and one session, and takes the anonymous session's principal or adds one; every other row stays. It is refused for a known address and undone by a used token hash, and then changes nothing |
| `IdentityService.AuthService.GoogleSignIn` | apps/auth/src/auth/oauth-sign-in.service.ts:41-152 | Which user a profile signs in, what the tables then hold row by row, and which error each refusal gives, after which nothing has changed; including a disabled account, refused after its user was resolved |
| `IdentityService.AuthService.LogIn` | apps/auth/src/auth/user-auth.service.ts:162-211 | Opens one session for the user of the address's first row if it is enabled, has a password and it was right, and changes nothing otherwise |
| `IdentityService.AuthService.LogOut` | apps/auth/src/auth/user-auth.service.ts:225-239 | Revokes exactly the first unrevoked session the token opens, expired or not, and changes nothing else |
| `IdentityService.AuthService.RefreshUserSession` | apps/auth/src/auth/auth-session.service.ts:154-198 | Answers the session's user, or revokes the session of a disabled user |
| `IdentityEffects.SignupExactly` | apps/auth/src/auth/user-auth.service.ts:75-155 | For all linked tables: a sign-up is refused exactly for an address some row has, undone exactly by a token hash some session has, and otherwise leaves the rows said above |
| `IdentityEffects.SignedUpCanLogIn` | apps/auth/src/auth/user-auth.service.ts:112-211 | From the tables a committed sign-up leaves, a log-in with the same address, the right password and an unused token commits and opens a session for the new user, whose stored password is the one given |
| `IdentityEffects.LoginExactly` | apps/auth/src/auth/user-auth.service.ts:162-211 | For all linked tables a log-in's answer and the one session it opens follow from the address's first row, its user and its password |
| `IdentityEffects.GoogleExactly` | apps/auth/src/auth/oauth-sign-in.service.ts:41-226 | For all linked tables and profiles: an unverified address is refused; else the user of the subject's account signs in, else the user of an authoritative address, else a new user named after the profile; with the account, name, principal, e-mail and session rows each case leaves |
| `IdentityEffects.RefreshExactly` | apps/auth/src/auth/auth-session.service.ts:154-198 | A refresh answers the user of the first unrevoked, unexpired session the token opens and changes nothing, or for a disabled user revokes that session; without one it does neither |
| `IdentityEffects.NormalizeExactly` | apps/auth/src/auth/email.utils.ts:1-2 | A normalised address is the part between the blanks around it, character by character in lower case |
| `PrintingMatcher.FastPathAgrees` | apps/scraper/src/extraction/printing-matcher.service.ts:190-264 | The set-and-number fast path returns the printing, card and labels the name-based resolver would; only the confidence differs, exactly on a hit for a fuzzy name |
| `PrintingMatcher.PrintingBelongsToCard` | apps/scraper/src/extraction/printing-matcher.service.ts:195-264 | Any printing returned belongs to the returned card |
| `PrintingMatcher.AmbiguousExactly` | apps/scraper/src/extraction/printing-matcher.service.ts:361-369 | The answer is ambiguous if and only if the name resolves, the set is known, no printing of the card has that number there, and at least two of its printings are there |
| `PrintingMatcher.ResolverDecides` | apps/scraper/src/extraction/printing-matcher.service.ts:340-376 | Two sorted rows suffice: each kind of answer is exactly its condition on all of the card's printings |
| `PrintingMatcher.ResolvedPrinting` | apps/scraper/src/extraction/printing-matcher.service.ts:340-376 | The printing chosen precedes all of the card's in (priority, id) |
| `PrintingMatcher.NumbersNormalizeOnce` | apps/scraper/src/extraction/printing-matcher.service.ts:173-176 | A collector number in use loses exactly its leading zeros, except for zero itself, and normalizing twice changes nothing |
| `PrintingMatcher.CacheIsTransparent` | apps/scraper/src/extraction/printing-matcher.service.ts:430-456 | A coherent cache never changes a set-and-number lookup when no set code or number holds the separator |
| `PrintingMatcher.CacheIsTransparentExactly` | apps/scraper/src/extraction/printing-matcher.service.ts:430-456 | Over tables with their keys, every lookup a coherent cache can answer agrees with the table if and only if no set code or number holds the separator |
| `PrintingMatcher.ColonsConfuseTheCache` | apps/scraper/src/extraction/printing-matcher.service.ts:434 | Any row with the separator in its set code or number gives a cache and a second set and number it answers wrongly |
| `PrintingMatcher.PrintingMatcherService.Match` | apps/scraper/src/extraction/printing-matcher.service.ts:161-264 | Whatever the caches hold, the answer is the uncached one, and the caches stay coherent |
| `PrintingMatcher.PrintingMatcherService.WarmNames` | apps/scraper/src/extraction/printing-matcher.service.ts:496-505 | Warming adds only what a lookup would have found |
| `MatchAnswers.MatchExactly` | apps/scraper/src/extraction/printing-matcher.service.ts:161-264 | Every field of an answer, from the name, set code and number used: which printing it is, or none, by the card's printings at that set and number, in that set, or at all; how it was found; and how sure it is |
| `MatchAnswers.NameExactly` | apps/scraper/src/extraction/printing-matcher.service.ts:270-324 | A name resolves to its own row, else to what the front-face search finds, else to what the trigram search finds, else to nothing, and is labelled so |
| `CopyText.CopyRoundTrip` | apps/api/src/database/seed-scryfall.ts:192-201 | Reading the printed text under PostgreSQL's COPY text format gives back exactly the rows with at least one field, NULL apart from every string |
| `CopyText.ChainIsOnePass` | apps/api/src/database/seed-scryfall.ts:95-99 | The chained replacements equal one character-by-character escape |
| `CopyText.EscapedFieldIsSafe` | apps/api/src/database/seed-scryfall.ts:93-100 | No escaped field holds a raw tab, newline or carriage return, and only NULL prints as backslash N |
| `CopyText.RowRoundTrip` | apps/api/src/database/seed-scryfall.ts:192-201 | One printed row is read back whole and reading stops at its newline |
| `CopyText.PrintIsInjective` | apps/api/src/database/seed-scryfall.ts:192-201 | No two lists of rows print alike |

## Left out

- Network, storage and queue internals (Shopify, Scryfall, Google, Redis, BullMQ, TypeORM): oracles, atomic steps and tables stand for them.
- Cryptography, JWTs, cookies and CSRF: tokens are their hashes, and only what reaches the identity tables is modelled.
- React applications, controllers, DTOs, migrations, health checks, cron wiring, price statistics and pagination: wiring or one-branch logic.
- Token listings, token batches and unmatched cards: near copies of the modelled upsert and accumulator.
- Optimizer inputs: parsing of raw condition strings and `bestRejectedOffer` are not modelled.
- CandidatePruning.PruningKeepsTheOptimum: prices are non-negative and positions colon-free, as stored; up to 32 stores and without negative shipping, which `OrderedPruning` does not need.
- FlushDecisions.AlwaysLastExactly: leaves open part of the case that x shares its place with all its rivals while more than 500 items wait: proved safe if the sizes of all places have a common divisor with 500 whose multiples keep clear of them, and unsafe if the next batch ends between them; in between it depends on the order in which up to three flights fail and are cut anew.
- FlushedTables.DrainedRowIsNewest: in the accumulator's traces a failed upsert writes nothing and items are written as extracted; `ListingTables` and `RetriedFlushes` prove partial writes and in-place merging harmless for a buffer that is retried.
- Deadline and optimality: nothing is claimed about how good a search cut short by the deadline is beyond being the best of the masks it evaluated.
- Discovery timing: delays, jitter, priorities, retry backoff, the eviction of old failed jobs and failures of plan jobs before their first enqueue.
- What processing a page does to listings is not part of the discovery run; the write pipeline is modelled by itself.
- ListingUpsert.ListingUpsertService.UpsertBatch: `RETURNING` rows are taken to come back in input order, and timestamps are not modelled.
- ListRefresh.Request: ownership, size and cooldown checks, the basic-land filter and the join that selects product rows are left to the caller.
- CartRefresh.OrderDoesNotMatter: progress writes are taken to succeed; a failing one rejects the whole job, which then returns no outcomes at all.
- ScrapeWaiters.CacheService.WaitForStores: the channel's regular expression is not modelled, so a store name holding a colon is treated like any other.
- RateLimiter.AtMostTwiceTheLimit: INCR and its EXPIRE are one step, as the source's own comment concedes they are not.
- Identity timestamps such as `lastSeenAt`, address books, roles and display data of Google accounts are not modelled.
- Identity operations are atomic steps; interleavings inside a transaction are left to the database's unique constraints.
- PrintingMatcher.PrintingMatcherService.Match: title cleaning, LIKE and trigram search are arbitrary functions of the name, and the set-name lookup is a given answer, since its cached label depends on earlier queries.
- Card data changes while the matcher's caches are warm: the tables are fixed.
- CopyText.CopyRoundTrip: octal and hexadecimal escapes are not read, since the printer writes none; NUL characters and encodings are not modelled.
- The seeder's streaming, staging tables and upserts.
