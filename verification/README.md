# Verified model of the fleet rule layer

The application manages vehicle fleets: odometer readings, maintenance plans, documents with an end of
validity, fuel purchases, expenses, immobilizations and transfers between companies. Its rules are functions
without I/O: instants, dates, decimals and records go in, a decision or an aggregate comes out. This project
models those rules in Dafny, together with four neighbours that carry a protocol, an inverse or a round trip,
and proves what they are for.

One module per source file or component:

| module | what it models |
|---|---|
| `Idempotency` | the idempotency protocol: any number of concurrent `run` calls and purges over one table with a unique key, every database call one atomic step |
| `BodyFingerprint` | the canonical form of a request body (sorted keys, undefined members dropped) and the JSON text it is printed as, which is what is hashed, against a reader of JSON by RFC 8259 |
| `IntervalUnion`, `Immobilization` | clip, sort, merge and total of intervals, and the durations of an immobilization |
| `PeriodDistance`, `Ownership` | distance of a period from accepted readings, and the parts of a period each company owned |
| `Timeline` | the windowed merge of several sorted sources into one page of the vehicle history |
| `Consumption`, `ConsumptionMeaning` | the scan of fuel purchases into full-tank intervals, their exclusion reasons and the totals per energy, and what the result says, read off the purchases themselves |
| `Odometer` | the evaluation of a reading against its accepted neighbours, and every run of submissions |
| `Calendar`, `CivilText`, `ZonedTime`, `MonthGrid` | the Gregorian calendar of section 5.7 and Appendix C of RFC 3339, dates as text, wall-clock times in a zone, and the month grid of due items |
| `Maintenance`, `DocumentStatus` | due points and status of maintenance plans, status and alert severity of documents |
| `Csv` | the CSV printer with formula protection, against a reader of section 2 of RFC 4180 with separator `;` |
| `Ledger` | the expense ledger: buckets updated row by row |
| `Sorting`, `Wrappers` | the library sort as a stable insertion sort with its laws, and `Option` |

Conventions. Instants are integer milliseconds, half-open point sets stand for intervals. Civil dates are
(year, month, day) with a proved one-to-one day number; `CivilText` proves that the texts of four-digit years
compare as the dates do. Litres, kilometres and money are exact (`real`). A comparator is the relation "may
stand before". Where the program loops over mutable state the model is a method with a loop (or, for ledger
buckets, a class), proved equal to a specification function about which the lemmas speak. Sorting a fresh copy
is the function `Sort`.

## Where the program does less than it says

The model follows the code; each point below is a lemma.

- The work of a key may be done twice, but only when the recording update of a request of that key fails after its
  work, or when a purge removes a row of that key: the row of a request still running after 24 hours, or of one
  that is done (`Idempotency.AtMostOneWork`, `Idempotency.FailedUpdateRepeatsWork`, `Idempotency.PurgeRepeatsWork`).
- A failed work frees its key unless its own delete fails, which the program swallows (line 104 of
  apps/api/src/common/idempotency.service.ts): the row then stays in progress and every call with the same body is
  told that the work goes on, until the purge (`Idempotency.FailureFreesKey`, `Idempotency.LeftRowBlocks`,
  `Idempotency.FailedDeleteBlocksKey`).
- The most recent operation depends on the order of entry, and the query of
  apps/api/src/modules/maintenance/maintenance-plans.service.ts has no ORDER BY (lines 387-391). Operations are
  dated, only a declared base may lack a date: with such a base the order is irrelevant exactly when no operation
  has more kilometres than the base or the latest operation has (`Maintenance.BaseOrderIff`,
  `Maintenance.OperationOrderIff`, and for any points `Maintenance.EntryOrderIrrelevant`); a base at 50 km with 100
  km in January and 40 km in February is a case where it decides (`Maintenance.UndatedBaseIsOrdered`).
- An initial due date is given up for the first operation that counts. The due date then moves back exactly when
  that operation leads to an earlier one; afterwards it never does (`Maintenance.AddingNeverMovesBack`,
  `Maintenance.InitialDueIsReplaced`).
- The month grid never ends for the month 0100-01, and is empty for the years 0 to 99 and for 9999-12
  (`MonthGrid.StuckInJanuary100`, `MonthGrid.BuildMonthGrid`), because `Date.UTC` reads the years 0 to 99 as
  1900 to 1999 and "10000-01-01" comes before "9999-11-29" as a text. For every other month it is complete.

## Model

| member | source | states |
|---|---|---|
| `Idempotency.InvStep` | apps/api/src/common/idempotency.service.ts:56-113 | every database step of every request, and the purge, keeps the protocol invariant: unique keys, rows owned by their creator and agreeing with its outcome, live requests keeping their row until it expires |
| `Idempotency.InvRun` | apps/api/src/common/idempotency.service.ts:56-113 | the invariant holds after every interleaving of any number of requests and purges |
| `Idempotency.OnlyOwnerChanges` | apps/api/src/common/idempotency.service.ts:92-113 | in no step does a request change or remove a row another request created; the purge removes expired rows only |
| `Idempotency.AnswersStay` | apps/api/src/common/idempotency.service.ts:56-107 | over every run an answer once given, the scope and the body hash of a request never change |
| `Idempotency.ReplayIsRecorded` | apps/api/src/common/idempotency.service.ts:72-86 | whatever is replayed is exactly the status and body some other request with the same key and body hash received from its own successful work |
| `Idempotency.AnswerIsOwnWork` | apps/api/src/common/idempotency.service.ts:88-101 | after every run a request that answers with a result of its own answers with the status and body its work returned in that run, and its row, as long as it is there, holds that status, body and resource |
| `Idempotency.ReplayIsWork` | apps/api/src/common/idempotency.service.ts:72-86 | after every run, what a request replays is the status and body the work of another request of the same key and body returned in that run |
| `Idempotency.NothingElseFails` | apps/api/src/common/idempotency.service.ts:56-107 | without a purge a request that met no conflict, whose insertion and update did not fail and whose work did not throw answers, once through, with what its work returned |
| `Idempotency.AtMostOneWork` | apps/api/src/common/idempotency.service.ts:56-107 | in every run in which no update of a key fails and no row of that key is purged, two requests of the key whose work succeeded are the same request |
| `Idempotency.QuietRunsAreUndisturbed` | apps/api/src/common/idempotency.service.ts:56-107 | runs without purge and without failing update are such runs, for every key |
| `Idempotency.RecordedResultsApart` | apps/api/src/common/idempotency.service.ts:61-113 | with purges and failures allowed, of two recorded results of one key the row of the later was inserted more than 24 hours after the request of the earlier began |
| `Idempotency.RetentionAnswers` | apps/api/src/common/idempotency.service.ts:71-86 | until 24 hours after the request of a recorded result began, every new call meets the conflict, gets the recorded answer for the same body and is refused for another |
| `Idempotency.FindAnswers` | apps/api/src/common/idempotency.service.ts:72-85 | what a conflicting request reads has one possible answer; it fails only if the key was freed in between, and never counts as fresh |
| `Idempotency.FindMeans` | apps/api/src/common/idempotency.service.ts:72-86 | a conflicting call is told by the row of its key: another body, in progress, or exactly the recorded status and body; without a row it fails |
| `Idempotency.CreateMeans` | apps/api/src/common/idempotency.service.ts:61-71 | an insertion conflicts exactly when a row has the same key, and else adds one row in progress that expires 24 hours after the clock was read |
| `Idempotency.PurgeMeans` | apps/api/src/common/idempotency.service.ts:109-113 | a purge leaves exactly the rows of requests that began at most 24 hours before it, unchanged |
| `Idempotency.FailureFreesKey` | apps/api/src/common/idempotency.service.ts:88-106 | after every run the row of a failed request remains only if its own delete failed, and without purge exactly then; every other row belongs to a request that has not failed |
| `Idempotency.LeftRowBlocks` | apps/api/src/common/idempotency.service.ts:72-86 | while the row of a failed request remains, every call of its key is refused: work in progress for the same body, another body otherwise |
| `Idempotency.FailedDeleteBlocksKey` | apps/api/src/common/idempotency.service.ts:102-106 | a concrete run without purge in which a failed delete leaves the key blocked for the next call |
| `Idempotency.FailedUpdateRepeatsWork` | apps/api/src/common/idempotency.service.ts:90-106 | a concrete run without purge in which the work of one key succeeds twice because the recording update failed |
| `Idempotency.PurgeRepeatsWork` | apps/api/src/common/idempotency.service.ts:109-113 | a concrete run with successful updates in which the work of one key succeeds twice because of a purge |
| `BodyFingerprint.SameTextIffSameMeaning` | apps/api/src/common/idempotency.service.ts:116-130 | the texts that are hashed are the same exactly when the bodies mean the same: key order and undefined members never matter, a date is its text, an undefined array item is null, and nothing else is confused |
| `BodyFingerprint.StringifyUnique` | apps/api/src/common/idempotency.service.ts:117-119 | the printed text has one reading: two values followed by any rest that print alike are equal, with equal rests |
| `BodyFingerprint.StringifyReads` | apps/api/src/common/idempotency.service.ts:117-119 | a printed value is JSON: a reader by RFC 8259 reads it back and leaves what follows it |
| `BodyFingerprint.TextMeansBody` | apps/api/src/common/idempotency.service.ts:116-130 | the text that is hashed is read as a value that means what the body means as JSON |
| `BodyFingerprint.PlainOfSortKeys` | apps/api/src/common/idempotency.service.ts:117-130 | what printing makes of dates and undefined values is the same before and after sorting the keys |
| `BodyFingerprint.SameFormIffSameMeaning` | apps/api/src/common/idempotency.service.ts:116-130 | two bodies have the same canonical form exactly when they mean the same, as nested maps without undefined members |
| `BodyFingerprint.SortKeysKeepsMeaning` | apps/api/src/common/idempotency.service.ts:121-130 | the canonical form means what the body means, at every depth |
| `BodyFingerprint.SortKeysIsCanonical` | apps/api/src/common/idempotency.service.ts:121-130 | in the canonical form keys ascend strictly and no member is undefined, at every depth |
| `BodyFingerprint.CanonicalUnique` | apps/api/src/common/idempotency.service.ts:121-130 | two canonical values with one meaning are equal |
| `IntervalUnion.UnionWithinPeriod` | apps/api/src/domain/interval-union.ts:30-54 | the loops return sorted, non-empty, strictly separated intervals whose points are exactly those of the period covered by some input (open ones up to the earlier of now and the end), their total is the number of those points, and each is marked ongoing exactly when an open input lies in it |
| `IntervalUnion.UnionOfIsUnion` | apps/api/src/domain/interval-union.ts:30-54 | the specification the loops compute is such a union for every input |
| `IntervalUnion.MergeAllSeparates` | apps/api/src/domain/interval-union.ts:42-51 | merging sorted intervals keeps exactly their points and leaves gaps between the results |
| `IntervalUnion.MergeAllFlags` | apps/api/src/domain/interval-union.ts:47-47 | a merged interval is ongoing exactly when one of the intervals merged into it is |
| `IntervalUnion.TotalCounts` | apps/api/src/domain/interval-union.ts:52-52 | the summed lengths are the number of points covered |
| `IntervalUnion.SeparatedUnique` | apps/api/src/domain/interval-union.ts:42-51 | separated intervals with the same points are the same intervals |
| `IntervalUnion.UnionUnique` | apps/api/src/domain/interval-union.ts:30-54 | the stated properties leave exactly one possible result, whatever the order of the input |
| `IntervalUnion.PermutationInvariant` | apps/api/src/domain/interval-union.ts:30-54 | the whole result is unchanged by any permutation of the input |
| `IntervalUnion.AdditiveOverPeriods` | apps/api/src/domain/interval-union.ts:30-54 | the total of a period is the sum of the totals of its two parts, wherever it is cut |
| `IntervalUnion.BoundedByPeriod` | apps/api/src/domain/interval-union.ts:30-54 | the total is never negative and never exceeds the period |
| `Immobilization.NothingClipped` | apps/api/src/domain/immobilization-duration.ts:59-62 | the computed enclosing period clips nothing: the union holds exactly the points of the causes, or of the fallback |
| `Immobilization.TotalIsAllPoints` | apps/api/src/domain/immobilization-duration.ts:59-69 | the total counts each moment once, however many causes overlap there |
| `Immobilization.SumAgainstPoints` | apps/api/src/domain/immobilization-duration.ts:63-68 | the sum of the causes is at least the total, and larger exactly when two causes share a moment |
| `Immobilization.OverlapIffTogether` | apps/api/src/domain/immobilization-duration.ts:67-68 | overlap is reported exactly when two causes, open ones ending now, share a positive duration |
| `Immobilization.TotalBetweenLongestAndSum` | apps/api/src/domain/immobilization-duration.ts:59-69 | longest cause <= total <= sum of causes |
| `Immobilization.OwnDurationsMean` | apps/api/src/domain/immobilization-duration.ts:63-66 | each cause is listed in its place with the number of its instants, and runs on exactly when it has no end |
| `Immobilization.OngoingMeans` | apps/api/src/domain/immobilization-duration.ts:59-69 | the immobilization runs on exactly when a cause without end began before now |
| `Immobilization.FallbackMeans` | apps/api/src/domain/immobilization-duration.ts:51-62 | without causes the duration is that of the immobilization itself, and without that it is nothing |
| `Timeline.WindowPrefix` | apps/api/src/domain/vehicle-timeline.ts:103-122 | for any number of sorted sources, the first n entries of the merge of their first n entries are the first n of the full merge |
| `Timeline.WindowedPageIsExact` | apps/api/src/domain/vehicle-timeline.ts:107-122 | reading only the source window of each source gives the same page as reading everything |
| `Timeline.PagesArePrefix` | apps/api/src/domain/vehicle-timeline.ts:107-117 | the first pages, one after the other, are a prefix of the whole sorted timeline |
| `Timeline.PagesCoverTimeline` | apps/api/src/domain/vehicle-timeline.ts:107-117 | enough pages give the whole sorted timeline, nothing lost or repeated |
| `Timeline.PageIsCut` | apps/api/src/domain/vehicle-timeline.ts:107-117 | a page holds the entries at its places in the sorted timeline and no others, and may be short or empty at the end |
| `Timeline.PageIsOrdered` | apps/api/src/domain/vehicle-timeline.ts:91-117 | on an ascending page entries go up by instant, then rank, then identifier, and on a descending page they go down |
| `Timeline.OrderedByKeys` | apps/api/src/domain/vehicle-timeline.ts:91-101 | an ordered timeline is determined by what it holds under each key |
| `Timeline.DescReversesAsc` | apps/api/src/domain/vehicle-timeline.ts:86-101 | "desc" is the exact reverse of "asc" if and only if entries sharing a key read the same in both directions |
| `Timeline.DistinctKeysReverse` | apps/api/src/domain/vehicle-timeline.ts:86-101 | on distinct keys "desc" is the exact reverse of "asc" |
| `Timeline.SourcesHaveDistinctKeys` | apps/api/src/modules/audit/vehicle-timeline.service.ts:49-51 | sources of one event type each, with the position of the type as rank and one entry per object, give entries with distinct keys |
| `Timeline.MergeReverses` | apps/api/src/domain/vehicle-timeline.ts:86-101 | so on the merge of such sources, which the history service provides, "desc" is the exact reverse of "asc" |
| `Timeline.TiesKeepTheirOrder` | apps/api/src/domain/vehicle-timeline.ts:86-101 | two entries with one key and different details, which no source provides, would keep their order in both directions |
| `PeriodDistance.CrossesCompanyWithoutTransfer` | apps/api/src/domain/period-distance.ts:87-94 | the loop finds whether some two consecutive readings change company without a transfer reading |
| `PeriodDistance.AvailableIff` | apps/api/src/domain/period-distance.ts:96-121 | a distance is available exactly under the stated conditions on the ordered readings; it is then not negative and covers more than nothing and at most the period |
| `PeriodDistance.InPeriodMeans` | apps/api/src/domain/period-distance.ts:97-97 | the readings of a period are all those observed in it, each as often as given, by instant, then entry, then identifier |
| `PeriodDistance.ReasonMeans` | apps/api/src/domain/period-distance.ts:96-121 | each reason for which there is no distance holds exactly in its case of the ordered readings |
| `PeriodDistance.BoundsMean` | apps/api/src/domain/period-distance.ts:96-121 | the bounds are the first and the last reading of the period, there is an end only at a later instant, and the distance is estimated exactly when a bound is |
| `PeriodDistance.DistanceMeans` | apps/api/src/domain/period-distance.ts:112-121 | the distance is the difference of the kilometres of its bounds, and the coverage times the period is the time between them |
| `PeriodDistance.InPeriodSplits` | apps/api/src/domain/period-distance.ts:97-97 | the ordered readings of a period are those of its two parts, one after the other |
| `PeriodDistance.SharedBoundary` | apps/api/src/domain/period-distance.ts:96-100 | with one reading at the cut, it ends the first part and begins the second, and the whole is both joined there |
| `PeriodDistance.PartsAdd` | apps/api/src/domain/period-distance.ts:96-121 | with one reading at the cut, two available parts make the whole available, with the sum of their distances |
| `PeriodDistance.AllPartsAdd` | apps/api/src/domain/period-distance.ts:96-121 | the same for any number of cuts: the distance of the period is the sum of those of its parts |
| `PeriodDistance.BasisIsPhysicalFirst` | apps/api/src/domain/period-distance.ts:165-174 | the physical column never rests on an estimate, the estimated one is the distance of all readings and there exactly when that rests on an estimate, and the basis of the cost is estimated only when no physical distance is available |
| `Ownership.OwnershipSegments` | apps/api/src/domain/period-distance.ts:205-233 | the segments tile a non-empty period without gap or overlap, each owned as the latest transfer at or before each of its instants says, with the transfers of the period at its inner bounds |
| `Ownership.PushKeeps` | apps/api/src/domain/period-distance.ts:213-230 | one push of the loop keeps the tiling and the owners right up to the next transfer |
| `Ownership.InForceSorted` | apps/api/src/domain/period-distance.ts:206-230 | among sorted transfers the last one the loop passed is the one in force |
| `Ownership.SortKeepsOwners` | apps/api/src/domain/period-distance.ts:206-206 | sorting the transfers changes no owner of any instant, since the sort is stable |
| `Ownership.OrderDoesNotMatter` | apps/api/src/domain/period-distance.ts:205-233 | segments right for the sorted transfers are right for the transfers as given |
| `Ownership.EveryInstantOwned` | apps/api/src/domain/period-distance.ts:205-233 | tiles leave no instant of the period without an owner |
| `Ownership.OwnedPartsAdd` | apps/api/src/domain/period-distance.ts:96-233 | the distance of a period is the sum of the distances of its owned parts, when each part has a distance and each transfer exactly one reading |
| `Consumption.ComputeConsumption` | apps/api/src/domain/consumption.ts:253-291 | the loops compute the specification: full-tank pieces of the sorted purchases per energy, sorted by end, with their totals and reasons |
| `Consumption.ScanEnergy` | apps/api/src/domain/consumption.ts:256-264 | the scan with its moving reference yields exactly the pieces between consecutive validated full tanks that end in the period |
| `Consumption.GatherReasons` | apps/api/src/domain/consumption.ts:186-218 | a reason is gathered exactly when its rule applies to the interval, for each of the eleven reasons |
| `Consumption.BuildInterval` | apps/api/src/domain/consumption.ts:185-236 | the built interval is the one of its piece, with the reasons that apply in their fixed order and nothing else |
| `Consumption.ComputeTotal` | apps/api/src/domain/consumption.ts:270-280 | picking the retained intervals out and summing them gives the figures counted interval by interval |
| `Consumption.RetainedIffNoReason` | apps/api/src/domain/consumption.ts:185-236 | between validated full tanks an interval is retained exactly when no reason applies, has then a positive distance, and has a ratio only then |
| `ConsumptionMeaning.PurchasesInOrder` | apps/api/src/domain/consumption.ts:166-169 | the purchases are scanned by instant of filling, then of entry, then by identifier |
| `ConsumptionMeaning.IntervalsMean` | apps/api/src/domain/consumption.ts:253-265 | the result holds an interval for each validated full tank of the period and no other |
| `ConsumptionMeaning.IntervalsByEnd` | apps/api/src/domain/consumption.ts:266-266 | the intervals of the result are listed by their ends |
| `ConsumptionMeaning.BoundsMean` | apps/api/src/domain/consumption.ts:221-228 | an interval runs from the full tank before to its own, and its distance is the difference of their validated kilometres |
| `ConsumptionMeaning.LitresMean` | apps/api/src/domain/consumption.ts:206-207 | its litres are those of its tank and of the validated purchases of its energy since the tank before |
| `ConsumptionMeaning.EntriesMean` | apps/api/src/domain/consumption.ts:206-232 | it lists its tank and the purchases since the tank before, without a tank before only those of its energy |
| `ConsumptionMeaning.ReasonsMean` | apps/api/src/domain/consumption.ts:80-219 | each of the eleven reasons is given exactly when the purchases, the gaps or the signals say so |
| `ConsumptionMeaning.ReasonsInOrder` | apps/api/src/domain/consumption.ts:19-219 | the reasons are listed once each, in their fixed order |
| `ConsumptionMeaning.RatiosMean` | apps/api/src/domain/consumption.ts:219-241 | an interval of the result is retained exactly when it has no reason; it has then a positive distance and a ratio, which times the distance is 100 times the litres |
| `Consumption.AllSound` | apps/api/src/domain/consumption.ts:219-235 | this holds of every interval of every scan, so every missing ratio carries a reason |
| `Consumption.FirstHasNoReference` | apps/api/src/domain/consumption.ts:188-190 | the first interval of an energy has no start, is never retained, and says only that there is no reference tank |
| `Consumption.IntervalsOfEnergy` | apps/api/src/domain/consumption.ts:256-270 | sorting all intervals by end leaves those of one energy in the order of their scan |
| `Consumption.PurchaseInOneInterval` | apps/api/src/domain/consumption.ts:256-264 | in a sorted scan with distinct ids a validated purchase up to the last validated full tank is in exactly one interval of its energy, a later one in none |
| `Consumption.LitersConserved` | apps/api/src/domain/consumption.ts:207-208 | the litres of the intervals of a sorted scan sum to the litres of those purchases |
| `Consumption.IntervalsChain` | apps/api/src/domain/consumption.ts:257-264 | each interval starts with the entry, instant and kilometres the one before ended with |
| `Consumption.KilometresTelescope` | apps/api/src/domain/consumption.ts:209-211 | when all full tanks of a sorted scan have validated kilometres the distances sum to last minus first |
| `Consumption.EachPurchaseOnce` | apps/api/src/domain/consumption.ts:248-291 | in the result of an unbounded period, for purchases with distinct ids in any order, each validated purchase up to the last validated full tank of its energy is in exactly one interval, a later one in none |
| `Consumption.EveryLitreOnce` | apps/api/src/domain/consumption.ts:248-291 | the litres of the intervals of that result sum to the litres of those purchases |
| `Consumption.DistancesTelescope` | apps/api/src/domain/consumption.ts:248-291 | the distances of that result sum to last minus first kilometres when all its full tanks have validated ones |
| `Consumption.InputOrderIrrelevant` | apps/api/src/domain/consumption.ts:167-169 | with distinct ids the whole result does not depend on the order of the input |
| `Consumption.FiguresByFilter` | apps/api/src/domain/consumption.ts:272-280 | retained litres, kilometres and both counts, by selection or interval by interval, are the same |
| `Consumption.AdjacentPeriodsAdd` | apps/api/src/domain/consumption.ts:248-280 | in a sorted scan retained litres and kilometres and both counts of a period are the sums of those of two adjacent parts |
| `Consumption.TotalShows` | apps/api/src/domain/consumption.ts:266-281 | the total listed for an energy, or nothing listed, shows the figures of its own intervals of the period |
| `Consumption.AdjacentTotalsAdd` | apps/api/src/domain/consumption.ts:248-281 | the totals listed for a period are, energy by energy, the sums of those listed for two adjacent parts |
| `Consumption.TotalPerEnergy` | apps/api/src/domain/consumption.ts:269-281 | an energy with intervals has the total of its own intervals: fuels are never added together |
| `ConsumptionMeaning.TotalsMean` | apps/api/src/domain/consumption.ts:268-281 | each total of the result sums the litres, kilometres and counts of the retained intervals of its energy, with a ratio that times the kilometres is 100 times the litres; without any it lists exactly the reasons of the excluded ones |
| `Consumption.TotalRatioBetween` | apps/api/src/domain/consumption.ts:278-280 | the total ratio lies between any bounds that hold for every retained ratio, so between the smallest and the largest, and its distance is positive |
| `Consumption.UnavailableSaysWhy` | apps/api/src/domain/consumption.ts:283-290 | a result is available exactly when an interval is retained; otherwise it lists exactly the reasons of its intervals, or says that the history is too short |
| `Odometer.AcceptMeans` | apps/api/src/domain/odometer-rules.ts:144-188 | an accepted reading shares its second with no accepted one, fits between all earlier and all later ones, and respects the start of a non-ordinary segment |
| `Odometer.AcceptIff` | apps/api/src/domain/odometer-rules.ts:144-188 | with one reading per second, as in every run, a reading is accepted exactly when it is not negative, not in the future, not before a declared start, alone in its minute or second, between its neighbours, and rises no more than the least allowance or the daily rate over the time elapsed |
| `Odometer.OwnOutcomeIff` | apps/api/src/domain/odometer-rules.ts:144-163 | negative, future, too early and conflicting readings are named exactly in their cases |
| `Odometer.NeighbourOutcomeIff` | apps/api/src/domain/odometer-rules.ts:164-187 | a fall, a value below the declared start, one above the next reading and an implausible rise are named exactly in their cases |
| `Odometer.IdempotentIff` | apps/api/src/domain/odometer-rules.ts:157-163 | a reading is recognized, or in conflict, exactly by the first accepted one of its minute or second |
| `Odometer.SubmitKeeps` | apps/api/src/modules/odometer/odometer-ingestion.service.ts:309-341 | one submission, judged with its accepted neighbours, keeps the accepted readings in order and the segment start aligned |
| `Odometer.RunKeeps` | apps/api/src/domain/odometer-rules.ts:98-188 | the same over every run: kilometres never fall over time, one reading per second, none below a non-ordinary start, an ordinary start equal to the earliest reading |
| `Odometer.OrdinaryCumulatesPhysical` | apps/api/src/domain/odometer-rules.ts:61-106 | after every run, cumulated kilometres of an ordinary first segment are those of the meter |
| `Odometer.CumulativeFollowsMeter` | apps/api/src/domain/odometer-rules.ts:61-63 | cumulated kilometres begin where the segment says and then grow as the meter does |
| `Odometer.PickCurrent` | apps/api/src/domain/odometer-rules.ts:194-200 | the loop returns the latest reading by instant, then by time of entry |
| `Odometer.CurrentIsMaximal` | apps/api/src/domain/odometer-rules.ts:190-200 | after every run the current reading has the highest value of all, and no submission moves it back |
| `Odometer.AppendOnlyRise` | apps/api/src/domain/odometer-rules.ts:73-77 | in append-only runs the rise over n readings is at most (n-1) times the minimal allowance plus the daily rate times the days |
| `Odometer.OutcomeByOrigin` | apps/api/src/domain/odometer-rules.ts:144-188 | an automatic reading is refused outright exactly for a negative value or a future date and else held back, never in conflict; a person's is held back exactly for an implausible rise and else refused or named as a conflict |
| `Odometer.ResubmitIsIdempotent` | apps/api/src/domain/odometer-rules.ts:157-163 | a reading just accepted is recognized when it is submitted again |
| `Calendar.DateOfDayNumber` | apps/api/src/domain/civil-date.ts:40-47 | civil dates and day numbers correspond one to one |
| `Calendar.OrderIsDayOrder` | apps/api/src/domain/civil-date.ts:49-51 | the order by year, month and day is the order of day numbers |
| `Calendar.NextDayNumber` | apps/api/src/domain/civil-date.ts:40-42 | the next date, over month and leap-year ends, has the next number |
| `Calendar.MonthLengths` | apps/api/src/domain/civil-date.ts:32-38 | the months have the lengths of section 5.7 and Appendix C of RFC 3339 |
| `Calendar.WeekdaysFollow` | apps/web/lib/maintenance-calendar.ts:43-49 | 1970-01-01 is a Thursday and the weekdays follow one another |
| `Calendar.AddMonthsLands` | apps/api/src/domain/civil-date.ts:32-38 | the result is in the month so many months on, on the same day or on the last one of a shorter month |
| `Calendar.AddMonthsMeans` | apps/api/src/domain/civil-date.ts:32-38 | year and month move by so many months, and the day stays or becomes the last one of a shorter month |
| `Calendar.AddMonthsAdvances` | apps/api/src/domain/civil-date.ts:32-38 | m months advance at least 28 m days despite the end-of-month rule |
| `Calendar.AddMonthsMonotone` | apps/api/src/domain/civil-date.ts:32-38 | a later date never leads to an earlier result |
| `Calendar.AddDaysExact` | apps/api/src/domain/civil-date.ts:40-47 | day differences undo day additions |
| `CivilText.TextOrder` | apps/api/src/domain/civil-date.ts:49-51 | texts of four-digit years compare as their dates do |
| `CivilText.Parse4Prints` | apps/web/lib/zoned-time.ts:52-67 | four digits read as a number print as the same digits |
| `Maintenance.MostRecentOperation` | apps/api/src/domain/maintenance-schedule.ts:59-75 | the loop returns the specified point, the latest by (date, km) when all points are dated |
| `Maintenance.EntryOrderIrrelevant` | apps/api/src/domain/maintenance-schedule.ts:58-75 | every order of entry gives the same date and kilometres if and only if all points are blank or one of them wins against every other |
| `Maintenance.WinnerMeans` | apps/api/src/domain/maintenance-schedule.ts:58-75 | a winner is the latest of the dated points with more kilometres than the undated ones, or the undated one with the most kilometres of all |
| `Maintenance.DatedIsOrderFree` | apps/api/src/domain/maintenance-schedule.ts:58-75 | among dated points the order of entry never matters |
| `Maintenance.BaseOrderIff` | apps/api/src/domain/maintenance-schedule.ts:58-75 | after an undated base the order of dated operations is irrelevant if and only if none has more kilometres than the base or the latest has |
| `Maintenance.OperationOrderIff` | apps/api/src/modules/maintenance/maintenance-plans.service.ts:381-409 | for the inputs of the caller, whatever base is declared, the order of the operations is irrelevant if and only if that condition holds or no undated base is declared |
| `Maintenance.UndatedBaseIsOrdered` | apps/api/src/domain/maintenance-schedule.ts:58-75 | an undated base and two operations for which the two orders give two answers |
| `Maintenance.DueDateMonotone` | apps/api/src/domain/maintenance-schedule.ts:96-99 | a later base never gives an earlier due date |
| `Maintenance.BasePointsMean` | apps/api/src/domain/maintenance-schedule.ts:77-88 | the base is chosen among the declared one, for the modes that have one, and the operations, under an initial due date only those since the creation |
| `Maintenance.NextDueMeans` | apps/api/src/domain/maintenance-schedule.ts:88-102 | the next due point is the initial one while nothing takes its place, and else so many kilometres and so many months or days after the base |
| `Maintenance.AddingNeverMovesBack` | apps/api/src/domain/maintenance-schedule.ts:77-101 | adding a dated operation, wherever it is entered, leaves the due date where it is or later if and only if no initial due date stands, the operation does not count, or the due date it leads to is no earlier |
| `Maintenance.InsertingNeverMovesBack` | apps/api/src/domain/maintenance-schedule.ts:77-101 | with any declared base, dated or not, a dated operation inserted among the others in their order never moves the due date back |
| `Maintenance.InitialDueIsReplaced` | apps/api/src/domain/maintenance-schedule.ts:84-93 | an initial due date since the creation of the plan is replaced by the first operation even when that leads to an earlier one |
| `Maintenance.ComputePlanStatus` | apps/api/src/domain/maintenance-schedule.ts:141-175 | the remaining kilometres, counted from whole ones, and days, the level of each (overdue below zero, to be done at zero, to be planned within the notice), the more urgent one as status, and each warning exactly in its case |
| `Maintenance.UrgencyNeverFalls` | apps/api/src/domain/maintenance-schedule.ts:127-175 | as day and kilometres grow with the due point fixed, urgency never falls |
| `Maintenance.ValidateIntervals` | apps/api/src/domain/maintenance-schedule.ts:190-200 | no error exactly when the set of intervals is well formed, and each of the six errors exactly in its case, months counting 28 days |
| `Maintenance.DefaultNotices` | apps/api/src/domain/maintenance-schedule.ts:206-211 | default notices never make positive intervals invalid |
| `Maintenance.DefaultNoticesMean` | apps/api/src/domain/maintenance-schedule.ts:206-211 | the default notices themselves, lowered to the last whole kilometre or day below the interval and never below zero |
| `Maintenance.UpToDateAtBase` | apps/api/src/domain/maintenance-schedule.ts:77-200 | a plan with positive, valid intervals is up to date at the kilometres and day of the operation that is its base |
| `DocumentStatus.CurrentMeans` | apps/api/src/domain/document-status.ts:57-59 | the version in force covers the day and runs furthest of those that do |
| `DocumentStatus.LastExpiredMeans` | apps/api/src/domain/document-status.ts:66-66 | the expired version shown is the one that ended last, and there is none exactly when the type has no expiry or no version has ended |
| `DocumentStatus.UpcomingMeans` | apps/api/src/domain/document-status.ts:60-63 | the upcoming version is the one that starts next, with its end if documents of the type end |
| `DocumentStatus.StatusMeans` | apps/api/src/domain/document-status.ts:56-135 | valid or to be renewed exactly when a version is in force, expired exactly when none is and one has ended, missing exactly when neither but documents exist or one is required, none exactly when there is no document and none is required |
| `DocumentStatus.ShownVersion` | apps/api/src/domain/document-status.ts:56-135 | the version shown is the one in force that runs furthest, or else the one that ended last, or none |
| `DocumentStatus.FieldsMean` | apps/api/src/domain/document-status.ts:56-135 | every field of the result by the versions in force or ended: bounds shown, days remaining, notice reached, renewal and blocking |
| `DocumentStatus.UpcomingIsShown` | apps/api/src/domain/document-status.ts:60-63 | every result announces the same upcoming version |
| `DocumentStatus.RenewedIffCovered` | apps/api/src/domain/document-status.ts:105-106 | renewed exactly when some version covers the day after the current end |
| `DocumentStatus.ToRenewIff` | apps/api/src/domain/document-status.ts:103-122 | to be renewed exactly when the end is within some notice and no version covers the day after it |
| `DocumentStatus.RemainingMeans` | apps/api/src/domain/document-status.ts:74-104 | days remaining are those to the end of the version in force, and negative once expired |
| `DocumentStatus.ExpiryIsAnnounced` | apps/api/src/domain/document-status.ts:56-135 | with a notice, a document that is expired tomorrow and not today is to be renewed today, with 0 days remaining |
| `DocumentStatus.BlocksIffUncovered` | apps/api/src/domain/document-status.ts:56-135 | a departure is blocked exactly when a blocking type has documents, or needs one, and none is in force |
| `DocumentStatus.ReachedMeans` | apps/api/src/domain/document-status.ts:107-108 | the notice reached is the smallest one not below the days remaining, if any |
| `DocumentStatus.PalierMeans` | apps/api/src/domain/document-applicability.ts:35-35 | the notices ranked are the non-negative ones, each once, longest first |
| `DocumentStatus.SeverityByDays` | apps/api/src/domain/document-applicability.ts:33-41 | fewer days remaining never lower the severity, for any list of notices |
| `DocumentStatus.SeverityMeans` | apps/api/src/domain/document-applicability.ts:33-41 | expired is critical when blocking and else urgent; before, the shortest notice is urgent, the longest one informs and any other calls for attention |
| `DocumentStatus.SeverityNeverFalls` | apps/api/src/domain/document-applicability.ts:29-41 | while one unrenewed version stays the relevant one, through its expiry, severity never decreases |
| `ZonedTime.WallTimeToDate` | apps/web/lib/zoned-time.ts:43-50 | the instant reads back as the wall time exactly when some instant near does, for every bound on the offsets that leaves at most one transition near |
| `ZonedTime.WallTimeFound` | apps/web/lib/zoned-time.ts:36-50 | with at most one transition nearby, the instant reads back as the wall time exactly when some instant does |
| `ZonedTime.PartsRoundTrip` | apps/web/lib/zoned-time.ts:28-40 | a wall time taken apart and put together again is the same, from the year 100 on |
| `ZonedTime.WallSplits` | apps/web/lib/zoned-time.ts:28-44 | a wall time splits back into the date, hour and minute it was made of |
| `ZonedTime.ParsePrints` | apps/web/lib/zoned-time.ts:133-149 | an accepted input printed again is its first sixteen characters |
| `ZonedTime.ParseIff` | apps/web/lib/zoned-time.ts:133-140 | an input is accepted exactly when it begins like a printed time of an existing date from the year 100 on |
| `ZonedTime.InputRoundTrip` | apps/web/lib/zoned-time.ts:133-149 | a minute-precision input outside a clock gap comes back unchanged after conversion to an instant and back |
| `MonthGrid.GroupByDate` | apps/web/lib/maintenance-calendar.ts:69-82 | the map holds each date with items, and exactly its items in their order |
| `MonthGrid.BuildMonthGrid` | apps/web/lib/maintenance-calendar.ts:43-60 | for every month but 0100-01 the loop ends, with consecutive Monday-to-Sunday weeks that cover the month and end with the week of its last day, and an empty grid for the years 0 to 99 and for 9999-12 |
| `MonthGrid.BuildWeek` | apps/web/lib/maintenance-calendar.ts:50-57 | a week is seven consecutive days with their items, and the cursor moves by seven days |
| `MonthGrid.DayShownOnce` | apps/web/lib/maintenance-calendar.ts:43-60 | each day of the month has exactly one cell, in a week that begins on a Monday |
| `MonthGrid.CellHolds` | apps/web/lib/maintenance-calendar.ts:52-54 | a cell holds an item exactly when it is the cell of its date and that date is in the month |
| `MonthGrid.AgendaAgrees` | apps/web/lib/maintenance-calendar.ts:63-67 | the agenda lists exactly the cells of the month that have items, with the same items |
| `MonthGrid.AgendaInOrder` | apps/web/lib/maintenance-calendar.ts:63-67 | the agenda goes from earlier to later days, each once |
| `MonthGrid.AgendaDates` | apps/web/lib/maintenance-calendar.ts:63-82 | the agenda has a day exactly when some item has its date |
| `MonthGrid.CursorStart` | apps/web/lib/maintenance-calendar.ts:44-49 | the cursor starts on the Monday of the first day, before the next month exactly when the month can be displayed |
| `MonthGrid.StuckInJanuary100` | apps/web/lib/maintenance-calendar.ts:48-49 | for 0100-01 the cursor starts on 0099-12-28, does not move, and stays before the next month |
| `Csv.CsvReadsBack` | apps/api/src/common/csv-writer.ts:26-57 | reading a written file gives the text of every cell back, whatever quotes, separators and line ends it holds |
| `Csv.CellReadsBack` | apps/api/src/common/csv-writer.ts:26-57 | cell by cell, header included: the read text is the cell text, and for no text cell does it begin like a formula |
| `Csv.HeaderReadsBack` | apps/api/src/common/csv-writer.ts:26-57 | the header reads back, and no cell of it begins like a formula |
| `Csv.DocumentReadsBack` | apps/api/src/common/csv-writer.ts:46-53 | an export with metadata reads back as its metadata, an empty line, its header and its rows |
| `Csv.RecordReads` | apps/api/src/common/csv-writer.ts:33-35 | a written line reads back as its cells, and the rest of the file is left |
| `Csv.NoFormulas` | apps/api/src/common/csv-safety.ts:9-30 | a text cell never begins like a formula, and is changed only by an apostrophe in front when it would |
| `Csv.CellTextMeans` | apps/api/src/common/csv-writer.ts:26-31 | nothing for an absent value, a number with a comma for its first decimal point, a text with an apostrophe in front exactly when it begins with one of the ten formula characters |
| `Csv.QuoteMeans` | apps/api/src/common/csv-writer.ts:55-57 | a field is quoted exactly when it holds a quote, a separator or a part of a line end |
| `Csv.FileBounds` | apps/api/src/common/csv-writer.ts:37-40 | a file begins with the byte order mark and ends with CR LF |
| `Ledger.Bucket.Add` | apps/api/src/domain/expense-ledger.ts:122-128 | adding a row updates expenses or credits, net and count of the bucket by what the row is worth |
| `Ledger.AddToCategory` | apps/api/src/domain/expense-ledger.ts:150-151 | the bucket of the row's category is created if missing and grows by the row; all others stay |
| `Ledger.SummarizeLedger` | apps/api/src/domain/expense-ledger.ts:135-155 | the loop over mutable buckets gives, bucket by bucket, the totals of the rows that belong there |
| `Ledger.BucketsMean` | apps/api/src/domain/expense-ledger.ts:135-155 | operating, unallocated and excluded are the sums over the validated rows that belong there, credits apart and rows counted as often as they say |
| `Ledger.LinesMean` | apps/api/src/domain/expense-ledger.ts:130-155 | there is a line for each category with rows, with the sums of these rows, and no other |
| `Ledger.LinesInTheirOrder` | apps/api/src/domain/expense-ledger.ts:12-132 | the lines stand in the order of the categories |
| `Ledger.NetIsDifference` | apps/api/src/domain/expense-ledger.ts:55-63 | in every bucket the net is expenses minus credits, and the net amount of its rows |
| `Ledger.MoneyConserved` | apps/api/src/domain/expense-ledger.ts:60-155 | operating net plus excluded net is the net amount of the validated rows |
| `Ledger.CategoriesAddUp` | apps/api/src/domain/expense-ledger.ts:130-155 | the operating and the excluded totals are the sums of their categories |
| `Ledger.RowOrderIrrelevant` | apps/api/src/domain/expense-ledger.ts:135-155 | the summary does not depend on the order of the rows |
| `Ledger.AggregationIsExact` | apps/api/src/domain/expense-ledger.ts:90-155 | replacing rows of one classification by one row with their sum and count changes nothing |

## Left out

- Rounding and formatting of decimals: `durationDays`, `durationHours`, `formatRatio`, the precision of `Exact` and truncated kilometres; numbers are exact here.
- SHA-256: equal hashes are taken to mean equal texts.
- BodyFingerprint.SameTextIffSameMeaning: a body that is undefined as a whole, `NaN` and infinite numbers, which print as null, and lone surrogates are not covered; integer-like keys, which JavaScript objects enumerate first in both bodies alike, are ordinary keys here.
- `runOptional` and its check of the key length, and the count returned by the purge.
- Idempotency.AtMostOneWork: one clock is shared by all hosts and only moves forward; an update that succeeds in the database but is reported as failed is not modelled.
- Odometer.RunKeeps: readings enter only by acceptance at submission; approval of waiting readings, corrections, estimates and the bound a closed segment takes from the next one are not part of the model.
- Odometer.AppendOnlyRise: claimed for append-only runs only, because a back-dated reading is checked against the rise from its previous reading alone.
- `costPerKm`, `comparePlansForSort`, `timelineAccess`, `telemetrySignalOf`, `isDocumentTypeApplicable`, `amountRejection`, `normalizeReference` and `isOrdinaryFirstSegment`: one-branch rules or texts.
- Texts meant for people: anomaly reasons, status details, labels, `monthLabel`.
- Texts compare by Unicode code points; JavaScript compares UTF-16 units, which differs only between characters beyond U+FFFF and those from U+E000 on.
- The agenda sorts dates with `localeCompare`, taken to agree with the order of digits and hyphens.
- Zones are offset functions in whole seconds; a zone's own table of transitions and the formatter cache are not part of the model.
- ZonedTime.InputRoundTrip: an input less than twice the maximal offset after the start of the year 100 is not covered, because a read near it may fall in a year `Date.UTC` moves to the 20th century.
- ZonedTime.WallTimeFound: offsets with two transitions close together are not covered.
- DocumentStatus.RenewedIffCovered: versions are taken to end before 9999-12-31, the date the program itself uses for versions without end, and to have distinct identifiers.
- DocumentStatus.ToRenewIff: the same two assumptions.
- Maintenance.AddingNeverMovesBack: for dated points only; with an undated base a changed order alone can move the due date back, see `Maintenance.UndatedBaseIsOrdered`.
- Invalid dates, `NaN` instants and malformed months; values of types the cells of a file never hold.
