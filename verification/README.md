# HIPPMEM in Dafny

HIPPMEM is an associative memory engine: memories are units joined by typed,
weighted links, recalled through several channels, activated by spreading
energy along links, and consolidated in the background. This project models
the engine's deterministic core and proves what it promises, over all inputs,
all reachable states and whole runs.

| component | modules |
|---|---|
| civil calendar and time-range terms | `CivilCalendar`, `TimeQuery` |
| consolidation cycle | `ActivationLogs`, `Hebbian`, `Decay`, `Compaction`, `Worker` |
| summary clusters, compression, redirection | `Summaries`, `Compression` |
| the store as steps over its tables, and the imperative engine | `StoreTables`, `Deletion`, `StoreRuns`, `Engine` |
| links and summaries over runs of the store, and failing runs | `LinkRuns`, `Reindexing`, `Witnesses` |
| seed ranking and rank fusion | `Seeds`, `RankFusion` |
| spreading activation | `Energy`, `Spreading`, `SpreadingRuns`, `SpreadingOrder`, `SpreadingEngine`, `SpreadingWitnesses` |
| graph traversal and cursor pagination | `Traversal`, `Listing` |
| shared | `MemoryModel`, `Sorting`, `Sums` |

`dafny verify dfyconfig.toml` checks the whole project.

Conventions. Floating-point numbers are `real`, ids are `nat`, timestamps and
day counts are `int`. Rust's truncating division is written out. Tables are
maps and a transaction is one step. Iterating a hash map is a method with a
nondeterministic listing (`Sums.Enumerate`), so a method that is proved equal
to a function of its inputs is proved deterministic. The clock, generated ids,
staged keys and links, similarity, and the forgetting curve (any function into
(0, 1]) are parameters. Code that works by loops and in-place updates is
modelled by methods, classes and arrays, each proved equal to a specification
function about which the lemmas speak; what an operation computes is also stated
in the source's own numbers (`IsShare`, `Passes`, `RejectionOf`, `DecaysTo`,
`ShareWords`, `ShowsPage` and others), apart from the functions that compute it.
Preconditions say what the types and
tables of the source guarantee: one row per id, a row stored under its own id
(`RowsSound`), strengths in [0, 1] (`UnitScore`).

Where the code and its comments disagree the model follows the code. The lemma
named says exactly when the comment holds; a member of `Witnesses` or
`SpreadingWitnesses` is a run on which it fails:

- co-activation can pair an id with itself and then make a self-loop, against
  the unit's documented invariant (`Hebbian.SelfLoopExactly`,
  `Hebbian.OneConfirmationMakesSelfLoops`, `Worker.CycleSettlesExactly`,
  `Witnesses.ConfirmationMakesLoops`); the self-loop of a memory that is
  compressed is redirected to its summary (`LinkRuns.ConsolidationKeepsExactly`);
- redirection can leave two links with one (target, type)
  (`Compression.UniquenessSurvivesExactly`, `Witnesses.RedirectionCollides`);
  over runs both are put together in `LinkRuns.LinksValidOverRuns`;
- the degree limit archives protected links (`Compaction.ProtectedEdgeStays`,
  `Compaction.ProtectedEdgeCanGo`);
- a batch delete works on a snapshot, so it can leave links into the batch and
  re-create overlay rows of deleted ids (`Deletion.NoDanglingExactly`,
  `Witnesses.BatchDeleteLeavesLink`, `Deletion.DeleteKeepsOverlayExactly`,
  `Witnesses.ForwardDeleteLeavesRow`);
- a rejected link below the retention floor is strengthened up to it
  (`Hebbian.RejectNeverStrengthens`);
- decay compounds over cycles, as the activation time stays
  (`Worker.QuietCyclesCompound`);
- reindexing brings deleted memories back (`StoreRuns.ReindexRevivesLogged`,
  `Witnesses.DeletedComesBack`) and forgets which memories are summaries or
  compressed, so that their sources are summarised again
  (`Reindexing.ReplansAcrossReindexExactly`,
  `Witnesses.ReindexSummarisesAgain`);
- a merged node keeps the trace of the first arrival with energy, not the
  highest-energy path's (`SpreadingRuns.StrongestTraceKeptExactly`,
  `SpreadingWitnesses.StrongerPathLost`);
- a negative merge weight can take an energy below the threshold
  (`Energy.MergeKeepsThresholdExactly`), and hops wrap at 256
  (`SpreadingRuns.FewerHopsByRecord`, `SpreadingWitnesses.LongChainWraps`);
- timestamps before 1970 can land on the day after
  (`TimeQuery.DayOfIsUtcDay`).

## Model

| member | source | states |
|---|---|---|
| `CivilCalendar.CivilRoundTrip` | crates/hippmem-core/src/time.rs:74-96 | every integer day count converts to a valid Gregorian date that counts back to it |
| `CivilCalendar.DateRoundTrip` | crates/hippmem-core/src/time.rs:74-96 | every valid Gregorian date is recovered from its day count |
| `CivilCalendar.NextDateCount` | crates/hippmem-core/src/time.rs:74-84 | the calendar day after a date, by month lengths and leap years, counts one more |
| `CivilCalendar.CountingWalksCalendar` | crates/hippmem-core/src/time.rs:85-96 | day 0 is 1970-01-01 and counting up by one walks the calendar day by day, for every integer |
| `CivilCalendar.CountOrder` | crates/hippmem-core/src/time.rs:74-84 | one date is earlier than another exactly when its day count is smaller |
| `TimeQuery.LastDayIsMonthLength` | crates/hippmem-model/src/time_query.rs:360-368 | the last day of a month is the Gregorian month length for every year |
| `TimeQuery.WholeMonthsCover` | crates/hippmem-model/src/time_query.rs:387-432 | a span of whole months covers a day exactly when the day's own month lies in the span |
| `TimeQuery.ThisMonthIsTheMonth` | crates/hippmem-model/src/time_query.rs:387-432 | ThisMonth covers exactly the days of today's year and month |
| `TimeQuery.ThisYearIsTheYear` | crates/hippmem-model/src/time_query.rs:387-432 | ThisYear covers exactly the days of today's year |
| `TimeQuery.LastMonthIsTheMonthBefore` | crates/hippmem-model/src/time_query.rs:387-432 | LastMonth covers exactly the days whose month, counted in months, is one less than today's, across the turn of the year |
| `TimeQuery.LastMonthTouchesThis` | crates/hippmem-model/src/time_query.rs:387-432 | LastMonth ends on the day before ThisMonth begins |
| `TimeQuery.WeekBlocks` | crates/hippmem-model/src/time_query.rs:387-439 | weeks partition the days: a day is in today's week exactly when both have the same week, weeks start on Monday, LastWeek is the week of seven days ago and ends the day before ThisWeek begins |
| `TimeQuery.DayTerms` | crates/hippmem-model/src/time_query.rs:387-432 | Today, Yesterday and DayBeforeYesterday cover exactly the calendar day itself, the one whose next day it is, and the one before that |
| `TimeQuery.RangeAccepted` | crates/hippmem-model/src/time_query.rs:264-271 | a range is accepted exactly when it does not end before it begins and has at most 93 days |
| `TimeQuery.MonthRangeAccepted` | crates/hippmem-model/src/time_query.rs:264-271 | a range of whole months in order is accepted exactly when it spans at most three months |
| `TimeQuery.YearlessIsMostRecent` | crates/hippmem-model/src/time_query.rs:106-118 | a date without a year resolves to its most recent occurrence, 0 to 365 days back |
| `TimeQuery.YearlessDate` | crates/hippmem-model/src/time_query.rs:106-118 | the resolved day is that very date exactly when the day exists in the month (no 30 February) |
| `TimeQuery.DayOfIsUtcDay` | crates/hippmem-model/src/time_query.rs:28-31 | the truncating day number is the UTC day exactly for timestamps that are not negative or fall on midnight, and is off by one otherwise |
| `ActivationLogs.ActivationLog.CoActivationPairs` | crates/hippmem-consolidation/src/hebbian.rs:43-69 | returns, in strictly ascending order, exactly the pairs of ids that have two entries less than the window apart in either direction, each with the sum of the smaller energies over all such pairs of entries |
| `ActivationLogs.PairedExactly` | crates/hippmem-consolidation/src/hebbian.rs:43-69 | two ids are paired exactly when entries of theirs at two places of the log are less than the window apart |
| `ActivationLogs.PairsOrderFree` | crates/hippmem-consolidation/src/hebbian.rs:43-69 | any permutation of the log, its reverse included, gives the same pairs with the same weights |
| `ActivationLogs.FarRecordsIndependent` | crates/hippmem-engine/src/consolidate_api.rs:49-74 | feedback records at least a window apart pair independently: what each part pairs alone is paired, and the weights add up |
| `ActivationLogs.ReadFeedback` | crates/hippmem-engine/src/consolidate_api.rs:49-74 | an entry is logged exactly if a positive record of two or more ids names its id at its time, with 1.0, 0.8 or 0.5 by signal; the rejected ids are exactly those of rejecting records |
| `ActivationLogs.UniformWeights` | crates/hippmem-consolidation/src/hebbian.rs:43-69 | in a log of one time and energy a pair weighs one energy per way to choose its two entries |
| `ActivationLogs.RecordOccurrences` | crates/hippmem-engine/src/consolidate_api.rs:57-68 | the log of one record of n distinct ids holds each id n-1 times |
| `ActivationLogs.SingleRecordWeights` | crates/hippmem-engine/src/consolidate_api.rs:52-68 | one positive record of n distinct ids gives each cross pair (n-1)^2 w and each self-pair (n-1)(n-2)/2 w |
| `ActivationLogs.SelfCoactivated` | crates/hippmem-consolidation/src/hebbian.rs:51-56 | an id is paired with itself exactly when two of its entries lie within the window, whatever their energies |
| `Hebbian.HebbianReinforce` | crates/hippmem-consolidation/src/hebbian.rs:96-115 | the nested in-place loops strengthen each link by 0.08 per unit of weight, up to five, for every pair of weight three or more that names its target, up to 1, and count each such pair as an activation at this time |
| `Hebbian.ReinforceClosedForm` | crates/hippmem-consolidation/src/hebbian.rs:96-115 | a link at or below the cap ends at min(cap, strength + sum of matching deltas), its count raised by the number of matches, its activation time set exactly when there is one |
| `Hebbian.ReinforceOrderFree` | crates/hippmem-consolidation/src/hebbian.rs:96-115 | the order of the co-activation pairs does not matter |
| `Hebbian.RejectWeaken` | crates/hippmem-consolidation/src/hebbian.rs:126-146 | a link that a rejection reaches loses 0.08 down to 0.12, gets the time and one activation less; within the float tolerance of 0.12 it stays, below it is lifted; all others stay; and the count is the number of links that changed |
| `Hebbian.RejectionsClosedForm` | crates/hippmem-consolidation/src/hebbian.rs:136-143 | n rejections end at max(0.12, strength - 0.08 n) up to the float tolerance, and exactly there if and only if no step ends within the tolerance above 0.12 |
| `Hebbian.RejectNeverStrengthens` | crates/hippmem-consolidation/src/hebbian.rs:136-143 | a rejection does not raise a strength exactly when it was at or above the floor (within the float tolerance); below it the floor lifts the link |
| `Hebbian.BuildCoactivationLinks` | crates/hippmem-consolidation/src/hebbian.rs:151-178 | one causal link under observation for each pair of weight three or more, in order, from its smaller to its larger id, with strength 0.3, confidence 0.4 and three to five activations |
| `Hebbian.AddLinksShape` | crates/hippmem-consolidation/src/worker.rs:56-77 | adding co-activation links keeps the old ones as a prefix, adds only links meant for the owner, and leaves an edge for every one of them |
| `Hebbian.AddLinksUnique` | crates/hippmem-consolidation/src/worker.rs:56-77 | (target, type) uniqueness survives the additions |
| `Hebbian.SelfLoopExactly` | crates/hippmem-consolidation/src/hebbian.rs:151-178 | a unit stays free of self-loops exactly when no pair at the threshold pairs it with itself |
| `Hebbian.SelfPairExactly` | crates/hippmem-consolidation/src/hebbian.rs:43-69 | in the pairs of a log, an id is paired with itself at the threshold exactly when the minimum energies over its in-window repetitions sum to 3 or more |
| `Hebbian.RecordSelfLoopsExactly` | crates/hippmem-consolidation/src/hebbian.rs:151-178 | one record of n distinct ids of weight w leaves its ids free of self-loops exactly when (n-1)(n-2)/2 w is below 3 |
| `Hebbian.OneConfirmationMakesSelfLoops` | crates/hippmem-consolidation/src/hebbian.rs:151-178 | confirming n memories together leaves them free of self-loops exactly when n is at most 3 |
| `Decay.ApplyDecay` | crates/hippmem-consolidation/src/decay.rs:54-85 | the retaining loop keeps exactly the links that decay leaves, in order: scaled by the curve at the time since the last activation or formation and at most six activations, floored at 0.12 when confirmed, lost below it when under observation, untouched when protected |
| `Decay.DecayMembers` | crates/hippmem-consolidation/src/decay.rs:54-85 | a link is in the result exactly when it is the decayed form of an input link that was not dropped |
| `Decay.DecayUnique` | crates/hippmem-consolidation/src/decay.rs:54-85 | (target, type) uniqueness survives decay |
| `Decay.ConfirmedDecayClosedForm` | crates/hippmem-consolidation/src/decay.rs:59-84 | any number of decays leaves a confirmed unprotected link at max(floor, strength times the product of the factors) |
| `Decay.ObservingDecayClosedForm` | crates/hippmem-consolidation/src/decay.rs:59-84 | a link under observation is dropped exactly when the product of the factors takes it below the floor, and is otherwise scaled by it |
| `Decay.DecayCompounds` | crates/hippmem-consolidation/src/decay.rs:68-82 | decaying any link at two times equals decaying it at the later one alone exactly when the earlier factor is 1, the link is protected, or the later decay takes it to the floor anyway (under observation: below the floor) |
| `Compaction.CompactEdges` | crates/hippmem-consolidation/src/compaction.rs:36-68 | the loop, sort and drain compute the kept and archived links of the specification |
| `Compaction.CompactionConserves` | crates/hippmem-consolidation/src/compaction.rs:36-68 | kept and archived links together are the input as a multiset, and at most the limit is kept |
| `Compaction.OverflowOnly` | crates/hippmem-consolidation/src/compaction.rs:36-68 | no link below 0.12 is kept unless it is confirmed and of a protected type; any other link is archived only when the limit is reached, and then no stronger than any that stays |
| `Compaction.KeptAreStrongest` | crates/hippmem-consolidation/src/compaction.rs:56-65 | no archived link is stronger than a kept one, except weak links passed by for a protected one |
| `Compaction.ProtectedEdgeStays` | crates/hippmem-consolidation/src/compaction.rs:36-68 | a retained link stays exactly when the degree fits or its stable strength rank is within the limit, protected or not |
| `Compaction.ProtectedEdgeCanGo` | crates/hippmem-consolidation/src/compaction.rs:56-65 | beside 64 stronger links a protected link is archived, although the comment says protected links are unaffected |
| `Compaction.KeptUnique` | crates/hippmem-consolidation/src/compaction.rs:36-68 | compaction keeps (target, type) uniqueness and invents no link |
| `Worker.ConsolidationWorker.RunCycle` | crates/hippmem-consolidation/src/worker.rs:38-122 | the passes over the unit array give each unit exactly the links of the composed specification, at most 64 and none weak, bump the cycle count, and report totals that add up: links before and created are those after, lost and archived |
| `Worker.CycleSettles` | crates/hippmem-consolidation/src/worker.rs:38-122 | for valid links, and no pair of the unit with itself at the threshold, a cycle leaves unique (target, type), no self-loop, strengths in [0,1], degree at most 64 and every unprotected strength at least 0.12 |
| `Worker.CycleSettlesExactly` | crates/hippmem-consolidation/src/worker.rs:38-122 | a cycle settles a unit with valid links exactly when no pair at the threshold pairs it with itself or the degree limit cuts the self-loop, by its stable strength rank |
| `Worker.FeedbackSettles` | crates/hippmem-engine/src/consolidate_api.rs:49-79 | from the feedback records: the cycle settles the unit exactly when the weight of its self-pair stays below 3 or the degree limit cuts the self-loop |
| `Worker.ArchivesExactlyOverflow` | crates/hippmem-consolidation/src/worker.rs:98-118 | because decay's floor is compaction's threshold, compaction archives exactly the overflow over 64 and nothing otherwise |
| `Worker.CyclesKeepInvariant` | crates/hippmem-consolidation/src/worker.rs:38-122 | any number of cycles without a self-pair of the unit at the threshold keeps the link invariant and ends settled |
| `Worker.EdgeCountNeverGrows` | crates/hippmem-consolidation/src/worker.rs:38-122 | a further cycle over the same pairs never gives a unit more links than the first left it |
| `Worker.QuietCyclesDecay` | crates/hippmem-consolidation/src/worker.rs:38-122 | any number of cycles without pairs and rejections decays each link by the factors of its own, never reset, activation time at each cycle; with more links than the limit the first cycle keeps the strongest, and these decay on |
| `Worker.QuietCyclesCompound` | crates/hippmem-consolidation/src/decay.rs:54-85 | two quiet cycles over any link equal the second alone exactly when its factor in the first is 1, it is protected, or the second takes it to the floor (under observation: away) anyway |
| `Worker.RejectingCycles` | crates/hippmem-consolidation/src/worker.rs:80-96 | any number of cycles that reject a confirmed link take it to max(0.12, strength - 0.08 n) up to the float tolerance, exactly if no step ends within it |
| `Worker.MovingCycles` | crates/hippmem-consolidation/src/worker.rs:80-96 | while every rejection moves a link, confirmed or not, n rejecting cycles take off exactly 0.08 n and n activations, set the last time, and nothing decays |
| `Worker.CycleConserves` | crates/hippmem-consolidation/src/worker.rs:38-122 | over all units links before plus links created equal links after plus links lost plus links archived |
| `Summaries.PlanSummaryClusters` | crates/hippmem-consolidation/src/summarize.rs:54-108 | the greedy loop computes the specified plan: the clusters, by rising first id, are the groups of enough texts at least half unimportant, where the texts that may be summarised are grouped so that each shares the given part of its words with the first of its group and with the first of no earlier one |
| `Summaries.SimilarityLaws` | crates/hippmem-consolidation/src/summarize.rs:19-26 | the similarity of two texts is symmetric, between 0 and 1, 1 exactly for equal texts with words and 0 exactly for texts without a common word |
| `Summaries.CandidatesAscending` | crates/hippmem-consolidation/src/summarize.rs:60-81 | the candidates are exactly the uncompressed, uncovered, non-summary units with some token, in ascending id order |
| `Summaries.GroupsStructure` | crates/hippmem-consolidation/src/summarize.rs:83-97 | the groups partition the candidates; each is led by its smallest id, its members are similar to the leader and not to any earlier leader |
| `Summaries.PlanStructure` | crates/hippmem-consolidation/src/summarize.rs:71-108 | the planned clusters are disjoint and ascending, drawn from the candidates, led as above, and meet the size and low-importance rules |
| `Summaries.PlanOrderFree` | crates/hippmem-consolidation/src/summarize.rs:60-108 | the plan does not depend on the order in which units are loaded |
| `Summaries.Regroup` | crates/hippmem-consolidation/src/summarize.rs:83-97 | removing whole groups from the candidates and grouping again gives exactly the other groups |
| `Compression.BuildSummaries` | crates/hippmem-engine/src/consolidate_api.rs:91-105 | one summary is built, in order, for each cluster of seven or more, and for no other |
| `Compression.SummariesByWords` | crates/hippmem-engine/src/consolidate_api.rs:81-105 | which texts are summarised together depends on words, sizes and importances alone: the groups worth summarising that have seven members |
| `Compression.CompressAndRedirect` | crates/hippmem-engine/src/consolidate_api.rs:106-141 | marking sources and redirecting in-edges in place gives each unit its specified form |
| `Compression.PlanIsSound` | crates/hippmem-engine/src/consolidate_api.rs:81-114 | for fresh generated ids the summaries have distinct ids, disjoint covers, and ids that are no sources |
| `Compression.SourceHasOneSummary` | crates/hippmem-engine/src/consolidate_api.rs:106-114 | each source is marked with the one summary that covers it |
| `Compression.NoLinkToCompressed` | crates/hippmem-engine/src/consolidate_api.rs:123-141 | after redirection no link of any unit or of a stored summary targets a source compressed in this cycle |
| `Compression.RedirectionConserves` | crates/hippmem-engine/src/consolidate_api.rs:130-141 | redirection changes only target and note of links into a cluster, and conserves each unit's link count |
| `Compression.UniquenessSurvivesExactly` | crates/hippmem-engine/src/consolidate_api.rs:130-141 | (target, type) uniqueness survives exactly when the unit held no two same-type links into one cluster |
| `Compression.RedirectionNoSelfLoop` | crates/hippmem-engine/src/consolidate_api.rs:130-141 | redirection to fresh summaries makes no self-loop |
| `Compression.SecondPassCreatesNothing` | crates/hippmem-engine/src/consolidate_api.rs:81-114 | a second planning pass re-forms exactly the groups refused in the first, so it creates no summary, for any similarity, thresholds and gate |
| `StoreTables.WriteKeepsSound` | crates/hippmem-engine/src/write_api.rs:216-268 | a write keeps the index and rows sound: an id is posted under a key exactly when it is live and has the key, without duplicates or empty lists |
| `StoreTables.PostsAtEnd` | crates/hippmem-store/src/kv.rs:145-257 | an id is posted at the end of the list of each of its keys, once, and every other list stays as it is |
| `StoreTables.ConsolidateKeeps` | crates/hippmem-engine/src/consolidate_api.rs:148-204 | consolidation, with its summaries written one by one, keeps soundness, the log and overlay agreement |
| `StoreTables.StrengthenKeeps` | crates/hippmem-engine/src/feedback_api.rs:115-170 | strengthening an edge keeps soundness and agreement of unit and overlay |
| `StoreTables.UsageKeeps` | crates/hippmem-engine/src/feedback_api.rs:39-61 | usage feedback on any list of ids keeps soundness, the log and overlay agreement |
| `StoreTables.UsageClosedForm` | crates/hippmem-engine/src/feedback_api.rs:39-61 | clamping at each naming comes to clamping once: an id listed n times moves by n times the amount, and nothing else changes |
| `StoreTables.UsageExactly` | crates/hippmem-engine/src/feedback_api.rs:39-61 | a signal moves the usage score of every live id by 0.10, 0.08, 0.05 or -0.10 for each naming, within [0,1]; other signals move nothing |
| `StoreTables.StrengthenExactly` | crates/hippmem-engine/src/feedback_api.rs:115-170 | exactly the links of the source to the target gain the amount up to 1, the time and one activation up to the 32-bit maximum, in unit and overlay alike |
| `StoreTables.ReindexRebuilds` | crates/hippmem-engine/src/consolidate_api.rs:223-304 | reindexing from the log ends with sound tables, an agreeing overlay, and exactly the logged ids live, whatever they held before |
| `StoreTables.DeleteAllKeepsSound` | crates/hippmem-engine/src/delete_api.rs:27-105 | a batch delete keeps the indexes sound and removes exactly the batch from the live ids |
| `Deletion.SurvivorsAfterDelete` | crates/hippmem-engine/src/delete_api.rs:27-102 | after a batch delete each survivor has its snapshot links minus those to the last batch id it pointed at |
| `Deletion.OverlayAfterDelete` | crates/hippmem-engine/src/delete_api.rs:27-102 | the overlay rows after a batch delete, including re-created ones, row by row |
| `Deletion.RowsClosedForm` | crates/hippmem-engine/src/delete_api.rs:69-102 | a row remains exactly for survivors and for deleted ids that pointed at a later id of the batch |
| `Deletion.DeleteKeepsOverlayExactly` | crates/hippmem-engine/src/delete_api.rs:69-102 | a batch delete keeps overlay agreement exactly when no id of the batch links to a later one |
| `Deletion.SingleDeleteKeepsOverlay` | crates/hippmem-engine/src/delete_api.rs:27-102 | deleting one id keeps overlay agreement |
| `Deletion.NoDanglingExactly` | crates/hippmem-engine/src/delete_api.rs:69-83 | no survivor keeps a link into the batch exactly when each pointed at no more than one of its ids |
| `StoreRuns.StepKeepsSound` | crates/hippmem-store/src/kv.rs:343-541 | each of the store's operations keeps the tables sound and only grows the log |
| `StoreRuns.RunsKeepSound` | crates/hippmem-store/src/kv.rs:343-541 | in every state reached from the empty store, for every key, its posting list holds exactly the live ids with that key, without duplicates, and every live id is logged |
| `StoreRuns.LogOnlyGrows` | crates/hippmem-store/src/kv.rs:343-365 | over any run memory_log only grows and keeps every record |
| `StoreRuns.ReindexRevivesLogged` | crates/hippmem-engine/src/consolidate_api.rs:223-304 | after any run a reindex makes the live ids equal the logged ids, so deleted memories come back |
| `StoreRuns.OverlayAgreesOverRuns` | crates/hippmem-engine/src/consolidate_api.rs:148-204 | over any run, link_overlay has the keys and links of memory_kv at every prefix exactly when no batch delete on the way has a forward link |
| `StoreRuns.SingleDeletesKeepOverlay` | crates/hippmem-engine/src/delete_api.rs:27-102 | every run of writes, feedback, consolidations, reindexes and single-id deletes ends with an agreeing overlay |
| `StoreRuns.ConsolidatingAgainCreatesNothing` | crates/hippmem-engine/src/consolidate_api.rs:33-204 | after a whole consolidation has been stored, reloading and consolidating again creates no summary, through cycle, planning, gate and storage |
| `StoreRuns.AllStoredExactly` | crates/hippmem-engine/src/consolidate_api.rs:160-204 | all summaries of a consolidation are stored exactly when their ids are new to the log and differ |
| `LinkRuns.ConsolidatedValidExactly` | crates/hippmem-engine/src/consolidate_api.rs:76-141 | a cycle with redirection keeps the link invariant of a unit exactly when, of the links it then holds, no two of one type run into one cluster and none loops, unless the unit is compressed itself |
| `LinkRuns.SelfLoopAfterRedirection` | crates/hippmem-engine/src/consolidate_api.rs:123-141 | a self-loop survives redirection exactly when its owner is not compressed; otherwise it is redirected to the summary |
| `LinkRuns.ConsolidationKeepsExactly` | crates/hippmem-engine/src/consolidate_api.rs:76-141 | in terms of the input: a consolidation keeps the link invariant of a unit exactly when no two of its same-type links run into one cluster and it is compressed, is not paired with itself at the threshold, or has its self-loop cut by the degree limit |
| `LinkRuns.ReindexValidExactly` | crates/hippmem-engine/src/consolidate_api.rs:223-304 | after a reindex all links are valid exactly when each record was staged with valid links, against the tables rebuilt so far |
| `LinkRuns.StepKeepsValidExactly` | crates/hippmem-core/src/model/unit.rs:33 | each operation of the store keeps links deduplicated by (target, type) and free of self-loops exactly under its own condition: valid staged links, a consolidation harmless to every unit as above, none for feedback and deletes |
| `LinkRuns.LinksValidOverRuns` | crates/hippmem-core/src/model/unit.rs:33 | over any run from the empty store that writes summaries under fresh ids, the invariant holds at every prefix exactly when every operation on the way met that condition |
| `Reindexing.GroupsAppend` | crates/hippmem-consolidation/src/summarize.rs:83-97 | candidates of later ids join the group of the first leader they are near, and otherwise group among themselves |
| `Reindexing.ReindexIsPlain` | crates/hippmem-engine/src/consolidate_api.rs:287-302 | a reindex leaves every record live, active and unmarked, with its text and importance: which are summaries or compressed is forgotten |
| `Reindexing.ReplansExactly` | crates/hippmem-engine/src/consolidate_api.rs:81-105 | after marks are forgotten, planning creates nothing exactly when no group of the first pass, joined by the later records, qualifies |
| `Reindexing.PlanAfterReindex` | crates/hippmem-engine/src/consolidate_api.rs:223-304 | after a reindex of any sound store the plan is that of the logged records without marks, whatever was deleted, compressed or summarised |
| `Reindexing.ReplansAcrossReindexExactly` | crates/hippmem-engine/src/consolidate_api.rs:33-304 | from any sound store: consolidating, reindexing and consolidating again creates no summary exactly when no group of the logged records, joined by at most as many latecomers as there were summaries, qualifies and passes the gate |
| `Reindexing.StableAcrossReindexExactly` | crates/hippmem-engine/src/consolidate_api.rs:33-304 | in particular, from a store without marks the second consolidation creates no summary exactly when the first created none, for any gate that admits longer clusters and groups that stay mostly unimportant with the summaries among them |
| `Witnesses.ForwardDeleteLeavesRow` | crates/hippmem-engine/src/delete_api.rs:69-102 | writing two memories, the second linked to the first, and deleting second and first leaves an overlay row without a unit |
| `Witnesses.BatchDeleteLeavesLink` | crates/hippmem-engine/src/delete_api.rs:69-83 | deleting two memories that a third links to leaves the third with a link to a deleted one |
| `Witnesses.RedirectionCollides` | crates/hippmem-engine/src/consolidate_api.rs:123-141 | seven or more memories of one text are summarised, and a memory linked to two of them ends with two links of one (target, type) |
| `Witnesses.ConfirmationMakesLoops` | crates/hippmem-consolidation/src/hebbian.rs:151-178 | 4 to 64 memories are written, confirmed together and consolidated: each one without links ends with a link to itself |
| `Witnesses.DeletedComesBack` | crates/hippmem-engine/src/consolidate_api.rs:223-304 | after any run, deleting a live memory and reindexing makes it live again |
| `Witnesses.ReindexSummarisesAgain` | crates/hippmem-engine/src/consolidate_api.rs:223-304 | memories of one text, summarised once, are summarised again after a reindex |
| `Engine.Engine.PersistMemoryUnit` | crates/hippmem-store/src/kv.rs:343-453 | a refused duplicate changes nothing; otherwise log, kv, overlay and posting lists all hold the unit |
| `Engine.Engine.WriteInternal` | crates/hippmem-engine/src/write_api.rs:79-275 | persist, enrich and re-put amount to the write step whose invariants are proved |
| `Engine.Engine.AppendIds` | crates/hippmem-store/src/kv.rs:145-257 | the append loop posts the id once under each key |
| `Engine.Engine.ApplyUsage` | crates/hippmem-engine/src/feedback_api.rs:39-61 | the loop over the used ids, with the delta of the signal, amounts to the usage step |
| `Engine.Engine.StrengthenEdge` | crates/hippmem-engine/src/feedback_api.rs:115-170 | the double update of unit and overlay amounts to the strengthen step |
| `Engine.Engine.ConsolidateIncremental` | crates/hippmem-engine/src/consolidate_api.rs:33-204 | the whole consolidation from feedback records to stored summaries amounts to the consolidate step, for any load order, summarises exactly the groups the words decide, pairs within one hour, and succeeds exactly when the summaries' ids are fresh |
| `Engine.Engine.ConsolidateReindex` | crates/hippmem-engine/src/consolidate_api.rs:223-304 | clearing the tables and rewriting the log in id order amounts to the reindex step |
| `Engine.Engine.RemoveFromIndexes` | crates/hippmem-store/src/kv.rs:459-541 | the removal loop filters the id out of every posting list and drops the lists it empties |
| `Engine.Engine.DeleteMemory` | crates/hippmem-engine/src/delete_api.rs:38-102 | removing one id and its in-edges, by the snapshot, amounts to one delete step |
| `Engine.Engine.Delete` | crates/hippmem-engine/src/delete_api.rs:14-117 | the loop over the batch amounts to the delete step and counts the rows removed |
| `Seeds.AssignRanks` | crates/hippmem-retrieval/src/seeds.rs:195-212 | grouping by channel in any map order, sorting and numbering gives each seed the number of seeds of its channel ahead of it |
| `Seeds.ChannelRankOrder` | crates/hippmem-retrieval/src/seeds.rs:195-212 | ranks within a channel are distinct and follow score, ties going to the seed pushed first |
| `Seeds.RanksExactly` | crates/hippmem-retrieval/src/seeds.rs:195-212 | the rank is the number of seeds of the channel with a higher score, or as high a one and pushed earlier, so the best has rank 0 |
| `Seeds.RankAndDedup` | crates/hippmem-retrieval/src/seeds.rs:195-220 | sorting and retaining the first of each (id, channel) keeps exactly the seeds of lowest channel rank, best score first |
| `Seeds.KeptBeatsDuplicates` | crates/hippmem-retrieval/src/seeds.rs:214-220 | every pushed (id, channel) is kept, by a seed with the lowest rank and highest score among its duplicates |
| `Seeds.KeptOncePerChannel` | crates/hippmem-retrieval/src/seeds.rs:214-220 | one seed is kept per (id, channel), and ranks within a channel stay distinct |
| `Seeds.KeptByScore` | crates/hippmem-retrieval/src/seeds.rs:214-220 | the kept seeds come by falling score |
| `RankFusion.RrfFuse` | crates/hippmem-retrieval/src/seeds.rs:236-287 | for k > 0 each id gets the sum of its w/(k+rank) and the channel of its first largest contribution; otherwise its first largest raw score and that channel |
| `RankFusion.OneSeedFused` | crates/hippmem-retrieval/src/seeds.rs:259-268 | a single seed is worth its channel's weight over k plus its rank, and one never ranked counts as 99th |
| `RankFusion.FusedPermutes` | crates/hippmem-retrieval/src/seeds.rs:255-285 | the fused score does not depend on the order of the seeds |
| `RankFusion.ExtraChannelRaises` | crates/hippmem-retrieval/src/seeds.rs:259-268 | one more seed for an id raises its score exactly when its channel weighs positively |
| `RankFusion.OneTermPerChannel` | crates/hippmem-retrieval/src/seeds.rs:214-268 | after de-duplication an id has one term on a channel it was hit on, at its best rank there |
| `RankFusion.FusedFromHits` | crates/hippmem-retrieval/src/seeds.rs:195-268 | end to end, the fused score is the sum over all channels of one term at the best rank reached among the pushed hits |
| `Energy.TopLinksAreHeaviest` | crates/hippmem-retrieval/src/spreading.rs:236-244 | fan-out pruning takes as many links as allowed and leaves none heavier than one it takes |
| `Energy.MergeAssociatesExactly` | crates/hippmem-retrieval/src/spreading.rs:331-335 | merging energies is associative exactly for the weights 0 and 1 |
| `Energy.MergeKeepsThresholdExactly` | crates/hippmem-retrieval/src/spreading.rs:331-335 | merges of energies at or above the threshold stay there exactly when the merge weight is not negative (threshold above 0), at least -1 (threshold 0), or between -1 and 0 (threshold below 0) |
| `Energy.MergeBounds` | crates/hippmem-retrieval/src/spreading.rs:331-335 | a merge lies between the larger energy and the sum while the weight is in [0,1] |
| `Energy.PowerLaws` | crates/hippmem-retrieval/src/spreading.rs:252-256 | the decay counts once per hop: powers add up |
| `SpreadingEngine.SpreadMultiHop` | crates/hippmem-retrieval/src/spreading.rs:153-323 | whatever order the hash maps are listed in, results, energies, traces and merge count are those of the level-by-level run; the results come by falling energy, and equal ones in the order they were reached: earlier hop, then smaller id, seeds by fused score |
| `SpreadingEngine.SeedsExactly` | crates/hippmem-retrieval/src/spreading.rs:173-216 | the seeds are exactly the fused memories whose share of the best score, times the query match, raised by importance and capped, reaches the threshold, by falling score, then id, each with its channel in the trace |
| `SpreadingOrder.LevelsRanked` | crates/hippmem-retrieval/src/spreading.rs:301-306 | each later level lists its nodes by falling energy, equal ones by rising id |
| `SpreadingOrder.RankingOrder` | crates/hippmem-retrieval/src/spreading.rs:317-322 | the ranking goes by energy, then by length of the trace, then by id, seeds in their own order |
| `SpreadingEngine.SeedsOrderFree` | crates/hippmem-retrieval/src/spreading.rs:173-187 | the listing order of the fused-score map does not show in the seeds or the normalising maximum |
| `SpreadingEngine.SpreadRound` | crates/hippmem-retrieval/src/spreading.rs:232-295 | a round's maps hold for every node the in-order merge of its arrivals and the trace that is kept |
| `SpreadingEngine.SortedItemsAreLevel` | crates/hippmem-retrieval/src/spreading.rs:301-306 | any listing of the round's energies, sorted, is the next level |
| `SpreadingEngine.ReturnedNodesHavePaths` | crates/hippmem-retrieval/src/spreading.rs:153-323 | every returned node is returned once, was reached at one level, and carries a repetition-free path from a seed whose every step is one of the given links |
| `SpreadingRuns.FirstReach` | crates/hippmem-retrieval/src/spreading.rs:246-263 | a node enters at the first hop at which a surviving top link of the level before leads to it, and at no other |
| `SpreadingRuns.ResultsOnce` | crates/hippmem-retrieval/src/spreading.rs:307-321 | the result holds every node of every level up to the limit, each id once |
| `SpreadingRuns.TracesArePaths` | crates/hippmem-retrieval/src/spreading.rs:273-292 | a trace starts at a seed, crosses one real top link per step with hops 0, 1, 2, ... (modulo 256) through one node of each level, and ends at the node |
| `SpreadingRuns.TracesDoNotRepeat` | crates/hippmem-retrieval/src/spreading.rs:246-250 | no trace visits a node twice |
| `SpreadingRuns.TraceReplacedExactly` | crates/hippmem-retrieval/src/spreading.rs:282-291 | for every weight: a later path with no less energy replaces the trace exactly under weight zero or over energy zero, and one with less only under the one weight 1 - existing/arriving |
| `SpreadingRuns.FirstTraceKept` | crates/hippmem-retrieval/src/spreading.rs:282-291 | with positive weight and threshold the very first arrival's trace is kept, whatever energies follow |
| `SpreadingRuns.LeaderTraceKept` | crates/hippmem-retrieval/src/spreading.rs:282-291 | with a positive weight the trace of the first arrival that brings any energy is kept |
| `SpreadingRuns.StrongestTraceKeptExactly` | crates/hippmem-retrieval/src/spreading.rs:282-291 | for weights that are not negative the trace of a highest-energy arrival is kept exactly when the weight is zero or the first arrival with energy is a strongest one |
| `SpreadingRuns.ReturnedTraceStrongestExactly` | crates/hippmem-retrieval/src/spreading.rs:232-295 | over whole runs, a returned node carries the trace of a strongest arrival of its hop exactly under that condition |
| `SpreadingWitnesses.StrongerPathLost` | crates/hippmem-retrieval/src/spreading.rs:282-291 | with the default parameters, two seeds and one common neighbour: the neighbour is returned with the weaker path's trace although the other brings twice the energy |
| `SpreadingRuns.FewerHops` | crates/hippmem-retrieval/src/spreading.rs:224-321 | a run with fewer hops returns exactly the short-trace part of a longer run, in the same order |
| `SpreadingRuns.FewerHopsByRecord` | crates/hippmem-retrieval/src/spreading.rs:273-281 | the recorded eight-bit hop separates shorter from longer runs exactly when no later level wraps around, so for every limit up to 255 |
| `SpreadingWitnesses.LongChainWraps` | crates/hippmem-retrieval/src/spreading.rs:273-281 | on a row of more than 256 memories, with 256 or more hops, the recorded hop picks out no shorter run |
| `SpreadingRuns.StopsWhenEmpty` | crates/hippmem-retrieval/src/spreading.rs:224-227 | stopping at an empty frontier changes nothing |
| `SpreadingRuns.RoundEnergies` | crates/hippmem-retrieval/src/spreading.rs:258-272 | a reached node's energy is at least its largest arrival for a merge weight that is not negative, and at most the sum of its arrivals for one up to 1 |
| `SpreadingRuns.ArrivalEnergies` | crates/hippmem-retrieval/src/spreading.rs:246-263 | a surviving traversal brings source energy times strength, confidence, decay per hop and the factor of the link's type, within [0,1], to a new node, at or above the threshold |
| `SpreadingRuns.EnergiesReachThreshold` | crates/hippmem-retrieval/src/spreading.rs:252-256 | for any merge weight that is not negative, every returned energy is at least the propagation threshold |
| `SpreadingRuns.RunConserves` | crates/hippmem-retrieval/src/spreading.rs:224-316 | over a run merges plus newly reached nodes equal the surviving link traversals |
| `Traversal.Traverse` | crates/hippmem-engine/src/traverse_api.rs:9-113 | an unknown start is refused; otherwise, for a depth of 1 to 5 (0 acts as 1, more as 5), exactly the existing nodes within it are listed, once each, at their shortest distance over allowed links through existing units, and the edges are exactly those of the start and of every listed node above the limit, each recorded once |
| `Traversal.ShallowerTraversal` | crates/hippmem-engine/src/traverse_api.rs:9-113 | a traversal to a smaller depth lists exactly the part of the deeper one within that depth |
| `Traversal.DepthsAreDistances` | crates/hippmem-engine/src/traverse_api.rs:28-110 | once the queue is empty the recorded depths are exactly the distances up to the limit |
| `Traversal.EdgeMeaning` | crates/hippmem-engine/src/traverse_api.rs:40-88 | the edges of a node are exactly its own links (Outgoing), the links pointing at it (Incoming) or both, of the types asked for, each shown with all its data |
| `Traversal.IncomingIsReversedOutgoing` | crates/hippmem-engine/src/traverse_api.rs:48-60 | a node's incoming edges are its outgoing edges in the reversed graph |
| `Traversal.IncomingVisitsReversed` | crates/hippmem-engine/src/traverse_api.rs:48-60 | Incoming lists the same nodes at the same depths as Outgoing on the reversed graph |
| `Listing.List` | crates/hippmem-engine/src/list_api.rs:10-82 | a page shows the newest rows of the type older than the cursor, as many as fit a limit from 1 to 100, with the last id as next cursor exactly when some are left, and the total of the type |
| `Listing.InsertionPoint` | crates/hippmem-engine/src/list_api.rs:51-59 | binary search finds the place of a cursor whose row is gone |
| `Listing.RunListsOnce` | crates/hippmem-engine/src/list_api.rs:38-75 | following next_cursor to the end lists strictly descending ids and every id present throughout exactly once, whatever is inserted, deleted or changed in between, its own columns and the cursor's row included |
| `Listing.NothingInvented` | crates/hippmem-engine/src/list_api.rs:38-75 | every listed row was in the table when its page was made |
| `Listing.CursorsFall` | crates/hippmem-engine/src/list_api.rs:61-75 | each further call has a smaller cursor, by at least the page size |
| `Listing.EveryRunEnds` | crates/hippmem-engine/src/list_api.rs:61-75 | every run ends, even while rows are inserted |
| `Listing.DeletionRunLength` | crates/hippmem-engine/src/list_api.rs:61-75 | when rows are only deleted, n calls need more than n-1 full pages of rows at the start |
| `Listing.StaticRunListsAll` | crates/hippmem-engine/src/list_api.rs:38-75 | on an unchanging table the pages put together are the whole sorted listing |

## Left out

- Rounding, overflow and NaN of f32 and f64; the saturation of u32 activation counts at their maximum; ids are unbounded.
- redb, Tantivy and bincode internals, file handling, error mapping, and crashes between two transactions of one operation.
- The clearing of `activation_log` by a reindex: feedback records are a parameter of each consolidation.
- Embedders, extractors, rerankers, summarizer texts, and the OpenAI and Cohere clients: network calls or opaque functions.
- Tokenization, hashing and SimHash: token sets and keys are given.
- Question-type detection, keyword tables and boosts in `retrieve_api.rs`, and the conversion of hits to pushed seeds in `multi_channel_seeds`: heuristics and plain copying.
- String scanning in `time_query.rs`: only the numeric part after parsing is modelled.
- Vector and binary indexes, context-link posting lists, warnings, explain texts and metrics: only easy members.
- The background thread, CLI, gRPC skeleton, evaluation crate, write batches and dump.
- `apply_decay` and `compact_units` in `hebbian.rs`, the deprecated channel coefficients, `initial_energy`, and the older one-hop spreading.
- Link direction, evidence other than the note, and the weight text inside a co-activation note.
- Content, previews, stage and provenance of units beyond what the properties need; `Listing` keeps id, type, importance and edge count of a row.
- SpreadingRuns.StrongestTraceKeptExactly: for negative merge weights only each single merge is characterised (`SpreadingRuns.TraceReplacedExactly`), because no condition on the arrivals alone says which of them takes the trace last.
- `energy_map` in the spreading loop, which is written and never read; the `edges_removed` counter of a delete.
