# Verified models of WeKan's Go server

A Dafny 4.11 model of the parts of the server whose correctness needs an argument over all inputs or
all runs. `dafny verify dfyconfig.toml` checks everything.

- **Comparison of BSON values** (`Values`, `Comparison`, `ComparisonLaws`, `SortOrder`): the order behind
  `$max`, `$sort` and array minimum and maximum. Values are a recursive datatype, a double is NaN, an
  infinity or a real, and a Go panic is an outcome that the laws rule out.
- **Structural migrations** (`MigrationStore`, `SwimlaneStructure`, `SwimlaneLaws`, `SwimlaneMeaning`, `MergeLists`,
  `MergeLaws`, `MergeMeaning`): two multi-phase rewrites of boards, lanes, lists and cards, as methods on a mutable
  store that loop over snapshots going stale, each proved equal to a specification of the whole new store; the laws
  are about that specification and hold for every enumeration order and every choice of new ids. The two Meaning
  modules say what becomes of every lane, list, card and board in terms of their fields alone.
- **Event log** (`Sums`, `Folding`, `FoldingLaws`, `FoldingMeaning`, `Writer`, `Usage`, `Reporter`): the batch fold
  with its capped actor tables, the incremental writer with its cache and failures, the bounded accumulator, and the
  worker protocol as an interleaving state machine. `FoldingMeaning` says what a row holds in terms of its documents.
- **Login limiter** (`LoginLimiter`): begin and finish as a timed state machine over whole runs.
- **FerretDB command core** (`MutationGate`, `BulkInsert`): the gate around read/modify/write commands as an
  interleaving state machine, and the batching loop of insert.
- **Documents, paths and small transformations** (`Paths`, `Documents`, `Checklists`, `HanaEscape`).

`Optional` holds the option type they share.

Where the code and what one might expect of it differ, the code is modelled, an input shows the difference,
and the exact condition is proved:

- The swimlane migration leaves a dangling list id exactly on cards without a string board id
  (`SwimlaneLaws.DanglingLeftExactlyWithoutBoard`, `NullBoardCardStaysDangling`).
- The swimlane check can stay true after a run on boards whose cards are all in order, exactly for a board named
  "undefined" that has only lanes without a board id (`SwimlaneLaws.CheckIsCleanAfterRun`,
  `CheckStaysTrueOnUndefined`).
- The merge check can stay true after a run, exactly when a stamped board the run does not process had a mismatched
  archived list before it (`MergeLaws.CheckAfterRunSeesOnlyArchivedLists`, `CheckStaysTrueOnLeftover`).
- The filtering comparison can panic (`ComparisonLaws.ComparePanicsExactlyWhen`), and swapping its arguments does not
  always invert it when one of them is an array, the other a scalar or a document
  (`ComparisonLaws.CompareInvertsExactlyWhen`, `CompareAloneIsNotAntisymmetric`). The ordering comparison has neither
  flaw on values whose regexes compile.
- An ordered insert stops at the first refused document exactly when `BulkInsert.StopsThere` holds: the break of
  the fallback loop leaves only the inner loop (`BulkInsert.OrderedStopsExactlyWhen`, `OrderedMayGoOn`).
- Folding stored rows again can lose `firstAt` (`FoldingLaws.FirstAtSurvivesExactlyWhen`, `FirstAtIsLost`).
- `Document.Set` is commented as putting `_id` first; the code appends it like any other new field
  (`Documents.IdIsFirstExactlyWhen`, `IdComesSecond`).
- Path conflicts are decided on spellings, so `a.01` and `a.1` are accepted together (`Paths.SpellingsDisturb`,
  `OthersKeepTheirValueExactlyWhenApart`).
- With options so small that window or lockout is a single tick, the login limiter allows M+1 failures in a tick, not
  2M-1 (`LoginLimiter.FailureRateIsBounded`, `BoundIsReached`).

## Model

| member | source | states |
|---|---|---|
| Comparison.CompareArraysLoop | internal/compat/ferretdb/internal/types/compare.go:265-304 | the loop with its early returns decides two arrays as the recursive comparison does: first difference, else length |
| Comparison.CompareDocumentsLoop | internal/compat/ferretdb/internal/types/compare.go:310-354 | the loop over fields compares type, then key, then value of each field, and length last |
| Comparison.CompareArrayLoop | internal/compat/ferretdb/internal/types/compare.go:357-392 | an array against a non-array: the `result` and `comparable` bookkeeping of the loop computes the scan the laws are about |
| ComparisonLaws.CompareOrderNeverPanics | internal/compat/ferretdb/internal/types/compare_order.go:100-117 | on any two values whose regexes compile, at any nesting, the ordering comparison reaches neither the unsupported-order panic nor a NaN big float |
| ComparisonLaws.ComparePanicsExactlyWhen | internal/compat/ferretdb/internal/types/compare.go:240-262 | the filtering comparison of any two values panics if and only if, after nothing but equal fields or elements (unmatched ones against a non-array), it meets NaN and a number, or two regexes of which one does not compile |
| ComparisonLaws.ComparePanicsExactlyOnMixedNaN | internal/compat/ferretdb/internal/types/compare.go:240-262 | when all regexes compile that leaves one case: one operand is NaN and the other a number |
| ComparisonLaws.CompareOrderInverts | internal/compat/ferretdb/internal/types/compare_order.go:100-117 | swapping the arguments inverts the result, also inside nested documents and arrays |
| ComparisonLaws.CompareOrderComposes | internal/compat/ferretdb/internal/types/compare_order.go:100-117 | transitivity in the strong form: Equal is neutral on both sides and equal directions compose, for all triples of values |
| ComparisonLaws.NumbersByValue | internal/compat/ferretdb/internal/types/compare.go:254-262 | int32, int64 and double compare as the exact numbers they stand for, infinities included |
| ComparisonLaws.EqualExactlyOnNormalForms | internal/compat/ferretdb/internal/types/compare_order.go:100-117 | two values compare Equal if and only if they coincide after writing numbers as reals and regexes as compiled text |
| ComparisonLaws.TextDecidedAtFirstDifference | internal/compat/ferretdb/internal/types/compare.go:240-251 | strings and bytes: Less if and only if there is a first differing byte that is smaller, or a proper prefix |
| ComparisonLaws.ScalarsByTypeThenValue | internal/compat/ferretdb/internal/types/compare.go:91-223 | scalars: Less if and only if the declared type order says so or, within a type, the value is less (binary by length, subtype, content; false before true) |
| ComparisonLaws.ArraysDecidedAtFirstDifference | internal/compat/ferretdb/internal/types/compare.go:265-304 | arrays: Less if and only if elements are Equal up to a place where one is Less or has ended |
| ComparisonLaws.DocumentsDecidedAtFirstDifference | internal/compat/ferretdb/internal/types/compare.go:310-354 | documents: Less if and only if, up to some place, fields have one key and Equal values, and there the type is lower, or with equal types the key is less by its bytes, or with equal keys the value is Less, or the document has ended |
| ComparisonLaws.TypesInOrder | internal/compat/ferretdb/internal/types/compare_order.go:48-117 | null, NaN, number, string, document, array, binary, object id, boolean, date, timestamp, regex: each is Less than every later one, whatever the values |
| ComparisonLaws.FilterIsOrderOutsideArrays | internal/compat/ferretdb/internal/types/compare.go:47-64 | unless its first argument is an array, or NaN meets a number, the filtering comparison is the ordering one |
| ComparisonLaws.FlagsAddUp | internal/compat/ferretdb/internal/types/regex.go:68-85 | the flags of options written together are those of the parts, and none if a part has x |
| ComparisonLaws.FlagOfOption | internal/compat/ferretdb/internal/types/regex.go:70-80 | i, m and s are flags, x keeps the regex from compiling, and other letters say nothing |
| ComparisonLaws.RegexesCompareAsCompiled | internal/compat/ferretdb/internal/types/regex.go:82-88 | what is compared of a regex is its pattern, behind its flags in parentheses if it has any |
| ComparisonLaws.ArrayMatchesAnElement | internal/compat/ferretdb/internal/types/compare.go:357-392 | an array equals a non-array if and only if an element of the same type does; without such an element it is Less |
| ComparisonLaws.UnmatchedArrayByItsLast | internal/compat/ferretdb/internal/types/compare.go:357-392 | an array without a match compares as its last element does, and is Less when no element has the type of the other operand |
| ComparisonLaws.CompareInvertsExactlyWhen | internal/compat/ferretdb/internal/types/compare.go:47-64 | swapping the arguments inverts the filtering comparison if and only if both or neither is an array, or no element matches and the array, by its last element, is on the side its type puts it on |
| ComparisonLaws.CompareAloneIsNotAntisymmetric | internal/compat/ferretdb/internal/types/compare.go:47-64 | two concrete pairs, an array with a number and an array with a document, that the filtering comparison does not invert |
| SortOrder.Min | internal/compat/ferretdb/internal/types/array.go:152-166 | the loop returns an element no element is below |
| SortOrder.Max | internal/compat/ferretdb/internal/types/array.go:169-183 | the loop returns an element no element is above |
| SortOrder.SortComparesKeys | internal/compat/ferretdb/internal/types/compare_order.go:127-188 | the sort comparison never panics and is the comparison of sort keys (extreme element, nothing for an empty array), inverted when descending |
| SortOrder.SortInverts | internal/compat/ferretdb/internal/types/compare_order.go:127-188 | swapping the arguments inverts the sort comparison in both directions |
| SortOrder.SortComposes | internal/compat/ferretdb/internal/types/compare_order.go:127-188 | the sort comparison is transitive with Equal neutral, in both directions |
| SortOrder.EmptyArrayIsExtreme | internal/compat/ferretdb/internal/types/compare_order.go:147-163 | the empty array is strictly below everything ascending and strictly above descending |
| SortOrder.SortIgnoresElementOrder | internal/compat/ferretdb/internal/types/compare_order.go:165-174 | permuting the elements of an array never changes how it sorts |
| SortOrder.ArraysSortByExtremes | internal/compat/ferretdb/internal/types/compare_order.go:165-188 | arrays sort as any of their elements that none is below do, ascending, or any that none is above, descending; an array inside counts as one element |
| SortOrder.OthersSortByOrder | internal/compat/ferretdb/internal/types/compare_order.go:127-188 | values that are no arrays sort by the ordering comparison, and against an array like an array of one element |
| MigrationStore.SliceStable | internal/migrations/structure.go:276-276 | a permutation of its input, sorted by every order that the comparison follows; if the comparison itself is an order, elements that tie stay as they stood |
| SwimlaneStructure.StructuralLanes | internal/migrations/structure.go:150-168 | a live lane for exactly the boards that have one, the first by sort when the sort values are numbers, and the owner of every lane |
| SwimlaneStructure.CreateDefaultLanes | internal/migrations/structure.go:244-259 | every board ends with a default: its first live lane or a new one; other lanes are kept; the count is the number created |
| SwimlaneStructure.FillMissingLanes | internal/migrations/structure.go:260-266 | one update per board equals filling every laneless card of those boards at once; the count is the cards changed |
| SwimlaneStructure.RescueDanglingCards | internal/migrations/structure.go:267-318 | the nested loops over a growing store equal one rescue of every dangling card; new lists only where a board had none, with unused ids |
| SwimlaneStructure.MoveForeignCards | internal/migrations/structure.go:319-345 | the nested loops over stale snapshots equal moving every foreign card home at once |
| SwimlaneStructure.RunSwimlaneStructure | internal/migrations/structure.go:234-347 | the run equals its specification on the whole store and Fixed is exactly the lanes created plus the cards changed per phase |
| SwimlaneStructure.CheckSwimlaneStructure | internal/migrations/structure.go:171-230 | the check answers whether a card lacks a lane, a board has none, a list id dangles, or an unarchived card is in a missing or foreign lane |
| SwimlaneLaws.EveryBoardHasALiveLane | internal/migrations/structure.go:234-347 | afterwards every board has a visible lane and no lane was changed or removed |
| SwimlaneLaws.DanglingLeftExactlyWithoutBoard | internal/migrations/structure.go:283-318 | afterwards a card's list id dangles if and only if it did before and the card has no string board id |
| SwimlaneLaws.NullBoardCardStaysDangling | internal/migrations/structure.go:283-318 | a concrete store whose card keeps its dangling list id through every run |
| SwimlaneLaws.RescuedCardsStayOnTheirBoard | internal/migrations/structure.go:295-317 | a card whose list changed is in an existing list of its own board |
| SwimlaneLaws.NoCardWithoutALane | internal/migrations/structure.go:260-266 | every card of a board with a default lane ends with a non-empty lane, given that no board or lane id and no lane's board id is empty |
| SwimlaneLaws.UnarchivedCardsAreHome | internal/migrations/structure.go:319-345 | every unarchived card of such a board with a usable lane id is in an existing lane owned by its board, given non-empty ids |
| SwimlaneLaws.CheckIsCleanAfterRun | internal/migrations/structure.go:171-347 | when every card names an existing board and ids are not empty, the check is false after the run, except exactly when a board named undefined has only lanes without a board id |
| SwimlaneLaws.CheckStaysTrueOnUndefined | internal/migrations/structure.go:171-347 | such a store: the check is true before and after every run |
| SwimlaneLaws.CardsAreConserved | internal/migrations/structure.go:234-347 | no card is created, deleted, moved to another board or (un)archived |
| SwimlaneLaws.HealthyCardsAreUntouched | internal/migrations/structure.go:234-347 | a card with a live list and a lane of its own board, archived lanes included, is unchanged |
| SwimlaneLaws.ArchivedCardsKeepTheirLane | internal/migrations/structure.go:319-345 | an archived card changes only to fill a blank lane or to leave a missing list |
| SwimlaneLaws.SecondRunIsANoOp | internal/migrations/structure.go:234-347 | a second run, whatever order and ids it picks, changes nothing and reports 0, given non-empty ids |
| SwimlaneMeaning.CardsEndInTheirLane | internal/migrations/structure.go:260-345 | the lane of every card after a run, from the stores before and after: a lost card takes the stamp of the list it ends in, or for want of one the default of its board; a card without a lane takes the default; an unarchived card in a lane its board did not own goes to the default of its board |
| SwimlaneMeaning.RescuedExactlyWhenLost | internal/migrations/structure.go:267-318 | a card changes its list if and only if it names a missing one and has a string board id; the list is then one of its board |
| SwimlaneMeaning.TheFirstListIsTaken | internal/migrations/structure.go:276-282 | where the board had lists and all sort values are numbers, that list is an old one with the least sort value |
| SwimlaneMeaning.NewListsAreForTheLost | internal/migrations/structure.go:295-307 | a list is new only where a card was lost on a board without any list; it is plain and stamped with the default of that board |
| SwimlaneMeaning.OldListsAreKept | internal/migrations/structure.go:234-347 | every old list is as it was |
| SwimlaneMeaning.DefaultsShow | internal/migrations/structure.go:150-168 | a board gets a default if and only if it exists or has a visible lane; the default is a visible lane of it, an old one where there is one, and with numeric sort values the least |
| SwimlaneMeaning.NewLanesAreDefaults | internal/migrations/structure.go:244-259 | a lane is new only as the plain default of an existing board that had no visible lane |
| SwimlaneMeaning.FixedCounts | internal/migrations/structure.go:244-345 | Fixed is the lanes created, plus the cards given a lane, plus the lost cards, plus the cards brought home, given non-empty ids |
| SwimlaneMeaning.CheckAsks | internal/migrations/structure.go:171-230 | the four questions of the check, over the fields of the store |
| SwimlaneMeaning.IdsRead | internal/migrations/structure.go:28-34 | a field reads as an id if and only if it is that text, or null and the text null, or absent and the text undefined |
| MergeLists.MergeGroup | internal/migrations/structure.go:455-482 | one title: all lists but one are merged away, their cards relinked, one fix each; a shared list is kept before a stamped one, and the preferred one when the sort values and dates of that title are numbers |
| MergeLists.RunMergePerSwimlaneLists | internal/migrations/structure.go:398-495 | the run equals its specification on the whole store: which boards, which list of a title is kept (decided title by title), stamps and markers cleared, and Fixed |
| MergeLists.CheckMergePerSwimlaneLists | internal/migrations/structure.go:371-394 | the check answers whether a board is marked or a stamped board has duplicate titles or a mismatch, archived lists included |
| MergeLaws.CardsKeepTheirColumn | internal/migrations/structure.go:455-482 | a card of an existing list ends in an existing list with the same board, title and archived state; its lane is unchanged |
| MergeLaws.NothingElseDisappears | internal/migrations/structure.go:398-495 | cards are conserved; a list disappears only by being merged into one that stays |
| MergeLaws.SharedListsSurvive | internal/migrations/structure.go:460-469 | a shared list is merged only into a shared one; where the sort values and dates of a title are numbers no merged list would have been preferred to the kept one |
| MergeLaws.ProcessedBoardsAreClean | internal/migrations/structure.go:446-492 | a processed board has no two active lists of one title, no stamped list, no marker |
| MergeLaws.NoDuplicateTitlesLeft | internal/migrations/structure.go:398-495 | no board that carried a marker or a stamped list keeps two active lists of one title |
| MergeLaws.OtherBoardsAreUntouched | internal/migrations/structure.go:419-445 | boards without marker and symptom look the same afterwards |
| MergeLaws.SecondRunIsANoOp | internal/migrations/structure.go:398-495 | a second run changes nothing and reports 0 |
| MergeLaws.CheckAfterRunSeesOnlyArchivedLists | internal/migrations/structure.go:369-394 | after a run the check is true if and only if, before it, an archived list was mismatched on a stamped board that the run does not process |
| MergeLaws.CheckStaysTrueOnLeftover | internal/migrations/structure.go:371-445 | a concrete store on which the check is true after every run |
| MergeLaws.SwimlaneCheckIsUnaffected | internal/migrations/structure.go:171-230 | the merge leaves the answer of the swimlane check as it was |
| MergeMeaning.ProcessedExactlyWhen | internal/migrations/structure.go:398-445 | a run processes a board if and only if it is marked, or has a stamped list and either two lists in use of one title or a stamped list in use with a card in another lane |
| MergeMeaning.CheckAsks | internal/migrations/structure.go:371-394 | the questions of the check, over the fields of the store; the last one includes archived lists |
| MergeMeaning.GoneIntoAnother | internal/migrations/structure.go:446-482 | a list that goes was in use on a processed board, and goes into a list in use of the same board and title that stays |
| MergeMeaning.OneOfATitleStays | internal/migrations/structure.go:446-482 | of the lists in use of one title of a processed board one stays, and all others go into that one |
| MergeMeaning.TheRightOneStays | internal/migrations/structure.go:460-469 | the list that stays has no stamp if the one that goes has none; if both have one or neither has, it is older, or as old and not behind by sort, when the dates and sort values of that title are numbers |
| MergeMeaning.ListsEndAs | internal/migrations/structure.go:473-486 | every list that did not go is as it was, but that stamps of processed boards are emptied |
| MergeMeaning.BoardsEndAs | internal/migrations/structure.go:487-491 | processed boards end without markers, others as they were |
| MergeMeaning.CardsEndAs | internal/migrations/structure.go:470-476 | a card of a list that went names the list it went into, and every card is otherwise as it was |
| MergeMeaning.FixedCounts | internal/migrations/structure.go:398-495 | Fixed is the lists that went plus the stamps that were emptied |
| Folding.FoldEvents | internal/eventlog/summary.go:479-540 | records updated in place through a key index hold exactly the rows of the fold specification, in order; the input documents and their tallies are unchanged, and every tally of a row is a new object |
| Folding.Record.AddActorsOf | internal/eventlog/summary.go:422-474 | the two loops over stored tallies or derived actors compute the specified table, cap and overflow included |
| FoldingLaws.RowsInFirstEncounterOrder | internal/eventlog/summary.go:484-540 | one row per identity key in order of first encounter; no row exceeds 50 actors |
| FoldingLaws.RowsConserve | internal/eventlog/summary.go:422-534 | a row's count is the weight of its documents, and its actor counts plus overflow are what those documents contributed |
| FoldingLaws.CountsSumToWeights | internal/eventlog/summary.go:479-540 | the row counts sum to the input weights |
| FoldingLaws.RowDatesSpanDocuments | internal/eventlog/summary.go:520-533 | a row's first and last dates are dates of its documents and all others lie between |
| FoldingLaws.FoldingIsIncremental | internal/eventlog/summary.go:479-540 | folding stored rows (actors in any order) before new events gives the rows of folding everything at once: same keys and order, counts, actor tables, overflow |
| FoldingLaws.FirstAtSurvivesExactlyWhen | internal/eventlog/summary.go:500-516 | folding stored rows before new events gives a row the firstAt of folding everything at once if and only if the row has a last date and its firstAt equals it or is set again by a new event |
| FoldingLaws.FirstAtIsLost | internal/eventlog/summary.go:500-516 | two dated documents whose row loses its firstAt when it is folded again |
| FoldingMeaning.LatestFieldsAre | internal/eventlog/summary.go:479-540 | a field of a row has the value of the last document that gives it, and is absent if none does; a document gives its fields if it started the row, or is dated, the row was dated from its start, and it is not earlier than any document of the row before it |
| FoldingMeaning.RowDatesAre | internal/eventlog/summary.go:484-533 | the dates a row shows are the least and the greatest of its documents, and it shows none if and only if that of the document that started it is text that is no date |
| FoldingMeaning.ActorsAreTallied | internal/eventlog/summary.go:422-474 | the first fifty actors mentioned in the documents of a row have a tally each, which counts all their mentions; all other mentions, and stored overflow, are the overflow |
| FoldingMeaning.TallyDatesAre | internal/eventlog/summary.go:422-474 | every tally carries the latest date of the mentions of its actor, when all of these are after the start of 1970 |
| FoldingMeaning.TallyTakesDateExactlyAfterEpoch | internal/eventlog/summary.go:455-468 | of two events by one user, the first with text that is no date, the tally has the date of the second if and only if that is after the start of 1970 |
| FoldingMeaning.DocumentsCount | internal/eventlog/summary.go:496-499 | a document counts as much as it says if that is positive, and once otherwise |
| FoldingMeaning.KeysTellApart | internal/eventlog/summary.go:485-499 | documents share a row if and only if their identity fields read the same, an absent one like an empty one, as long as none holds the separator |
| FoldingMeaning.TwoEventsFolded | internal/eventlog/summary.go:243-268 | the row of two events, spelled out: user and address become actors under their keys, and the later fields win |
| FoldingMeaning.DocumentReads | internal/eventlog/summary.go:479-540 | what the fold reads of a document whose stored tallies are objects |
| FoldingMeaning.RecordReads | internal/eventlog/summary.go:479-540 | what a record updated in place says as a row |
| Writer.EventWriter.Fold | internal/eventlog/writer.go:51-148 | one call, with any of its failures, changes cache and collection as specified |
| Writer.EventWriter.ComputeUpdate | internal/eventlog/summary.go:269-297 | the loop with its shrinking room computes which actors are counted and what overflows |
| Writer.CacheNeverGoesStale | internal/eventlog/writer.go:101-146 | over any calls and failures every cached actor set equals the stored row's actors |
| Writer.RowsStayWithinCap | internal/eventlog/writer.go:101-146 | a row that starts within 50 actors never exceeds 50 |
| Writer.CapHolds | internal/eventlog/writer.go:101-146 | one call neither takes a row above the cap nor grows one that is above |
| Writer.OverflowOnlyWhenFull | internal/eventlog/summary.go:269-297 | an actor goes to the overflow only when the row's table is full |
| Writer.StepCounts | internal/eventlog/writer.go:117-147 | an update that was applied, reported or not, adds 1 to the count and its actors to the tallies; nothing else changes |
| Writer.RunCounts | internal/eventlog/writer.go:51-148 | over any run a row's count is the updates applied to it and actor counts plus overflow are the actors they mentioned |
| Writer.RowGainsActors | internal/eventlog/summary.go:269-297 | after an applied update the count is one more; the user and the address of the call count one more each if the row knew them or had room, and are overflow otherwise; other actors are as they were |
| Writer.CacheIsBounded | internal/eventlog/writer.go:73-100 | the cache never holds more than 500 rows |
| Writer.ForgottenExactlyWhen | internal/eventlog/writer.go:73-146 | a row leaves the cache if and only if its own update failed, or the cache was full when another row was read; the row of an update that went through is in it |
| Usage.UsageAccumulator.Add | internal/eventlog/usage.go:53-100 | keeps the state that the sequence of calls determines and answers whether the call has a row of its own |
| Usage.UsageAccumulator.DrainAt | internal/eventlog/usage.go:106-128 | returns the rows in first-call order and the overflow row, and empties the accumulator |
| Usage.UsageAccumulator.Size | internal/eventlog/usage.go:101-101 | the number of keys with a row |
| Usage.TrackedAreFirst | internal/eventlog/usage.go:73-99 | rows exist for exactly the first keys that fit under the limit, in order of first call |
| Usage.RowsCountCalls | internal/eventlog/usage.go:64-77 | a row counts every call of its key, also those after the limit was reached |
| Usage.NothingIsUncounted | internal/eventlog/usage.go:53-100 | row counts plus overflow are the number of named calls |
| Usage.DrainedAddUp | internal/eventlog/usage.go:106-128 | a drain's counts sum to the named calls, with at most one row more than the limit |
| Usage.RowDates | internal/eventlog/usage.go:64-98 | a row dates from its first call to its latest, and never gets a date if its first call had none |
| Usage.RowFieldsAre | internal/eventlog/usage.go:64-98 | name and user of a row are those of its first call; address and location are those of the last call that has any and was later than all before it, or else of the first |
| Usage.OverflowRowIs | internal/eventlog/usage.go:106-128 | a drain has one row more than there are keys if and only if calls overflowed; it counts them and dates from the first tracked call, or from now without one |
| Usage.KeysTellApart | internal/eventlog/usage.go:33-33 | calls share a row only with the same user and route, as long as user ids hold no NUL |
| Reporter.StepKeeps | internal/eventlog/reporter.go:72-160 | each atomic step of Add, Close, timer and worker keeps the accounting and the notice invariant |
| Reporter.EveryCallIsDrainedOnce | internal/eventlog/reporter.go:72-132 | in any interleaving the accepted calls are the drained windows followed by the pending one, each drain returned its own window's rows, and counts add up |
| Reporter.CloseLeavesNothing | internal/eventlog/reporter.go:86-94 | when the worker is done everything accepted was drained |
| Reporter.NoLostWakeUp | internal/eventlog/reporter.go:133-160 | a worker in its select, with calls recorded and no Add under way, has a wake token or a timer |
| Reporter.BacklogIsBounded | internal/eventlog/reporter.go:145-157 | a worker at rest, with no wake token and no Add under way, has fewer than 200 rows waiting |
| Reporter.FlushesExactlyWhen | internal/eventlog/reporter.go:145-157 | after a wake the worker drains at once if and only if 200 rows wait, and otherwise makes sure that a timer is set |
| Reporter.ClosingIsForGood | internal/eventlog/reporter.go:72-94 | once a run holds a Close the reporter is closed, and a closed reporter accepts nothing more |
| Reporter.CloseReturns | internal/eventlog/reporter.go:86-160 | after a close nothing is accepted, the worker always has a step, and each of its steps lowers a measure of at most 14 |
| LoginLimiter.Service.Begin | internal/api/api.go:244-271 | the sweep that deletes while iterating and the checks change the table as specified |
| LoginLimiter.Service.Finish | internal/api/api.go:272-288 | records a failure, starts a lockout or removes the entry as specified |
| LoginLimiter.FailureRateIsBounded | internal/api/api.go:244-288 | in any run any half-open interval as long as the shorter of window and lockout holds at most 2M-1 failures of a key since its last success, and at most M+1 when the interval is a single tick |
| LoginLimiter.BoundIsReached | internal/api/api.go:244-288 | for all options some run from the start reaches that bound |
| LoginLimiter.AtMostOneLoginPerKey | internal/api/api.go:266-270 | at most one login per key is under way, none during a lockout, and the table holds at most 10000 entries |
| LoginLimiter.LockoutIsKept | internal/api/api.go:247-251 | no step drops a lockout before it runs out, and begin refuses the key until then |
| LoginLimiter.LetThroughExactlyWhen | internal/api/api.go:244-271 | a login is let through if and only if its key has a retained entry that is neither busy nor locked, or has none and fewer than 10000 entries are retained; which entries are retained and what each is afterwards |
| LoginLimiter.LimitStartsLockout | internal/api/api.go:283-287 | the failure that reaches the limit starts a lockout of full length |
| LoginLimiter.FinishedExactly | internal/api/api.go:272-288 | success removes the entry; failure counts one more, and from the limit on locks the key for the full length from now; other entries are as they were |
| LoginLimiter.UnsetOptionsAre | internal/api/api.go:80-88 | options that are not positive become ten failures, a minute and a minute |
| MutationGate.StepKeeps | internal/compat/ferretdb/internal/handler/mutations.go:31-48 | every step of waiters, holders and cancellations keeps: one holder at most, slot full exactly then, store serial |
| MutationGate.InterleavingsAreSerial | internal/compat/ferretdb/internal/handler/mutations.go:31-71 | after any interleaving the store is that of the admitted tasks run one after another in acquisition order |
| MutationGate.AtMostOneHolder | internal/compat/ferretdb/internal/handler/mutations.go:31-48 | at any moment at most one task holds the gate |
| MutationGate.CancelledAfterAcquiring | internal/compat/ferretdb/internal/handler/mutations.go:34-39 | a waiter cancelled after acquiring is turned away and leaves gate and store free |
| MutationGate.GateNeverSticks | internal/compat/ferretdb/internal/handler/mutations.go:31-48 | while a task has not ended some task can step, and a release never blocks |
| MutationGate.NoIncrementIsLost | internal/compat/ferretdb/internal/handler/mutations.go:23-30 | a field that tasks only ever increment, whatever else they do, ends at its start value plus every completed increment |
| MutationGate.OnlyTheCancelledAreRejected | internal/compat/ferretdb/internal/handler/mutations.go:31-48 | in any run a task is turned away only after its own context ended |
| MutationGate.WritesAreGated | internal/compat/ferretdb/internal/handler/mutations.go:55-71 | the wrapped commands, spelled out, are those that write; every other handler is as it was |
| MutationGate.Commands.SerializeMutationCommands | internal/compat/ferretdb/internal/handler/mutations.go:50-71 | wraps each listed command that exists once and nothing else |
| BulkInsert.Collection.InsertAll | internal/compat/ferretdb/internal/backends/collection.go:204-231 | all documents or none |
| BulkInsert.FillBatch | internal/compat/ferretdb/internal/handler/msg_insert.go:90-145 | a batch holds the valid documents of its range with their indexes, flaws are recorded, and an ordered batch ends at a flaw |
| BulkInsert.InsertSingly | internal/compat/ferretdb/internal/handler/msg_insert.go:157-181 | the fallback tries documents one by one, an ordered one none after the first refused, and gives up at the first call that fails for another reason |
| BulkInsert.MsgInsert | internal/compat/ferretdb/internal/handler/msg_insert.go:82-198 | whatever batch calls fail: an unordered command equals one-by-one insertion for every batch size, or is a prefix of it when a single insertion fails; an ordered one equals its reference of rounds, or is broken off in one of them at the document whose call fails; n counts what was stored |
| BulkInsert.BatchIsOneByOne | internal/compat/ferretdb/internal/handler/msg_insert.go:91-181 | a batch, flaws first and valid documents after, does what one-by-one insertion of its range does |
| BulkInsert.StoredOrReported | internal/compat/ferretdb/internal/handler/msg_insert.go:183-198 | inserted plus reported is the number of documents; indexes strictly increase |
| BulkInsert.RefusedExactlyReported | internal/compat/ferretdb/internal/handler/msg_insert.go:118-177 | a document is reported, with its code, if and only if it is flawed or conflicts with one stored |
| BulkInsert.RefusedExactlyWhen | internal/compat/ferretdb/internal/handler/msg_insert.go:109-177 | a document is refused if and only if it is flawed, or its id (given or generated) or one of its unique entries is taken by one stored before it |
| BulkInsert.StoredComeFromDocuments | internal/compat/ferretdb/internal/handler/msg_insert.go:82-198 | whatever a command stores, also when it is broken off, comes from its unflawed documents, each at most once and in order, with the entries each had and the id it had or, without one, was given |
| BulkInsert.NewDocumentsAreStored | internal/compat/ferretdb/internal/handler/msg_insert.go:109-145 | a document without id, entries or flaw whose generated id differs from all others is stored under it and not reported, by an unordered command whatever happens to the others, and by an ordered one when all are such |
| BulkInsert.AcceptedAreStored | internal/compat/ferretdb/internal/handler/msg_insert.go:144-181 | every document not refused is stored |
| BulkInsert.StaysConflictFree | internal/compat/ferretdb/internal/backends/collection.go:204-213 | no two stored documents come to share an id or a unique entry |
| BulkInsert.OrderedStopsExactlyWhen | internal/compat/ferretdb/internal/handler/msg_insert.go:82-181 | when calls fail only for duplicates, an ordered command stores everything before its first refused document, and ends as one-by-one insertion up to it does if and only if StopsThere: that document is flawed, or its batch is the last and holds no flaw after it |
| BulkInsert.OrderedMayGoOn | internal/compat/ferretdb/internal/handler/msg_insert.go:177-180 | a concrete ordered command that reports its second document as a duplicate and stores its third |
| BulkInsert.FailedBatchCallGoesOn | internal/compat/ferretdb/internal/handler/msg_insert.go:150-181 | a concrete ordered command that stops at its first, flawed, document if the batch call over no document succeeds, and goes on if that call fails |
| Paths.GetByPath | internal/compat/ferretdb/internal/types/path.go:237-274 | the loop reads what the recursive definition reads, with the same error codes |
| Paths.NumeralsAreRead | internal/compat/ferretdb/internal/types/path.go:248-253 | a decimal numeral, with any zeros in front and a sign or none, is read as its number, and not at all outside 64 bits |
| Paths.OnlyNumeralsAreRead | internal/compat/ferretdb/internal/types/path.go:248-253 | nothing else is read as an index |
| Paths.NumeralReadsElement | internal/compat/ferretdb/internal/types/path.go:246-262 | reading at the numeral of n goes on in element n of an array, or fails as out of bounds, or as invalid beyond 64 bits |
| Paths.ReadingFailsAs | internal/compat/ferretdb/internal/types/path.go:237-274 | the error at the element where a path stops: a scalar, a name that is missing, no index or a negative one, an index past the end |
| Paths.IsConflictPath | internal/compat/ferretdb/internal/types/path.go:197-234 | no conflict if and only if neither path begins the other; otherwise, of the first earlier path that conflicts, an overwrite if the new path begins it, and else a collision at the rest of the new path |
| Paths.SetThenGet | internal/compat/ferretdb/internal/types/document.go:390-437 | after a successful set the same path reads the value |
| Paths.OthersKeepTheirValueExactlyWhenApart | internal/compat/ferretdb/internal/types/document.go:390-437 | a path that resolved keeps its value, whatever is set, if and only if the two paths part at different names of a document or different indexes of an array |
| Paths.AcceptedPathsDoNotDisturb | internal/compat/ferretdb/internal/types/path.go:197-234 | the same for paths accepted together; with indexes in canonical spelling they never disturb one another |
| Paths.SpellingsDisturb | internal/compat/ferretdb/internal/types/path.go:197-234 | `a.01` and `a.1` do not conflict and name one element |
| Paths.OnlyGapsAppear | internal/compat/ferretdb/internal/types/path.go:364-372 | besides the value only nulls in front of a new array element come into being |
| Paths.SettingSucceedsExactlyWhen | internal/compat/ferretdb/internal/types/path.go:322-392 | setting succeeds if and only if the path stops resolving at a document or at an array given an index |
| Paths.SettingFailsAs | internal/compat/ferretdb/internal/types/path.go:322-392 | the error otherwise: one without a code when only the last element is at fault, out of bounds for a negative index in an array, and a field that cannot be created in all other cases |
| Paths.NumeralSetsElement | internal/compat/ferretdb/internal/types/document.go:390-437 | setting at the numeral of n replaces element n, or sets inside it, and puts nulls before a new element |
| Documents.Document.constructor | internal/compat/ferretdb/internal/types/document.go:111-144 | counts field names as it copies the pairs |
| Documents.Document.Get | internal/compat/ferretdb/internal/types/document.go:300-317 | the value of the field, or nothing |
| Documents.Document.Set | internal/compat/ferretdb/internal/types/document.go:323-351 | replaces in place or appends; the name counts stay exact |
| Documents.Document.Remove | internal/compat/ferretdb/internal/types/document.go:355-371 | cuts the field and its count |
| Documents.Document.FindDuplicateKey | internal/compat/ferretdb/internal/types/document.go:259-271 | finds the first repeated name, none if and only if all differ |
| Documents.Document.MoveIDToTheFirstIndex | internal/compat/ferretdb/internal/types/document.go:469-498 | moves the first _id field to the front, the others keep their order |
| Documents.Document.InsertByPath | internal/compat/ferretdb/internal/types/path.go:322-392 | creates what setting an empty document at the path's beginning creates, or fails with the document unchanged |
| Documents.Document.SetByPath | internal/compat/ferretdb/internal/types/document.go:390-437 | the document becomes what the recursive set makes of it, or an error is returned and it is unchanged |
| Documents.SettingKeepsNamesUnique | internal/compat/ferretdb/internal/types/document.go:390-437 | field names stay unique at every depth |
| Paths.SetFieldKeepsOrder | internal/compat/ferretdb/internal/types/document.go:323-351 | setting a field keeps the order of the names, a new one comes last |
| Documents.IdIsFirstExactlyWhen | internal/compat/ferretdb/internal/types/document.go:318-351 | after setting _id it is the first name if and only if the document was empty or began with it; a new one is the last |
| Documents.IdComesSecond | internal/compat/ferretdb/internal/types/document.go:318-351 | a document with one field whose new _id comes second |
| Checklists.Collections.RunChecklistItemsEmbedded | internal/migrations/fields.go:211-278 | a run, complete or broken off anywhere, does to each checklist at most one attempt; if complete no items are left in any checklist and Fixed is the documents added |
| Checklists.Collections.CheckChecklistItemsEmbedded | internal/migrations/fields.go:208-210 | true if and only if some checklist holds a non-empty list of items |
| Checklists.AttemptsActAsOne | internal/migrations/fields.go:211-278 | any number of broken-off attempts does together no more than one |
| Checklists.ExactlyOnce | internal/migrations/fields.go:211-278 | once its embedded items are gone a checklist has exactly one document per entry, besides what it had before |
| Checklists.EntriesBecomeDocuments | internal/migrations/fields.go:224-260 | the document of an entry has its title, or Checklist for an empty one, its place in sort order as position, its finished flag, and the ids of checklist and card |
| Checklists.SortedIsStable | internal/migrations/fields.go:224-227 | entries come out ascending, equal ones in stored order |
| Checklists.KeysTellApart | internal/migrations/fields.go:279-290 | item keys agree if and only if title, position and finished flag do |
| HanaEscape.EscapingRoundTrips | internal/compat/ferretdb/internal/backends/hana/sjson_wrapper.go:26-42 | unescaping an escaped text gives it back, for every text |
| HanaEscape.EscapingEscapes | internal/compat/ferretdb/internal/backends/hana/sjson_wrapper.go:35-42 | an escaped text holds no bare dollar sign before a letter |
| HanaEscape.EscapingAddsUnderscores | internal/compat/ferretdb/internal/backends/hana/sjson_wrapper.go:35-42 | escaping adds one character for each dollar sign before a letter and none besides |
| HanaEscape.LettersAre | internal/compat/ferretdb/internal/backends/hana/sjson_wrapper.go:29-38 | the letters are a to z |
| HanaEscape.StoredTextSurvivesExactlyWhenEscaped | internal/compat/ferretdb/internal/backends/hana/sjson_wrapper.go:26-42 | escaping an unescaped text gives it back if and only if each such dollar sign followed an underscore |

## Left out

- Comparison: rounding inside doubles is not modelled (a finite double is a real), and Go's regexp parser is a flag per regex.
- Comparison.CompareArrayLoop: recursive calls go to the function Compare, so the loops are proved level by level.
- CompareOrderForOperator and the aggregation variant of Compare would only add wrappers around what is proved.
- Migrations: ids and titles are strings, null or absent; other BSON types of these fields and their text forms are not modelled.
- Migrations: database errors in mid-run, other writers during a run, and documents' fields that no branch reads are not modelled.
- MergeLists.MergeGroup: the relinking of the activities collection is not modelled; its errors are discarded by the code.
- MigrationStore.SliceStable: where a comparison is no order, as on sort keys that are no numbers, the result beyond the permutation and the orders it follows is the library's choice.
- Folding: counts are real numbers, dates integers, SHA-256 is injective; coercion of other BSON types is not modelled.
- Folding.FoldEvents: the tallies of stored documents are objects, their other nested values are not, and no branch writes to those.
- FoldingLaws.FoldingIsIncremental: `firstAt` is not among what is preserved (FirstAtSurvivesExactlyWhen says when it is), and latest fields are preserved except for rows without a valid date, because the code does not preserve them.
- FoldingMeaning.TallyDatesAre: speaks of dates after the start of 1970, because the code takes a tally whose date was unreadable for one of that moment (TallyTakesDateExactlyAfterEpoch).
- Writer.EventWriter.Fold: the user name lookup and its cache, the set-on-insert fields and the mutual exclusion of calls are not modelled.
- Usage.UsageAccumulator.Add: user, route, address and location are strings, and dates integers, so that "later" is a comparison of integers.
- Usage.UsageAccumulator.DrainAt: the text of the overflow row's name is a parameter.
- Reporter.StepKeeps: what a flush does with the drained rows (name lookup, folding, giving up on an error) happens after the drain and is not modelled.
- LoginLimiter.Service.Begin: bcrypt, the HTTP handlers and the choice of the client key are not modelled; time is the caller's integer clock.
- MutationGate.InterleavingsAreSerial: a command is a number of rounds of reading a snapshot and writing replacements; its own logic is an arbitrary function.
- BulkInsert.MsgInsert: validation is a verdict per document, generated object ids are an arbitrary function of the index, and message texts are left out.
- Documents.Document.SetByPath: nested documents and arrays are values, so aliasing between documents is not captured; names must be unique, as reading by path panics otherwise.
- Paths: validation of path elements and RemoveByPath are not modelled; the latter checks only the upper bound of an index.
- Checklists.Collections.RunChecklistItemsEmbedded: generated ids and time stamps are left out; positions follow insertion sort when sort values are no numbers.
- HanaEscape: the SJSON encoding around it is not modelled.
- HTTP routing, configuration, dashboards, scripts, cursors, sort and limit iterators, the oplog notifier and the simple field backfills.
