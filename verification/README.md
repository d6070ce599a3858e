# Verified model of the discovery experiments

The repository runs expensive physical experiments that must not be silently repeated, lost or counted twice. This project
models its ledgers, its crash and resume protocols, its independent auditors and its fail-closed mappings, and proves what
they promise. Numerical learning and benchmark physics are abstract functions or nondeterministic outcomes.

## What is modelled

- **Training with crashes** (`EsPlan`, `EsFold`, `EsStorage`, `EsIntegrity`, `CheckpointNames`, `EsDriver`,
  `CheckpointRetention`, `EsHistory`). The directory is a value that survives; the driver object does not. A process can
  stop after every durable write. The invariant has three parts: an ordering part (at most one execution per slot) and an
  integrity part (the committed files agree with each other and pass the loader) hold even when the tensor arithmetic is not
  reproducible; a refinement part (every committed file is the pure fold of the recorded results) holds when it is.
  Retirement of redundant tensors extends the same state.
- **Emitted JSON** (`JsonText`, `JsonNumber`, `JsonGrammar`, `JsonSpans`, `JsonRoundTrip`, `JsonFacts`, `JsonBlanks`,
  `JsonParser`). Concrete syntax with explicit blanks is the reference; the parser is proved sound and complete against it,
  as a function and as the object that moves a cursor.
- **Token targets** (`ActionTargets`, `TargetBuilder`, `TargetFacts`, `TargetMeaning`, `TargetStability`). The decoder is an arbitrary function;
  some results need it to be concatenative.
- **Attempt ledger and auditor** (`AttemptLedger`, `RunLedger`, `AttemptAudit`, `ResultVerification`). A transaction is one atomic
  step, workers interleave, and verifying a file is a separate step before the transaction. `Counters` is Python's Counter.
- **Final evaluation** (`CoreFinal`). One attempt per job over any number of processes.
- **Split construction** (`ChemicalSystems`, `Reservoir`, `MadeSplits`). Uniformity of the sample and of the shuffle is counted over all outcome
  sequences of the random source.
- **Hash cache** (`HashCache`). Other processes act between any two system calls.
- **Adapters** (`OracleAccounting`, `CandidateBuffer`), **seeds** (`SeedPacking`) and **evolution checkers**
  (`EvolutionEvidence`).

Where a method and its specification use the same small function, that function is also characterised apart from its body:
averages by running totals, escapes by code points, digits by repeated division, combinations by index sequences, checks by
what passing them means.

Exceptions are `Outcome` values; `Wrappers` holds the shared result types and `Ordering` Python's order on strings and tuples.

## Where the code does less than its description

- A process that stops between writing `run_manifest.json` and the generation-0 marker leaves a directory that can neither
  start (it has a manifest) nor resume (it has no checkpoint); so does a failure before the manifest, which leaves an event
  log behind (`EsHistory.StuckDirectory`). `EsHistory.StuckIff` says which directories these are, and `EsHistory.History`
  that they stay so.
- Checkpoint folders are sorted by name with four padded digits. A run with more than 10000 committed checkpoints finds
  generation 10000 at position 1001 and refuses to resume; with fewer, name order is numeric order
  (`CheckpointNames.TenThousandIsMisplaced`, `CheckpointNames.NameOrderIsNumeric`).
- An exception raised inside the process after the complete record was written, and before the call returns, replaces that
  record by an unknown outcome (`EsStorage.CompleteRecordCanBeLost`); otherwise it survives (`EsStorage.CompleteSurvivesIff`).
  At-most-once holds either way, and complete records are immutable from one call to the next.
- The blanks the parser skips are Python's `isspace`, wider than section 2 of RFC 8259: `JsonBlanks.WiderBlank` is a text,
  `JsonBlanks.RfcExactly` the condition.
- The final evaluation makes a job directory and then the attempt directory inside it. A process killed in between leaves a
  tree that every later process refuses as foreign output (`CoreFinal.HalfMadeIsReachable`, `CoreFinal.RefusedIffHalfMade`).
- `resume_plan` re-reads a row after quarantining it. If another worker reconciles the job to success between those two
  reads (`AttemptLedger.RacingReconciliation`), the plan has no list for it and the call raises; `RunLedgers.RunLedger.Resume`
  returns a plan whenever nobody records a success meanwhile.
- For a concatenative decoder the mapper still fails when a special token stands inside a value; that is the only reason
  (`TargetStability.IncompleteIffSpecialInside`).
- Selecting by position with a scorer sorts the group first, so the position can mean another candidate than the listing
  showed (`CandidateBuffer.PositionsKeepIffOrdered`, `CandidateBuffer.PositionCanMove`).

## Model

| member | source | states |
|---|---|---|
| `EsPlan.DrawPopulation` | `src/matdiscovery/es_training.py:327-332` | the rejection loop draws one generation of perturbation seeds that are new over the whole plan, each the next stream value that was not used before, and finds them whenever the stream keeps yielding fresh seeds |
| `EsPlan.MakePlan` | `src/matdiscovery/es_training.py:319-341` | every generation gets fresh seeds, its sigma, a sample of distinct cases, one environment seed per case, the schedule of development sweeps and the shared development seeds, each from the stream and the place the code draws it from; perturbation seeds are pairwise distinct over the plan |
| `EsPlan.DrawEntry` | `src/matdiscovery/es_training.py:333-339` | one generation takes its sigma, its cases and its environment seeds from its own draws |
| `EsPlan.PlanAccounting` | `src/matdiscovery/es_training.py:363-373` | planned slots are pairwise distinct, so are their request ids, and their number is the closed-form expected count of the final accounting |
| `EsPlan.DevSweepsClosedForm` | `src/matdiscovery/es_training.py:339` | the number of development sweeps is the number of multiples of the interval plus the last generation when it is not one |
| `EsPlan.CandidatePosition` | `src/matdiscovery/es_training.py:595-607` | each training slot follows exactly the slots executed before it |
| `EsPlan.DevPosition` | `src/matdiscovery/es_training.py:650-654` | each development slot follows all training slots of its generation and the earlier cases of its sweep |
| `EsFold.FoldFrame` | `src/matdiscovery/es_training.py:591-665` | the state after k generations depends only on the recorded results of the first k plan entries |
| `EsFold.GenerationIsStep` | `src/matdiscovery/es_training.py:624-665` | the bookkeeping of one generation, partly before and partly after the development sweep, is one step of the fold |
| `EsFold.MeanIsAverage` | `src/matdiscovery/es_training.py:624` | a mean times the number of measurements is the last running total of the measurements |
| `EsFold.MeanOfParts` | `src/matdiscovery/es_training.py:624` | one measurement is its own mean, and the mean of two joined lists weighs each by its length |
| `EsFold.AdvanceMeasured` | `src/matdiscovery/es_training.py:624-665` | one generation records for each candidate the metrics of its cases and their average, the same for the development cases, the update from and to the recorded weights, and a new best exactly on a greater development average |
| `EsFold.FoldIsTrained` | `src/matdiscovery/es_training.py:591-665` | each step of the fold is such a trained generation, with the weights the optimizer computes from the recorded fitness |
| `EsStorage.WriteInOrder` | `src/matdiscovery/es_training.py:466-468` | writing the newest job file keeps: records in plan order, only the newest unfinished, nothing executed without a record or twice |
| `EsStorage.WriteRefines` | `src/matdiscovery/es_training.py:412-425` | the same write leaves every committed file equal to the fold and every recorded weight hash the one its slot asks for |
| `EsStorage.CompleteSurvivesIff` | `src/matdiscovery/es_training.py:466-488` | a complete record survives the call that writes it exactly when no exception follows the write |
| `EsStorage.CompleteRecordCanBeLost` | `src/matdiscovery/es_training.py:424-484` | the loss is possible: the complete record and the unknown outcome that replaces it are both durable states in order |
| `EsStorage.MarkerCommits` | `src/matdiscovery/es_training.py:496-519` | writing the marker last advances the committed chain by exactly one generation |
| `EsStorage.MarkerRefines` | `src/matdiscovery/es_training.py:516` | a checkpoint whose files are the folded ones may be committed |
| `EsStorage.RefinedFolderReadable` | `src/matdiscovery/es_training.py:525-538` | every committed folder passes the loader, and a missing tensor is covered by the receipt |
| `EsStorage.FoldAccepted` | `src/matdiscovery/es_training.py:554-572` | what the fold produces passes every check of the loader, including its recomputation of the best generation |
| `EsStorage.AcceptedMeans` | `src/matdiscovery/es_training.py:553-572` | records are accepted exactly when each repeats the optimizer's step under the plan's seeds and sigma, its development mean is the average of all agreed cases, and the best generation is the earliest one with the greatest mean |
| `EsStorage.ReadableMeans` | `src/matdiscovery/es_training.py:525-538` | a readable folder has the marker's digests, or misses a tensor that the finished run's receipt retired under this very marker |
| `EsStorage.BestIsEarliestMaximum` | `src/matdiscovery/es_training.py:660-663` | the strict-improvement choice is the greatest development mean, the earliest one on a tie |
| `EsStorage.FinalBest` | `src/matdiscovery/es_training.py:754-755` | a complete run always has a best generation inside the schedule |
| `EsStorage.CompleteLedger` | `src/matdiscovery/es_training.py:667-677` | once every planned slot has a result, the job files are exactly the planned slots |
| `EsStorage.FoldRequests` | `src/matdiscovery/es_training.py:673-676` | the request ids collected from the committed records are exactly the planned slots |
| `EsStorage.Unresolved` | `src/matdiscovery/es_training.py:437-439` | a job file without a result is the newest one and belongs to the generation under way |
| `EsIntegrity.AdvanceIntact` | `src/matdiscovery/es_training.py:624-665` | whatever the arithmetic did, one trained generation turns a state the loader accepts into another one that extends it |
| `EsIntegrity.IntactMarker` | `src/matdiscovery/es_training.py:496-519` | the marker of such a state keeps every committed generation readable and chained to its predecessor |
| `EsIntegrity.IntactUnlink` | `src/matdiscovery/checkpoint_retention.py:138-144` | removing a tensor the receipt names keeps every committed generation readable |
| `EsIntegrity.NeededTensorsStay` | `src/matdiscovery/checkpoint_retention.py:57-63` | the newest tensor, and the best one of a finished run, are always present with the marker's hash |
| `EsIntegrity.RecordedWeightsArePinned` | `src/matdiscovery/es_training.py:540-560` | the record of generation k in any later checkpoint ends with the weights the marker of k pins |
| `EsIntegrity.AcceptedBest` | `src/matdiscovery/es_training.py:565-572` | a complete accepted schedule has a best generation inside it |
| `CheckpointNames.NameInjective` | `src/matdiscovery/es_training.py:361` | different generations have different folders |
| `CheckpointNames.NameOrderIsNumeric` | `src/matdiscovery/es_training.py:522` | below ten thousand, the order of the padded names is the order of the generations |
| `CheckpointNames.AheadOfTenThousand` | `src/matdiscovery/es_training.py:522` | exactly the generations up to 1000 are sorted ahead of generation 10000 |
| `CheckpointNames.SortedByName` | `src/matdiscovery/es_training.py:522` | the markers in the order of their folder names |
| `CheckpointNames.ListedNumerically` | `src/matdiscovery/es_training.py:525-539` | up to 10000 checkpoints the listing is numeric, so its last entry is the newest |
| `CheckpointNames.TenThousandIsMisplaced` | `src/matdiscovery/es_training.py:525-529` | with more, generation 10000 stands at position 1001 |
| `CheckpointNames.FifthDigitBreaksTheOrder` | `src/matdiscovery/es_training.py:361` | the concrete pair: generation_10000 is sorted ahead of generation_1001 |
| `EsDriver.ESTrainingDriver.WriteJob` | `src/matdiscovery/es_training.py:412-425` | one atomic durable replacement of a job file keeps the durable invariant and changes nothing else |
| `EsDriver.ESTrainingDriver.ReuseResult` | `src/matdiscovery/es_training.py:443-465` | a slot with a record is answered from it or recovered read-only, is never executed, and halts exactly when it was recorded under other weights |
| `EsDriver.ESTrainingDriver.ExecuteSlot` | `src/matdiscovery/es_training.py:466-488` | a fresh slot is recorded before it is executed, executed at most once, and left with exactly the record its course determines; stopping is possible after every write |
| `EsDriver.ESTrainingDriver.TryEvaluation` | `src/matdiscovery/es_training.py:472-477` | the guarded part: a complete record is written only after an execution, and an exception can still follow it |
| `EsDriver.ESTrainingDriver.EvaluateRequest` | `src/matdiscovery/es_training.py:442-488` | execution happens only for a slot without a record; a returned value is the recorded one; earlier complete records stay |
| `EsDriver.ESTrainingDriver.EvaluateCandidate` | `src/matdiscovery/es_training.py:603-612` | the metrics of one candidate are those of its recorded slots, in order |
| `EsDriver.ESTrainingDriver.EvaluatePopulation` | `src/matdiscovery/es_training.py:595-627` | all candidates are measured in plan order and their metrics are those recorded |
| `EsDriver.ESTrainingDriver.EvaluateDevelopment` | `src/matdiscovery/es_training.py:650-659` | the sweep measures every agreed development case under the updated weights |
| `EsDriver.ESTrainingDriver.SelectBest` | `src/matdiscovery/es_training.py:650-663` | the best generation changes exactly when the average of the measured development metrics exceeds the best so far |
| `EsDriver.ESTrainingDriver.Commit` | `src/matdiscovery/es_training.py:496-519` | four files are written one by one and the marker last; a finished commit is exactly the live state, and other generations stay as they were |
| `EsDriver.ESTrainingDriver.WriteFiles` | `src/matdiscovery/es_training.py:501-511` | the three pinned files are written one by one beside all other generations; leftovers of an interrupted commit are overwritten |
| `EsDriver.ESTrainingDriver.WriteMarker` | `src/matdiscovery/es_training.py:512-516` | only the marker makes the generation count, and then its files are the folded ones |
| `EsDriver.ESTrainingDriver.TrainGeneration` | `src/matdiscovery/es_training.py:591-665` | a generation ends with one more committed checkpoint: each fitness is the average of that candidate's recorded slot metrics, the best follows the development average, and with reproducible arithmetic the state equals the fold |
| `EsDriver.ESTrainingDriver.CheckRecords` | `src/matdiscovery/es_training.py:553-572` | the loop over committed records accepts exactly the acceptable ones |
| `EsDriver.ESTrainingDriver.LoadCommitted` | `src/matdiscovery/es_training.py:521-575` | over the name-sorted markers, loading restores the newest committed state; it refuses exactly a directory without a checkpoint and one with more than 10000, and never finds corruption |
| `EsDriver.ESTrainingDriver.CollectRequests` | `src/matdiscovery/es_training.py:673-675` | the set of request ids of all committed records |
| `EsDriver.ESTrainingDriver.Summarise` | `src/matdiscovery/es_training.py:667-703` | a summary exists only when the ledger is exactly the plan, all complete; it is read off the last checkpoint and is the fold of the results |
| `EsDriver.ESTrainingDriver.Begin` | `src/matdiscovery/es_training.py:713-744` | a session gets to work exactly in the directories that show it can start; any other is left as it was |
| `EsDriver.ESTrainingDriver.Run` | `src/matdiscovery/es_training.py:705-777` | every session keeps the invariant, complete records and executed slots; no check against corruption can fire, even with irreproducible arithmetic; a finished run is determined by its recorded results |
| `EsDriver.ESTrainingDriver.ReconcileResult` | `src/matdiscovery/es_training.py:427-440` | an external result fills an unfinished record, never overwrites a complete one, and executes nothing |
| `CheckpointRetention.WholeCommit` | `src/matdiscovery/checkpoint_retention.py:50-63` | a generation passes the checks exactly when its folder is one whole commit of its marker |
| `CheckpointRetention.RetentionTool.ValidatedCompletion` | `src/matdiscovery/checkpoint_retention.py:35-64` | a call is refused exactly for an unfinished run or by a failing callback; the best and final tensors are then present |
| `CheckpointRetention.RetentionTool.BuildRows` | `src/matdiscovery/checkpoint_retention.py:119-129` | every generation that is not retained gets a row with the marker's hashes, after its tensor was verified |
| `CheckpointRetention.RetentionTool.CommitReceipt` | `src/matdiscovery/checkpoint_retention.py:130-137` | the receipt is durable before any deletion and changes nothing else |
| `CheckpointRetention.RetentionTool.Unlink` | `src/matdiscovery/checkpoint_retention.py:139-144` | only a tensor named by the committed receipt can be removed |
| `CheckpointRetention.RetentionTool.RemoveRetired` | `src/matdiscovery/checkpoint_retention.py:138-144` | the loop removes exactly the tensors the receipt names, also when an earlier call was interrupted |
| `CheckpointRetention.RetentionTool.Authorize` | `src/matdiscovery/checkpoint_retention.py:111-137` | an existing receipt is rechecked and kept, otherwise a new one is committed |
| `CheckpointRetention.RetentionTool.Retire` | `src/matdiscovery/checkpoint_retention.py:96-149` | whatever was interrupted before and whatever the arithmetic did, a returning call reaches the one end state, and a finished run can only be kept from it by a stop or a failing callback |
| `EsHistory.RetentionSafe` | `src/matdiscovery/checkpoint_retention.py:67-93` | whatever the arithmetic did, each committed tensor is present with the marker's hash or covered by the receipt; best and final stay |
| `EsHistory.History` | `src/matdiscovery/es_training.py:250-266` | over any sequence of sessions, crashes, reconciliations and retirements no slot is executed twice and complete records stay; a stuck directory stays stuck and nothing is executed in it |
| `EsHistory.FreshHistory` | `src/matdiscovery/es_training.py:250-266` | the same from an empty directory: no slot is executed twice and every committed generation passes the loader |
| `EsHistory.StuckIff` | `src/matdiscovery/es_training.py:716-722` | what the directory shows when neither a fresh nor a resumed session can get to work in it |
| `EsHistory.StuckDirectory` | `src/matdiscovery/es_training.py:736-743` | two stops of a fresh session reach such a directory: between manifest and first marker, and between event log and manifest |
| `EsHistory.FinishedRunsAgree` | `src/matdiscovery/es_training.py:591-765` | two finished runs with equal recorded results have equal checkpoints, best generation, summary and receipt |
| `JsonText.SkipExactly` | `src/matdiscovery/action_targets.py:102-105` | skipping stops exactly behind the blanks |
| `JsonText.StringSound` | `src/matdiscovery/action_targets.py:119` | what the strict string scanner accepts is a rendering of string pieces with that value, surrogate pairs joined |
| `JsonText.StringComplete` | `src/matdiscovery/action_targets.py:147` | every rendering of string pieces is scanned back to its value and end |
| `JsonText.PlainCharacters` | `src/matdiscovery/action_targets.py:147` | the quote ends a string, any other character from the space upwards stands for itself, control characters are refused |
| `JsonText.OneLetterEscapes` | `src/matdiscovery/action_targets.py:147` | the eight one-letter escapes with their code points; no other letter but u may follow a backslash |
| `JsonText.UnitEscape` | `src/matdiscovery/action_targets.py:147` | four hexadecimal digits of n, by repeated division by 16, scan to n |
| `JsonText.PairEscape` | `src/matdiscovery/action_targets.py:147` | the surrogate pair of n scans to the one code point n, for every n above 0xFFFF |
| `JsonText.BrokenEscape` | `src/matdiscovery/action_targets.py:147` | a u escape without four hexadecimal digits is refused |
| `JsonText.BlankCodes` | `src/matdiscovery/action_targets.py:102-105` | the blanks that are skipped, and the four of the RFC, code point by code point |
| `JsonNumber.NumberSound` | `src/matdiscovery/action_targets.py:150` | what the number scanner accepts is a number lexeme at that place |
| `JsonNumber.NumberComplete` | `src/matdiscovery/action_targets.py:150` | every delimited number lexeme is scanned back whole |
| `JsonNumber.NumberMeans` | `src/matdiscovery/action_targets.py:150-155` | an integer lexeme is the number its digits spell by repeated division by 10; any other is the decimal moved by its places and its exponent |
| `JsonNumber.LimitOfDoubles` | `src/matdiscovery/action_targets.py:153-155` | the bound is 2^1024 - 2^970, from which on a decimal rounds to no finite double |
| `JsonNumber.AcceptedNumbers` | `src/matdiscovery/action_targets.py:150-155` | accepted are all integers, and the decimals below that bound in magnitude |
| `JsonSpans.Parse` | `src/matdiscovery/action_targets.py:107-156` | termination of the recursion: a value ends behind its start and inside the text |
| `JsonSpans.ParseSound` | `src/matdiscovery/action_targets.py:107-156` | whatever is accepted renders well-formed syntax without repeated keys, and value, end, leaf spans and key spans are those of that syntax |
| `JsonRoundTrip.ParseComplete` | `src/matdiscovery/action_targets.py:107-156` | every whitespace-interleaved rendering of duplicate-free syntax parses to its value, its end and its spans |
| `JsonFacts.AcceptsExactlyRenderings` | `src/matdiscovery/action_targets.py:107-156` | for objects, arrays and strings acceptance is exactly being a rendering, which fixes the result |
| `JsonFacts.StringParses` | `src/matdiscovery/action_targets.py:146-149` | a quoted string parses to what the string scanner reads, with one leaf between the quotes |
| `JsonFacts.EscapeParses` | `src/matdiscovery/action_targets.py:146-149` | a string of one one-letter escape parses to exactly its code point, or is refused |
| `JsonFacts.PairParses` | `src/matdiscovery/action_targets.py:146-149` | a string of one surrogate pair parses to exactly the code point it encodes |
| `JsonFacts.ParseIsLocal` | `src/matdiscovery/action_targets.py:107-156` | a successful parse of an object, array or string depends on nothing behind its end |
| `JsonFacts.ObjectEndsInBrace` | `src/matdiscovery/action_targets.py:112-115` | an accepted object ends with its closing brace |
| `JsonFacts.ParsedSpansInOrder` | `src/matdiscovery/action_targets.py:99-100` | recorded keys and leaves are in order, apart from each other, and inside the value |
| `JsonFacts.ParsedLeavesRead` | `src/matdiscovery/action_targets.py:147-156` | each leaf path leads to exactly the scalar that the characters of its span decode to |
| `JsonFacts.EveryScalarHasOneLeaf` | `src/matdiscovery/action_targets.py:120-121` | every scalar of the value has exactly one leaf, because repeated keys are refused |
| `JsonBlanks.BlanksAgree` | `src/matdiscovery/action_targets.py:102-105` | a text determines the blanks of its syntax |
| `JsonBlanks.RfcExactly` | `src/matdiscovery/action_targets.py:102-105` | an accepted object, array or string is a text of RFC 8259 exactly when every blank of its syntax is one of the four of section 2 |
| `JsonBlanks.WiderBlank` | `src/matdiscovery/action_targets.py:102-105` | a no-break space between braces is accepted, although the RFC has no such text |
| `JsonParser.JSONSpans.SpaceEnd` | `src/matdiscovery/action_targets.py:102-105` | the blank-skipping loop |
| `JsonParser.JSONSpans.ParseValue` | `src/matdiscovery/action_targets.py:107-156` | the recursive method returns what the specification says and appends exactly its spans |
| `JsonParser.JSONSpans.ParseOneMember` | `src/matdiscovery/action_targets.py:117-127` | one turn of the object loop: key, duplicate check, colon, value |
| `JsonParser.JSONSpans.ParseObject` | `src/matdiscovery/action_targets.py:112-132` | the object loop against the recursive specification |
| `JsonParser.JSONSpans.ParseArray` | `src/matdiscovery/action_targets.py:133-145` | the array loop against the recursive specification |
| `TargetBuilder.DecodeSpans` | `src/matdiscovery/action_targets.py:189-195` | the boundary loop gives every token its span where both prefixes begin the text |
| `TargetBuilder.BlankSpecials` | `src/matdiscovery/action_targets.py:196-202` | special tokens become spaces in place; one without a span is an error |
| `TargetBuilder.FindAction` | `src/matdiscovery/action_targets.py:203-220` | every brace is tried, and one position is returned exactly when it is the only match |
| `TargetBuilder.CollectTokens` | `src/matdiscovery/action_targets.py:225-237` | the token loop, with its positions, its covered characters and its mixing error |
| `TargetBuilder.Build` | `src/matdiscovery/action_targets.py:167-253` | the whole builder computes the specified result or error |
| `ActionTargets.MatchesAreAll` | `src/matdiscovery/action_targets.py:203-217` | the match list holds exactly the matching positions, once each |
| `ActionTargets.CollectFacts` | `src/matdiscovery/action_targets.py:225-238` | the loop keeps exactly the plain tokens over value characters and covers exactly the value characters under plain tokens |
| `TargetFacts.BuilderSatisfiesValidator` | `src/matdiscovery/action_targets.py:63-79` | the built result always passes validation, so validation adds no error of its own |
| `TargetFacts.SelectionIsExact` | `src/matdiscovery/action_targets.py:225-240` | selected are exactly the plain tokens with a value character, all value characters are reached, and no key or unselected character is touched |
| `TargetFacts.SelectedAreTheActionValues` | `src/matdiscovery/action_targets.py:159-164` | the scored paths are exactly the action paths that lead to a scalar with at least one character |
| `TargetMeaning.EmittedAction` | `src/matdiscovery/action_targets.py:196-220` | a returned mapping was built from the one position of the blanked text where an object of the benchmark's shape equals the parsed action |
| `TargetMeaning.ScoredPaths` | `src/matdiscovery/action_targets.py:159-164` | scored are exactly the paths of nonempty scalars that are the tool or lie under the arguments without a rationale step, for CrystalGym the action alone; never a path with a rationale step |
| `TargetMeaning.ScoredTokens` | `src/matdiscovery/action_targets.py:225-237` | selected are exactly the plain tokens that share a character with such a scalar, and none of them shares one with a key, a rationale or any other leaf |
| `TargetMeaning.ScoredAreReached` | `src/matdiscovery/action_targets.py:238-240` | every character of every scored scalar lies in a selected token |
| `TargetMeaning.SpecificationRepeats` | `src/matdiscovery/action_targets.py:241-253` | the specification names each selected position, the position before it, its token id and its characters, and repeats the emission |
| `TargetMeaning.AcceptedEmission` | `src/matdiscovery/action_targets.py:170-186` | an emission is refused before decoding exactly for another benchmark, no action, a bad prompt count or a mask that is not all ones |
| `TargetMeaning.UnmappedBecause` | `src/matdiscovery/action_targets.py:196-202` | the unmapped-special error is raised exactly when a special token has no characters of its own |
| `TargetMeaning.UnlocatedBecause` | `src/matdiscovery/action_targets.py:203-220` | the span error is raised exactly unless the action stands at one position and no other |
| `TargetMeaning.RefusedBecause` | `src/matdiscovery/action_targets.py:221-240` | behind that, a mapping is refused exactly when nothing is scored, a token mixes scored and other characters, or a scored character lies in no plain token |
| `TargetMeaning.EqualIsCanonical` | `src/matdiscovery/action_targets.py:216` | Python's equality of parsed values is equality after replacing booleans and numbers by their decimal value |
| `TargetStability.VisibleIsSpelled` | `src/matdiscovery/action_targets.py:196-202` | for a concatenative decoder the scanned text is spelled token by token, special tokens as spaces |
| `TargetStability.IncompleteIffSpecialInside` | `src/matdiscovery/action_targets.py:238-240` | for a concatenative decoder the incomplete-coverage error is raised exactly when a special token stands inside a value |
| `TargetStability.AppendStable` | `src/matdiscovery/action_targets.py:48-52` | appended tokens whose visible text has no closing brace change neither the verdict nor the target specification |
| `AttemptLedger.ApplyConserves` | `src/matdiscovery/accounting.py:553-657` | every transaction keeps: claims equal the attempt number, which equals failed attempts plus one if the job is live |
| `AttemptLedger.EveryRunConserves` | `src/matdiscovery/accounting.py:553-657` | the accounts balance in every reachable interleaving of workers |
| `AttemptLedger.StudyConserves` | `src/matdiscovery/accounting.py:553-657` | the same for every study from its first transaction on |
| `AttemptLedger.SuccessIsRecorded` | `src/matdiscovery/accounting.py:576-642` | a job becomes a success only through a finishing or reconciling event in the log |
| `AttemptLedger.RacingReconciliation` | `src/matdiscovery/accounting.py:669-684` | two transactions that leave a distrusted success a success again before its row is read again |
| `AttemptLedger.SuccessIsReachable` | `src/matdiscovery/accounting.py:553-591` | a ledger in which that can happen is reachable |
| `AttemptLedger.StaleTokensStayInert` | `src/matdiscovery/accounting.py:570-587` | a token that no longer owns a running attempt never opens a transaction again, whatever the workers do |
| `AttemptLedger.ClaimIsExclusive` | `src/matdiscovery/accounting.py:553-568` | a job never has two running attempts, and a running attempt is not among the failed ones |
| `AttemptLedger.BeatStaysLive` | `src/matdiscovery/accounting.py:570-574` | a beat moves the heartbeat of its row to now and nothing else, and protects the job exactly from those who call older heartbeats stale |
| `AttemptLedger.Writes` | `src/matdiscovery/accounting.py:553-657` | what each transaction writes into the row and the log, and between which states it moves a job |
| `RunLedgers.RunLedger.constructor` | `src/matdiscovery/accounting.py:496-533` | a new ledger has every manifest job pending |
| `RunLedgers.RunLedger.Open` | `src/matdiscovery/accounting.py:517-533` | an existing database is continued as it is, and refused exactly under another manifest or other jobs |
| `RunLedgers.RunLedger.ClaimJob` | `src/matdiscovery/accounting.py:553-568` | only a pending job is claimed, under the new token |
| `RunLedgers.RunLedger.Heartbeat` | `src/matdiscovery/accounting.py:570-574` | only the owner of a running attempt can beat, and the heartbeat is then now |
| `RunLedgers.RunLedger.Finish` | `src/matdiscovery/accounting.py:576-587` | one transaction, effective only for the owner |
| `RunLedgers.RunLedger.SucceedJob` | `src/matdiscovery/accounting.py:588-591` | exactly the verification obtained before the transaction is recorded; other workers may act in between, and only a still-owning worker records success |
| `RunLedgers.RunLedger.FailJob` | `src/matdiscovery/accounting.py:593-606` | failure needs stop evidence and nonnegative costs |
| `RunLedgers.RunLedger.MarkOrphaned` | `src/matdiscovery/accounting.py:613-625` | exactly the running jobs with an old heartbeat are quarantined, once each |
| `RunLedgers.RunLedger.ReconcileJob` | `src/matdiscovery/accounting.py:627-642` | an orphan becomes a success only with a verified result, otherwise a known failure |
| `RunLedgers.RunLedger.RetryFailed` | `src/matdiscovery/accounting.py:644-657` | only a known failure returns to pending, with explicit evidence |
| `RunLedgers.RunLedger.ReviewJob` | `src/matdiscovery/accounting.py:664-684` | a recorded success counts only after its file verified again with the recorded digest; the call raises exactly when that was refused and the last re-reading finds a success again, which leaves an event in the log |
| `RunLedgers.RunLedger.Reverify` | `src/matdiscovery/accounting.py:666-669` | the second verification accepts only the recorded digest |
| `RunLedgers.RunLedger.Resume` | `src/matdiscovery/accounting.py:659-684` | every manifest job is filed in manifest order by the row last read, every skipped one verified again with its recorded digest; a plan is returned unless a success was recorded meanwhile |
| `RunLedgers.RunLedger.SkippedWereSuccesses` | `src/matdiscovery/accounting.py:679-682` | the jobs in each of the five lists of a plan are exactly those last read in that state |
| `RunLedgers.RunLedger.FiledOnce` | `src/matdiscovery/accounting.py:661-684` | the five lists together hold each job exactly as often as it was read, whatever the states |
| `AttemptAudit.AuditAttemptHistory` | `scripts/report_full_study.py:58-90` | the replay loop reports claims, failures, the sum of known costs of every name, and the failures without a known physical cost, or the first refusal |
| `AttemptAudit.AuditorAgrees` | `scripts/report_full_study.py:80-81` | on every reachable ledger the auditor finds the claims it expects and refuses exactly changed evidence files |
| `AttemptAudit.StudyAudits` | `scripts/report_full_study.py:58-91` | so it is for every study, from its first transaction on |
| `AttemptAudit.CompleteStudyAccounts` | `scripts/report_full_study.py:86-91` | when all jobs succeeded, claimed attempts are the jobs plus the failed attempts on record |
| `AttemptAudit.CostsConserved` | `scripts/report_full_study.py:82-85` | for every cost name the replay sums what each stopped attempt recorded in the log, once |
| `AttemptAudit.StudyRecordsFailures` | `scripts/report_full_study.py:66-79` | in every study with intact evidence, each attempt that ended without a result has exactly one entry, with the costs and evidence files the event recorded; it counts as known exactly when the costs name the job's physical counter |
| `AttemptAudit.ReplayAccounts` | `scripts/report_full_study.py:66-79` | the replay keeps one entry for each attempt that ended, in the order of the log |
| `ResultVerification.CheckRows` | `src/matdiscovery/accounting.py:450-465` | rows are accepted exactly when each is complete, registered, under its seed and budget, and none repeats |
| `ResultVerification.RowMeans` | `src/matdiscovery/accounting.py:450-465` | a row is accepted exactly when it is complete, ended, measured, without negative cost, and has seed and budgets of one registered episode, a missing cost being zero |
| `ResultVerification.VerifyResult` | `src/matdiscovery/accounting.py:423-485` | a result is accepted exactly when job, manifest, revision, completeness, rows, budgets and evidence are those registered |
| `ResultVerification.EveryEpisodeOnce` | `src/matdiscovery/accounting.py:445-457` | an accepted result holds each registered episode exactly once |
| `ResultVerification.TotalsAreTheBudget` | `src/matdiscovery/accounting.py:460-465` | the verified totals are the whole registered budget |
| `CoreFinal.RecordedIsValid` | `src/matdiscovery/core_final.py:184-199` | one recorded transition keeps the ledger valid: at most one claim per job, pending exactly when unclaimed |
| `CoreFinal.TrackedOnce` | `src/matdiscovery/core_final.py:161-199` | in every valid store no job is claimed twice in the log, claimed is exactly what is no longer pending, and every success was physically rolled out |
| `CoreFinal.CoreFinalLedger.constructor` | `src/matdiscovery/core_final.py:168-182` | an existing ledger is read, a new one has every job pending |
| `CoreFinal.CoreFinalLedger.Claim` | `src/matdiscovery/core_final.py:210-217` | only a pending job can be claimed, and the claim is durable first |
| `CoreFinal.CoreFinalLedger.QuarantineRunning` | `src/matdiscovery/core_final.py:219-224` | leftover running jobs become orphaned and nothing else moves |
| `CoreFinal.CoreFinalLedger.Finish` | `src/matdiscovery/core_final.py:226-233` | only a running or orphaned job with an unchanged envelope succeeds |
| `CoreFinal.CoreFinalLedger.Halt` | `src/matdiscovery/core_final.py:235-244` | a stopped attempt is failed or orphaned; an already finished one cannot be halted |
| `CoreFinal.CoreFinalRunner.Rollout` | `src/matdiscovery/core_final.py:440-441` | a rollout starts only for a job claimed on disk that has none yet; its two directories are made one after the other |
| `CoreFinal.CoreFinalRunner.StopAttempt` | `src/matdiscovery/core_final.py:455-464` | the exception handler closes an attempt only if no envelope exists |
| `CoreFinal.CoreFinalRunner.Attempt` | `src/matdiscovery/core_final.py:430-464` | one claim, at most one rollout, then envelope, verification and commit, with a crash possible at each step |
| `CoreFinal.CoreFinalRunner.Recheck` | `src/matdiscovery/core_final.py:421-429` | leftover complete envelopes are only verified and reconciled |
| `CoreFinal.CoreFinalRunner.RunJobs` | `src/matdiscovery/core_final.py:411-465` | the matrix loop ends with every job committed |
| `CoreFinal.CoreFinalRunner.Run` | `src/matdiscovery/core_final.py:369-475` | each process keeps the invariant, moves records only forward and starts no rollout twice; it refuses the directory tree exactly for a job directory without its attempt directory, and then changes no directory |
| `CoreFinal.RefusedIffHalfMade` | `src/matdiscovery/core_final.py:393-398` | in every reachable store the directory check refuses exactly a half-made directory |
| `CoreFinal.HalfMadeIsReachable` | `src/matdiscovery/rollouts.py:377-379` | a process killed between the two directories leaves such a store |
| `CoreFinal.CoreFinalRunner.History` | `src/matdiscovery/core_final.py:161-167` | over any number of crashes and restarts each rollout starts at most once |
| `ChemicalSystems.CombinationsDistinct` | `scripts/make_made_splits.py:93` | the combinations of distinct elements are distinct systems |
| `ChemicalSystems.CombinationsAreChoices` | `scripts/make_made_splits.py:93` | the combinations are exactly the picks of all rising index sequences of that length, in lexicographic order |
| `ChemicalSystems.StableIffTwo` | `scripts/make_made_splits.py:76-83` | support by two stable entries means one sub-system of two or more elements with two entries, or two such sub-systems with one each |
| `MadeSplits.EligibleAreChoices` | `scripts/make_made_splits.py:93-96` | the eligible systems are the picks of exactly those index sequences whose system is not excluded and supported, in that order |
| `MadeSplits.HasStableSubphases` | `scripts/make_made_splits.py:76-83` | leaving early decides the same as the full count |
| `MadeSplits.ReservoirSample` | `scripts/make_made_splits.py:86-108` | the loop computes Algorithm R over exactly the eligible systems in lexicographic order, and counts the index sequences that pick one |
| `MadeSplits.Shuffle` | `scripts/make_made_splits.py:107` | the swap loop computes the shuffle determined by its outcomes, a permutation |
| `MadeSplits.EveryOrderOnce` | `scripts/make_made_splits.py:105-107` | every order of distinct items comes from exactly one outcome sequence of the shuffle, so the train/development cut does not depend on reservoir order |
| `MadeSplits.RandomSample` | `scripts/make_made_splits.py:165` | sampling without replacement |
| `MadeSplits.SelectSize` | `scripts/make_made_splits.py:160-171` | a size fails exactly when there are fewer exact stable systems and fewer eligible index sequences than requested; otherwise it yields the requested number of distinct, unused systems, arranged by the reservoir, the sort and the shuffle |
| `MadeSplits.SplitIsUniform` | `scripts/make_made_splits.py:86-108` | every arrangement of k of the n eligible systems, and so every train/development assignment, comes from exactly (n - k)! of the joint outcomes of reservoir and shuffle |
| `Ordering.SortingForgetsOrder` | `scripts/make_made_splits.py:106` | the sorted sample depends on the sampled set alone |
| `MadeSplits.BuildSplits` | `scripts/make_made_splits.py:158-184` | train, development and test are disjoint and complete: the leakage and count guards can never fire |
| `Reservoir.SampleIsDistinct` | `scripts/make_made_splits.py:93-102` | the sample consists of distinct items of the stream |
| `Reservoir.DrawsSize` | `scripts/make_made_splits.py:100` | there are n! / k! outcome sequences |
| `Reservoir.SampleIsUniform` | `scripts/make_made_splits.py:86-108` | every k-subset of the n eligible items is the sample of exactly (n - k)! outcome sequences |
| `Reservoir.EveryItemEquallyOften` | `scripts/make_made_splits.py:86-108` | every item is sampled in the share k / n of the outcome sequences |
| `HashCaching.PinnedStays` | `src/matdiscovery/immutable_hash_cache.py:20-24` | behind an old change time no other process can write unseen, since its own stamp would be newer |
| `HashCaching.IdentityOf` | `src/matdiscovery/immutable_hash_cache.py:27-28` | two sightings are the same version exactly when inode, size and both times agree |
| `HashCaching.HashCache.Interlude` | `src/matdiscovery/immutable_hash_cache.py:45-59` | other processes act; cached digests keep speaking for their keys |
| `HashCaching.HashCache.StreamSha256` | `src/matdiscovery/immutable_hash_cache.py:31-36` | streaming while others write yields the pinned contents unless the change time has moved |
| `HashCaching.HashCache.HashOnce` | `src/matdiscovery/immutable_hash_cache.py:53-59` | hashing between two equal sightings of old metadata returns the contents at the last stat |
| `HashCaching.HashCache.HashOpened` | `src/matdiscovery/immutable_hash_cache.py:53-58` | the streamed contents are the pinned ones when the metadata are the same before and after |
| `HashCaching.HashCache.HashMissed` | `src/matdiscovery/immutable_hash_cache.py:53-71` | old metadata give a new entry that is correct at the last stat, recent ones are read again and give none |
| `HashCaching.HashCache.Corroborate` | `src/matdiscovery/immutable_hash_cache.py:60-67` | a recent file is read again and nothing is cached |
| `HashCaching.HashCache.LookUp` | `src/matdiscovery/immutable_hash_cache.py:45-52` | a hit is the contents at the moment of the stat |
| `HashCaching.HashCache.MaybeCachedFileSha256` | `src/matdiscovery/immutable_hash_cache.py:39-71` | every hit equals direct hashing at the stat, new entries are correct, and every cached digest stays so |
| `OracleAccounting.BaseAdapter.Begin` | `src/matdiscovery/benchmark_adapters.py:280-288` | the locked start: journal line, fresh attempt id, counters and pending entry together, or nothing |
| `OracleAccounting.CounterNames` | `src/matdiscovery/benchmark_adapters.py:282` | which counter a role and a phase move |
| `OracleAccounting.CountersApart` | `src/matdiscovery/benchmark_adapters.py:282` | calls of different phases move different counters; only the surrogate's is shared |
| `OracleAccounting.BaseAdapter.End` | `src/matdiscovery/benchmark_adapters.py:292-306` | the locked end: one terminal record, one terminal counter, the attempt no longer pending |
| `OracleAccounting.BaseAdapter.Audit` | `src/matdiscovery/benchmark_adapters.py:251-268` | the journal line precedes the sequence number |
| `OracleAccounting.BaseAdapter.InvokeOracle` | `src/matdiscovery/benchmark_adapters.py:278-308` | this call has a fresh attempt id, one start record at the end of the journal it found, and one end record when it returns or raises; after a failed journal line it was never started or stays pending |
| `OracleAccounting.BaseAdapter.Reset` | `src/matdiscovery/benchmark_adapters.py:505-517` | a new episode starts its own counters; until it is ready, successfully or not, calls belong to the initialization phase |
| `OracleAccounting.BaseAdapter.SnapshotBalances` | `src/matdiscovery/benchmark_adapters.py:270-276` | started = returned + exceptions + pending; oracle counters sum to started; each is the sum over its episodes |
| `OracleAccounting.JournalConserves` | `src/matdiscovery/benchmark_adapters.py:251-306` | the same balance from the journal alone |
| `OracleAccounting.OneStartOneEnd` | `src/matdiscovery/benchmark_adapters.py:283-284` | attempt ids never repeat and an attempt ends at most once |
| `OracleAccounting.SequenceIsContiguous` | `src/matdiscovery/benchmark_adapters.py:255-266` | audit numbers are contiguous from zero |
| `OracleAccounting.OnlyTwo` | `src/matdiscovery/benchmark_adapters.py:278-308` | a start and an end are all the journal has of an attempt |
| `OracleAccounting.OnlyStarted` | `src/matdiscovery/benchmark_adapters.py:278-308` | an open attempt has its start and nothing else |
| `CandidateBuffer.SortIsOrderedPermutation` | `src/matdiscovery/benchmark_adapters.py:552` | score sorts are ordered permutations |
| `CandidateBuffer.SortIsStable` | `src/matdiscovery/benchmark_adapters.py:552` | entries of equal rank keep their order |
| `CandidateBuffer.InvalidComeLast` | `src/matdiscovery/benchmark_adapters.py:116-123` | unrankable scores come last in both directions |
| `CandidateBuffer.SortedByScore` | `src/matdiscovery/benchmark_adapters.py:116-123` | a sorted group ascends or descends by score, minus infinity below every number, and scores that rank nothing come last |
| `CandidateBuffer.RegroupKeeps` | `src/matdiscovery/benchmark_adapters.py:571-572` | replacing a group keeps buffer and index in step: each hash once, no empty group |
| `CandidateBuffer.Buffer.Add` | `src/matdiscovery/benchmark_adapters.py:555-573` | a new valid structure is appended to its group and indexed |
| `CandidateBuffer.Buffer.ScoreGroup` | `src/matdiscovery/benchmark_adapters.py:528-553` | scores are stored entry by entry and the group is stably sorted |
| `CandidateBuffer.Buffer.Query` | `src/matdiscovery/benchmark_adapters.py:683-708` | a query lists positions and hashes of the actual buffer, in rank order when asked |
| `CandidateBuffer.Buffer.Listing` | `src/matdiscovery/benchmark_adapters.py:688-697` | each listed entry carries the position and hash of an actual candidate, and no place is listed twice |
| `CandidateBuffer.Buffer.Select` | `src/matdiscovery/benchmark_adapters.py:653-682` | the chosen entry leaves buffer and index; nothing else changes but the order a scorer asks for |
| `CandidateBuffer.ListedSelection` | `src/matdiscovery/benchmark_adapters.py:661-673` | selecting a listed hash takes the listed candidate; so does its position without a scorer |
| `CandidateBuffer.PositionsKeepIffOrdered` | `src/matdiscovery/benchmark_adapters.py:667-671` | with a scorer, positions keep their candidates exactly when the group already is in score order |
| `CandidateBuffer.PositionCanMove` | `src/matdiscovery/benchmark_adapters.py:670` | a two-entry buffer in which position 0 under a scorer is another candidate |
| `SeedPacking.OrIsSum` | `src/matdiscovery/accounting.py:104-107` | a field shifted above another does not mix with it |
| `SeedPacking.PackIsConcatenation` | `src/matdiscovery/accounting.py:84-107` | the packed seed is the five fields side by side |
| `SeedPacking.PackingIsInjective` | `src/matdiscovery/accounting.py:84-107` | different fields give different seeds, all below 2^32 |
| `SeedPacking.SeedOf` | `src/matdiscovery/accounting.py:84-107` | which combinations of fields have a seed, which error the others raise, and the seed itself with powers of two and codes written out |
| `SeedPacking.ResetScheduleIsTheManifest` | `src/matdiscovery/benchmark_adapters.py:843-848` | adding the episode to the seed adds it to the rollout field, so resets reproduce the manifest's seeds |
| `SeedPacking.CollectionSeedsAreApart` | `src/matdiscovery/experiment_plan.py:48-54` | planned collection rollouts never share a seed with each other or with the final test |
| `SeedPacking.CollectionJobIsOneRange` | `src/matdiscovery/experiment_plan.py:54` | the seeds of one job are consecutive |
| `SeedPacking.CollectionSeed` | `src/matdiscovery/experiment_plan.py:48-54` | the seed of each planned collection rollout in plain numbers |
| `SeedPacking.PlannedSlots` | `src/matdiscovery/experiment_plan.py:44-54` | the matrix: three properties, five prototypes, five seeds, ten training and two development rollouts |
| `SeedPacking.CrystalJobs` | `src/matdiscovery/experiment_plan.py:44-64` | the nested loops produce each job exactly once |
| `EvolutionEvidence.MaxRecord` | `src/matdiscovery/core_es.py:323` | the auditor's maximum with tie-break is the generation the loader recomputes |
| `EvolutionEvidence.FastEvolutionEvidence` | `src/matdiscovery/core_es.py:344-394` | evidence is returned exactly when both generations agree with the unchanged formula and a changed selection shows a text update |
| `EvolutionEvidence.RecordMeans` | `src/matdiscovery/core_es.py:353-372` | a record passes exactly when its rewards were normalized by the unchanged formula, its norms are given and not negative, its hashes differ exactly when a parameter moved, and they agree exactly on a tie whose normalized rewards are zero |
| `EvolutionEvidence.RowMeans` | `src/matdiscovery/core_es.py:373-379` | what a row of the curve repeats, text parameters being those without visual. in front or .visual. inside |
| `EvolutionEvidence.EvidenceMeans` | `src/matdiscovery/core_es.py:380-394` | a signal is a changed selection behind a text update, and exactly without one the proof is given |
| `EvolutionEvidence.EvidenceIsAccepted` | `src/matdiscovery/core_final.py:109-158` | such evidence is accepted exactly when the records chain from the initial weights and share one development seed |
| `EvolutionEvidence.AcceptedMeans` | `src/matdiscovery/core_final.py:109-158` | whatever it is given, the final evaluation accepts only two generations that lead from the initial to the selected weights, each changing them exactly when its rewards differ, and an unchanged selection only with its proof |

## Left out

Modelling choices:

- Digests and fingerprints are injective; contents stand for their hashes, and a state hash stands for the tensors.
- Durable writes are atomic replaces, SQL transactions are atomic, file locks are exclusive, and identifiers are new.
- Reals stand for floats: rounding, and the digit and recursion limits of the Python parser, are not modelled; text has no
  lone surrogate characters (escapes may denote them).
- `policy.pt.json` is part of the policy file; runtime policy state ids, costs and wall-clock fields of training records are
  not modelled.
- The hash cache assumes that a change time lags behind the clock by less than the guard, and that other processes perform
  finitely many operations during one call.
- Attempt ids, owners and times are parameters; a journal line is written whole or not at all.
- The paths in a target specification are kept as paths instead of slash-joined strings; shape and type checks on tensors and
  the log-probability itself are not modelled.
- RandomSample: models the pool form of sampling without replacement; the set form Python uses for large populations has the
  same contract.
- Resume: which list a job is in reflects the moment of its reading; other workers may have moved it since.
- Corroborate: promises nothing about the digest of a file that is being written within one clock tick.
- VerifyResult: the manifest fingerprint is an opaque string; paths are compared after resolution.

Not modelled, because it would add only easy members or belongs to other software:

- Model loading, generation, transcoder and risk training, tensor arithmetic, benchmark physics.
- Manifest construction totals, the full-study matrix, and the long receipt and provenance validators.
- `run_stage_queue.py`, an easier copy of the at-most-once ledgers.
- The RPC server, downloads, installation and command-line scripts.
- `completion()` of the SQL ledger; its manifest is the job list.
- CrystalGym stepping, MADE tool dispatch outside the buffer, event logs shown to the policy.
