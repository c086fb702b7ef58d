# Verified model of Oxilytics

This project models the parts of Oxilytics that are easiest to get subtly wrong and hardest to
check by example, and proves what they promise:

- **QR encoder** (`web/src/lib/qr.js`). Field arithmetic, Reed–Solomon error correction, bit packing,
  block interleaving, function patterns, the zigzag walk, masking and the mask search, each as the
  in-place loops of the source against a specification taken from ISO/IEC 18004:2015. The end result
  is `QrEncoder.EncodeQR`: a strict reader (`QrReader`) that sees nothing but the finished module grid
  gets back exactly the encoded bytes, for every byte string that fits. The reader is written from the
  standard's figures and tables as pictures and literals and shares nothing with the encoder but types; it
  refuses a symbol that departs from them in a function pattern, in either copy of the format or version
  information, in the error correction, in the stream or in its padding. `QrAgreement`, `QrPatterns` and
  `QrReads` prove that the two agree.
- **Sync engine** (`internal/sync/engine.go`, `internal/store/sync.go`). The worker pool of one run as
  a transition system whose steps interleave freely (`SyncPool`), what its runs come to in terms of their
  steps alone (`SyncRuns`), and above it the engine with its running map, run rows, cancellation and
  restarts (`SyncEngine`). The results hold over every run.
- **Ingestion**. The `metric_days` upsert as a per-column last-writer map (`MetricStore`), Google Play's
  run by run and against a complete download (`PlayIngest`, `PlayHistory`), and the App Store fold with its
  conservation laws and what is lost between segments (`AppStoreFold`, `AppStoreIngest`).
- **Calendar and series**. A proved Gregorian day count (`Calendar`), Go's bucket list against SQL's bucket
  expressions (`Buckets`), the grouped query and the dense fill (`Series`), and the range of a request
  with the period before it (`RangeParams`).
- **Text decoding, rate limiting, slugs**: `Utf16`, `RateLimiter`, `Slugs`, `Products`.

`dafny verify dfyconfig.toml` checks everything.

## How the model reads the code

- Bytes in the QR part are sequences of eight bits, most significant first; polynomials list the
  highest coefficient first; a grid is indexed `[y][x]` as in the source.
- A database transaction, and each critical section under a mutex, is one atomic step. The one
  exception is the section of `execute` that records the first fatal error and then cancels the other
  apps: other goroutines read that cancellation without the mutex, so recording and cancelling are
  two steps there (`SyncPool.Settle`, `SyncPool.CancelApps`).
- The outcome of every `SyncApp` call, of every download and of every database write that the code
  checks is a free choice of the environment.
- Days are dates or day numbers where the code computes with them and texts where it compares texts;
  `Calendar.TextOrder` and `RangeParams.ParseFormat` connect the two.
- A run's error-free outcome, its checkpoint and its marks are the ones of the code, not of the
  documentation. `docs/05-sync.md`, line 35, says that apps are synced one after the other; the code
  runs them in a bounded pool.
- `SyncApp` ignores the errors of reading the checkpoint and the generations of ingested files and goes
  on as if they were absent (`internal/sync/googleplay/googleplay.go` lines 113 and 136). The model has
  both as choices of the environment (`checkpointUnread` and `marksUnread` of a run).

## What turned out not to hold

- "After an error-free run every figure dated on or after that run's first day is stored" fails for
  Google Play files that are skipped as unchanged but were never stored from that day on: days before
  the launch day 2008-07-10 (`PlayHistory.EarlyDaysCanBeMissed`), and days before the checkpoint once a
  later run cannot read it (`PlayHistory.UnreadCheckpointMisses`). It holds for a file if and only if the
  file is not skipped or read right before the run (`PlayIngest.ErrorFreeStoresExactly`, and
  `PlayIngest.RunStoresExactly` for every run). Over whole histories it holds from the day that
  `PlayHistory.SureFrom` names (`PlayHistory.IncrementalEqualsFull`; `PlayHistory.IncrementalFigures`
  spells the day and the columns out).
- `docs/05-sync.md`, line 20, says that checkpoints do not advance past a failure. For Google Play they do
  (`PlayHistory.CheckpointPassesFailure`): an app's checkpoint advances if and only if the run is not
  cancelled, the checkpoint can be written and some day stored is later, whatever files failed; and it
  moves back if and only if it could not be read and only earlier days are stored
  (`PlayIngest.CheckpointMovesExactly`, `PlayHistory.CheckpointCanMoveBack`). The checkpoints of App
  Store reports are not part of this model.
- An App Store instance is folded segment by segment, and its rows overwrite earlier ones only in the
  columns its report is written to. After the upsert such a column shows the last counting segment's
  amount; any other column the old figure or, in a new row, the first counting segment's amount
  (`AppStoreIngest.FigureIs`). So a day counted by two segments falls short
  (`AppStoreIngest.SharedDayIsShort`), and installs, which the fold counts as redownloads although their
  report is written to uninstalls only, do not arrive on a day the table knows, even from one segment
  (`AppStoreIngest.InstallsAreLost`). An instance is stored whole if and only if nothing is lost in this
  way in any column it counts (`AppStoreIngest.StoredWholeExactly`); where counts are not negative, if and
  only if its figures do not meet (`AppStoreIngest.StoredWholeIfSeparate`). In the columns the report is
  written to alone, that is when no two segments count the same day (`AppStoreIngest.NamedWholeIfSeparate`).
- Upserts of different column groups commute if and only if the rows both create agree outside the groups
  (`MetricStore.BatchesCommuteExactly`), which the installs and the crash report of a new day do not
  (`AppStoreIngest.ReportOrderMatters`).
- The preceding period of a range is as long as the range exactly when the range spans at most 106,751
  days between its ends, the most a Go `Duration` can hold, and starts in or after year 0
  (`RangeParams.RangeIsPreceded`). Inputs on which it fails: `RangeParams.LongRangeLosesDays` and
  `RangeParams.EarlyRangeLosesDays`.
- Reading a report decodes it twice. The second decoding is the identity exactly when the text does not
  itself begin with U+FEFF (`Utf16.DecodeTwice`, and `Utf16.LeadingMarkIsLost` for one that does).

## Model

| member | source | states |
|---|---|---|
| GaloisField.GfMul | web/src/lib/qr.js:53-60 | the shift-and-xor loop computes the product of two field elements |
| GaloisField.MulCommutes | web/src/lib/qr.js:53-60 | the product is commutative |
| GaloisField.MulAssociates | web/src/lib/qr.js:53-60 | the product is associative |
| GaloisField.MulDistributes | web/src/lib/qr.js:53-60 | the product distributes over xor on both sides |
| GaloisField.MulUnits | web/src/lib/qr.js:53-60 | one is neutral and zero absorbs |
| GaloisField.MulByX | web/src/lib/qr.js:53-60 | multiplying by 2 is the shift that reduces by 0x11D, which with the ring laws fixes the product |
| ReedSolomon.TimesLinear | web/src/lib/qr.js:34-37 | one pass of the inner loop multiplies the stored polynomial by x − root in place |
| ReedSolomon.ComputeDivisor | web/src/lib/qr.js:29-41 | the divisor is the product of the factors x − α^i without its leading coefficient |
| ReedSolomon.ComputeRemainder | web/src/lib/qr.js:43-51 | data followed by the remainder is a multiple of the generator |
| ReedSolomon.EvalMulPoly | web/src/lib/qr.js:43-51 | evaluating a product gives the product of the values |
| ReedSolomon.GeneratorRoots | web/src/lib/qr.js:29-41 | the generator is zero at α^0 up to α^(degree−1) |
| ReedSolomon.SyndromesVanish | web/src/lib/qr.js:29-51 | data followed by its remainder is zero at α^0 up to α^(degree−1), for every data and degree |
| QrTables.RawCodewordsMatchTable | web/src/lib/qr.js:15-23 | for every version the number of codewords is the one in table 1 of ISO/IEC 18004:2015 |
| QrTables.BlockFacts | web/src/lib/qr.js:5-27 | for every version and level every block has room for data beside its error correction |
| QrStream.Push | web/src/lib/qr.js:84 | the value's low bits are appended, highest first |
| QrStream.BitsRoundTrip | web/src/lib/qr.js:84 | reading the written bits as a number returns the number, for every number that fits the width |
| QrStream.ChooseVersion | web/src/lib/qr.js:73-80 | the smallest version that holds the bytes, or none exactly when none does |
| QrStream.PackData | web/src/lib/qr.js:82-93 | the codewords are mode, count, data, terminator, zero bits and alternating pads, and fill the capacity exactly |
| QrStream.ReadDataStream | web/src/lib/qr.js:82-93 | reading mode, count and that many bytes returns the packed data |
| QrBlocks.SplitBlocks | web/src/lib/qr.js:95-109 | each block holds its own slice of the data, a filler where the block is short, and its error correction |
| QrBlocks.Interleave | web/src/lib/qr.js:110-115 | the output has exactly the raw number of codewords and holds every block, data and error correction, at its positions |
| QrBlocks.PositionBijective | web/src/lib/qr.js:95-115 | every codeword of every block has its own output position and every output position holds one |
| QrBlocks.DeinterleaveRoundTrip | web/src/lib/qr.js:95-115 | collecting the blocks from their positions and dropping their error correction returns the data codewords |
| QrWalk.WalkVisitsOnce | web/src/lib/qr.js:170-185 | each module outside column 6 is visited by exactly one step of the zigzag walk |
| QrWalk.StepInverse | web/src/lib/qr.js:170-178 | every step is inside the grid, outside column 6, and determined by the module it visits |
| QrPlace.PlaceStep | web/src/lib/qr.js:179-182 | writing one module keeps the modules read so far and appends the next bit to them |
| QrPlace.PlaceData | web/src/lib/qr.js:170-185 | reading along the walk returns the bits in order, no function module is written, and modules past the last bit stay light |
| QrLayout.AlignmentPatternPositions | web/src/lib/qr.js:62-69 | the loop computes the standard's alignment centres for every version |
| QrLayout.AllColumns | web/src/lib/qr.js:15-23 | the modules that are no function modules, counted column by column, number what the capacity formula says |
| QrLayout.WalkLength | web/src/lib/qr.js:15-23 | the walk over any symbol of a version reads exactly the formula's number of modules |
| QrFormat.ComputeFormatWord | web/src/lib/qr.js:145-149 | the loop computes the masked 15-bit format word |
| QrFormat.ComputeVersionWord | web/src/lib/qr.js:160-162 | the loop computes the 18-bit version word |
| QrFormat.BchCodeword | web/src/lib/qr.js:146-162 | data followed by the shift register's remainder is a multiple of the generator polynomial |
| QrFormat.WordsAreProtected | web/src/lib/qr.js:145-162 | both words are codewords of the standard's BCH codes |
| QrFormat.FormatRoundTrip | web/src/lib/qr.js:145-150 | level and mask can be read back from the format word |
| QrAgreement.FormatShows | web/src/lib/qr.js:145-150 | the format word of every level and mask is the one that table C.1 of ISO/IEC 18004:2015 lists |
| QrAgreement.VersionShows | web/src/lib/qr.js:160-162 | the version word of every version from 7 on is the one that table D.1 of ISO/IEC 18004:2015 lists |
| QrSymbol.PaintersCover | web/src/lib/qr.js:121-168 | the modules drawn by the pattern painters are exactly the function modules of the layout |
| QrSymbol.AlignedUnique | web/src/lib/qr.js:131-143 | no module belongs to two alignment patterns |
| QrSymbol.FormatVersionDisjoint | web/src/lib/qr.js:151-167 | format and version information never share a module |
| QrPatterns.AlignmentAgrees | web/src/lib/qr.js:131-143 | looking every centre of annex E up in the picture of an alignment pattern gives exactly what the encoder draws there |
| QrPatterns.RolesAgree | web/src/lib/qr.js:117-168 | for every module of every version, the encoder draws what the standard's pictures of finder, separator, timing and alignment patterns show, the right bit of the version information, and data exactly elsewhere |
| QrPatterns.SymbolPatterns | web/src/lib/qr.js:117-168 | every function pattern and both copies of the version information of a finished symbol are as the reader's pictures and table D.1 have them |
| QrPatterns.FormatFound | web/src/lib/qr.js:145-157 | both copies of the format information show the word of a level and mask if and only if they are the symbol's |
| QrCanvas.Canvas.DrawFunctionPatterns | web/src/lib/qr.js:136-168 | after drawing, every module shows its pattern or is light, and exactly the function modules are marked |
| QrCanvas.Canvas.DrawFormatBits | web/src/lib/qr.js:145-157 | both copies of the format word and the dark module are written and nothing else changes |
| QrCanvas.Canvas.ApplyMask | web/src/lib/qr.js:188-204 | exactly the data modules the mask condition selects are inverted; QrAgreement.MaskAgrees ties the condition to the standard's figure |
| QrAgreement.MaskAgrees | web/src/lib/qr.js:190-202 | at every module each of the eight conditions holds exactly where the mask pattern that figure 21 shows, repeated as a tile, is dark |
| QrPenalty.LineExtend | web/src/lib/qr.js:207-218 | how one more module changes a line's score, in terms of the run it ends |
| QrPenalty.ScoreRow | web/src/lib/qr.js:207-212 | the row loop computes the sum over maximal runs of at least five of their length minus two |
| QrPenalty.ScoreBlocks | web/src/lib/qr.js:219-223 | three points for every 2 by 2 block of one colour |
| QrPenalty.ComputePenalty | web/src/lib/qr.js:205-228 | the score is that of rows, columns, blocks and balance |
| QrPenalty.PenaltyNonNegative | web/src/lib/qr.js:224-227 | the balance term, which subtracts one step, never makes the score of an odd-sized symbol negative |
| QrScore.LineScoreIs | web/src/lib/qr.js:207-218 | a line scores one point for every five equal modules in a row and two for every run of five or more |
| QrScore.PenaltyExactly | web/src/lib/qr.js:205-228 | the score as numbers of places of the symbol: fives and runs across and down, 2 by 2 squares, and ten for each full step of five percent by which the dark modules are off one half |
| QrEncoder.ShowMask | web/src/lib/qr.js:231 | masking and drawing the format bits gives the symbol of that mask, whatever mask was shown before |
| QrEncoder.UndoMask | web/src/lib/qr.js:234 | masking again restores every data module |
| QrEncoder.ChooseMask | web/src/lib/qr.js:229-236 | the matrix left is exactly the one scored for the lowest-numbered mask of least score, with that mask in its format bits |
| QrEncoder.MakeCodewords | web/src/lib/qr.js:82-115 | the interleaved codewords of the packed data |
| QrEncoder.DrawSymbol | web/src/lib/qr.js:117-185 | function patterns with the codewords laid along the walk, unmasked |
| QrReads.WalkRead | web/src/lib/qr.js:170-204 | reading upwards and downwards in turn, two columns at a time past column 6, and undoing the mask by its picture returns the bits the encoder placed |
| QrReads.ShapeAgrees | web/src/lib/qr.js:5-27 | numbers and lengths of the blocks of every version and level are those of table 9 of ISO/IEC 18004:2015 |
| QrReads.BlockAgrees | web/src/lib/qr.js:95-115 | collecting a block from the places that section 7.6 gives its codewords returns the encoder's block |
| QrReads.BlocksClean | web/src/lib/qr.js:43-60 | every syndrome of every block is zero in the field of x^8 + x^4 + x^3 + x^2 + 1, computed by shifts alone |
| QrReads.BytesRead | web/src/lib/qr.js:82-93 | the stream has mode, count and bytes and then nothing but the terminator, zero bits and the two pad codewords in turn |
| QrReads.CapacityIs | web/src/lib/qr.js:71-80 | for every version and level the bytes fit if and only if they are no more than table 7 says |
| QrEncoder.DecodeSymbol | web/src/lib/qr.js:71-238 | the strict reader accepts whatever is a symbol of some data at some level, and returns that data |
| QrEncoder.EncodeQR | web/src/lib/qr.js:71-238 | nothing is returned exactly for more than 520 bytes at level L or 412 at M; otherwise the matrix has the side of the smallest version whose capacity in table 7 holds the data, is their symbol under the mask of least score, and the strict reader accepts it and returns the data |
| SyncPool.StepKeepsInv | internal/sync/engine.go:301-355 | every step of launcher, workers, user and final switch keeps the counters equal to the numbers of apps with each fate, the slots bounded and the fatal app unique |
| SyncPool.Accounting | internal/sync/engine.go:306-356 | when all goroutines are over, the apps split exactly into done, failed, the fatal app, abandoned, skipped and never launched |
| SyncPool.StatusMeans | internal/sync/engine.go:364-378 | when the run is cancelled, failed or succeeded, each as an if and only if on the fates of its apps |
| SyncPool.EveryRun | internal/sync/engine.go:288-379 | in every interleaving no more calls are in flight than apps, and no more than the wanted concurrency or one; success means every app was processed, and the accounting holds at the end |
| SyncPool.InFlightBounded | internal/sync/engine.go:305-313 | at most `workers` SyncApp calls are in flight |
| SyncPool.FewAfterFatal | internal/sync/engine.go:327-343 | after the first fatal error is recorded fewer than `workers` apps can still start, return or settle, and the fatal one is not among them |
| SyncPool.NeverStuck | internal/sync/engine.go:306-356 | while a run has no status some step other than a user cancel is enabled |
| SyncPool.StepDescends | internal/sync/engine.go:306-356 | every step decreases a measure |
| SyncPool.RunsAreShort | internal/sync/engine.go:306-356 | no run is longer than the measure of its first state |
| SyncRuns.FatesExactly | internal/sync/engine.go:314-354 | in every run, each fate of an app as an if and only if on the run's steps: skipped if a cancellation came before its check, done if its call returned no error, abandoned if it returned one and a cancellation came before that was recorded, else failed or fatal as the error says |
| SyncRuns.NeverLaunched | internal/sync/engine.go:306-309 | an app that was never launched made no call, and there is one in a finished run only after a cancellation |
| SyncRuns.LaunchingStops | internal/sync/engine.go:306-309 | once the loop looks at the context after a cancellation, no app is launched any more |
| SyncRuns.SlotsExactly | internal/sync/engine.go:288-313 | a waiting app can take a slot if and only if fewer apps than the wanted concurrency, at least one and at most one per app, hold one |
| SyncRuns.StatusExactly | internal/sync/engine.go:364-378 | a run ends cancelled if and only if the user cancelled it, and failed if and only if it was not and some call returned a fatal error or, with at least one app, every app's call an error |
| SyncRuns.CountsExactly | internal/sync/engine.go:327-354 | the counters of apps done and failed as numbers of apps by what their calls returned and when cancellations came |
| SyncRuns.AllOkSucceeds | internal/sync/engine.go:314-378 | an uncancelled run whose calls all succeed is recorded as succeeded with every app done |
| SyncRuns.AllErrorsFail | internal/sync/engine.go:314-378 | an uncancelled run over at least one app none of whose calls succeeds is recorded as failed |
| SyncRuns.StatusIsFinal | internal/sync/engine.go:364-379 | after the status is set a late cancellation is the only step left, and changes nothing recorded |
| SyncEngine.StepKeepsInv | internal/sync/engine.go:91-122 | every step of start, cancel, row update, pool, finish, delete and restart keeps the engine's invariant |
| SyncEngine.OneRunPerStore | internal/sync/engine.go:91-111 | in every reachable state a store has at most one live run and one open row, and its running entry exists exactly while its goroutine lives |
| SyncEngine.RowsMoveForward | internal/store/sync.go:80-104 | along every run a row only moves from queued to running to a terminal status and never leaves it |
| SyncEngine.RunGoesOn | internal/sync/engine.go:200-379 | every live run has a step of its own enabled, up to its deferred delete, which finds its row ended |
| SyncEngine.SuccessIsComplete | internal/sync/engine.go:364-378 | a row becomes succeeded only from a pool that processed every app, met no fatal error, saw no cancel and has an app that did not fail |
| SyncEngine.EndsExactly | internal/sync/engine.go:216-378 | for every step that ends a row, which of the four final statuses it gets, each as an if and only if on the step, the cancellation and the fates of the pool's apps |
| SyncEngine.CancelledExactly | internal/sync/engine.go:91-122 | a run starts uncancelled and is cancelled exactly by a cancel of its store while it lives |
| SyncEngine.Engine.Start | internal/sync/engine.go:91-111 | which error is returned when, and otherwise exactly the start step |
| SyncEngine.Engine.Cancel | internal/sync/engine.go:113-122 | an error exactly when nothing runs, otherwise exactly the cancel step |
| SyncEngine.Engine.CancelAll | internal/sync/engine.go:145-151 | every live run is cancelled and rows and registrations stay |
| SyncEngine.Engine.Finish | internal/sync/engine.go:381-398 | exactly the failing or finishing step that is enabled, with the status that step decides; EndsExactly says which |
| SyncEngine.Engine.Remove | internal/sync/engine.go:203-208 | the deferred delete is exactly the delete step |
| SyncEngine.Engine.Recover | internal/sync/engine.go:82-88 | after a restart every open row is interrupted, and as many are counted |
| MetricStore.Store.UpsertMetricDays | internal/store/metrics.go:14-54 | the loop leaves the table of the upserts in order |
| MetricStore.LastWriterWins | internal/store/metrics.go:14-54 | a named column holds what the last row of its key says, any other column keeps its value or comes from the row that created the key |
| MetricStore.GroupsOfColumns | internal/store/metrics.go:18-54 | field by field, what one upserted row leaves in the table under each combination of column groups |
| MetricStore.ReplayChangesNothing | internal/store/metrics.go:14-54 | upserting a batch twice is upserting it once, repeated keys included |
| MetricStore.BatchesCommuteExactly | internal/store/metrics.go:14-62 | batches of disjoint column groups may be upserted in either order if and only if, for every key both create, their first rows agree in every column of neither group |
| MetricStore.BatchesCommute | internal/store/metrics.go:14-62 | batches of disjoint column groups that carry nothing else may be upserted in either order |
| PlayIngest.ToMetricDays | internal/sync/googleplay/googleplay.go:220-250 | the loop keeps the lines from the cutoff on, in order, each with its day, country and figures in the right columns, and the column groups of the last of them |
| PlayIngest.Ingester.SyncApp | internal/sync/googleplay/googleplay.go:107-218 | skipping, failing, cancelling, storing, marking and moving the checkpoint as one function of the state and the run, and when the result is free of errors |
| PlayIngest.IngestStores | internal/sync/googleplay/googleplay.go:220-263 | upserting a file leaves each of its figures from the cutoff on in the table; HeldFigures says in which columns |
| PlayIngest.HeldFigures | internal/sync/googleplay/googleplay.go:220-250 | a file held from a day on shows the user installs, device upgrades and user uninstalls of the last line of each day, or day and country in capitals (ZZ for none), as downloads, updates and uninstalls, or its crashes and ANRs |
| PlayIngest.IngestStoresFigures | internal/sync/googleplay/googleplay.go:220-263 | the same, column by column, for a file just upserted |
| PlayIngest.ActiveDevicesStored | internal/sync/googleplay/googleplay.go:236-243 | active devices follow the last line taken: where it has a count every row shows its own line's, 0 for none; where it has none, rows already there keep theirs |
| PlayIngest.IngestKeepsOthers | internal/sync/googleplay/googleplay.go:220-263 | upserting a file never disturbs a figure another file is the source of |
| PlayIngest.OtherKeepsFigure | internal/sync/googleplay/googleplay.go:220-263 | another file's upsert leaves a figure's value as it was, in both directions and also where it creates the row |
| PlayIngest.RunStoresExactly | internal/sync/googleplay/googleplay.go:107-218 | after any run, failed and cancelled ones included, a file reads right from the run's first day on if and only if the run stores it or it read right before |
| PlayIngest.ErrorFreeStoresExactly | internal/sync/googleplay/googleplay.go:127-149 | after a run without errors a file reads right from the run's first day on if and only if being skipped implies that it read right before |
| PlayIngest.MarksMoveExactly | internal/sync/googleplay/googleplay.go:126-192 | a file is marked with its generation if and only if the run reached it, it is of a month from the first day's on, is new, changed or recent or the run is a full one, and it did not fail; else its mark stays |
| PlayIngest.RunFailsExactly | internal/sync/googleplay/googleplay.go:126-158 | a run meets an error if and only if a file that it reaches and fetches fails |
| PlayIngest.CheckpointMovesExactly | internal/sync/googleplay/googleplay.go:194-198 | the checkpoint advances if and only if an uncancelled run can write it and stored a later day, whatever files failed; it moves back if and only if it was unreadable and all days stored are earlier |
| PlayIngest.CheckpointIsLatest | internal/sync/googleplay/googleplay.go:194-198 | a checkpoint that is written is the latest of the days stored and the checkpoint read |
| PlayHistory.RunKeepsMarks | internal/sync/googleplay/googleplay.go:107-218 | full, delta, failed and cancelled runs keep the promise that a file marked as ingested has its figures stored, from the later of the promise's first day and the run's on |
| PlayHistory.PruneKeepsMarks | internal/store/metrics.go:82-89 | retention keeps that promise from its cut on |
| PlayHistory.HistoryKeepsMarks | internal/store/metrics.go:64-89 | any history of runs, resets of the store's data and retention cuts keeps that promise from the latest first day of a run or cut on |
| PlayHistory.TrustedEarly | internal/sync/engine.go:494-509 | where checkpoints can be read, that day is no later than the next delta run's first day, the launch day and the last cut |
| PlayHistory.IncrementalEqualsFull | internal/sync/googleplay/googleplay.go:107-218 | after any history, a run without errors leaves every figure of every current installs and crashes file in its column of the table: for a full run from its first day on, for a delta run from its first day or the first day kept while checkpoints can be read, and else from the latest day a run ever started at |
| PlayHistory.IncrementalFigures | internal/sync/googleplay/googleplay.go:107-250 | the same with the days spelled out: for a full run from the launch day, for a delta run from the checkpoint less the overlap, or the first day kept if that is later |
| PlayHistory.AgreesWithCompleteDownload | internal/sync/googleplay/googleplay.go:107-218 | those figures are the ones a complete download into an empty database stores |
| PlayHistory.EarlyDaysCanBeMissed | internal/sync/engine.go:494-509 | a history in which an error-free delta run leaves a day before the launch day wrong |
| PlayHistory.UnreadCheckpointMisses | internal/sync/googleplay/googleplay.go:113-114 | a history in which an error-free run that cannot read its checkpoint leaves an old figure in place |
| PlayHistory.CheckpointPassesFailure | internal/sync/googleplay/googleplay.go:194-198 | a run with a failing file after which the checkpoint is later than before |
| PlayHistory.CheckpointCanMoveBack | internal/sync/googleplay/googleplay.go:113-195 | a run that cannot read its checkpoint writes an earlier one over it |
| AppStoreFold.CountsLandOnce | internal/storeclient/appstoreconnect/parse.go:115-161 | a line's count is the only one of the six metrics that is not zero, or all six are zero and its type is kept |
| AppStoreFold.EventsExactly | internal/storeclient/appstoreconnect/parse.go:115-161 | a line with an event counts as a deletion if the event begins with "delet" in any case, else as an install |
| AppStoreFold.DownloadTypesExactly | internal/storeclient/appstoreconnect/parse.go:115-161 | which metric each download type counts in, by the words it begins with in any case, and which types are kept as unknown |
| AppStoreFold.ColumnsExactly | internal/storeclient/appstoreconnect/parse.go:115-161 | a line with neither is read column by column |
| AppStoreFold.Territory | internal/storeclient/appstoreconnect/parse.go:169-192 | a text of two characters is kept in upper case, a listed name gets its own code, any other text "ZZ", and none the total row's "*" |
| AppStoreFold.TerritoryExactly | internal/storeclient/appstoreconnect/parse.go:169-192 | the text between the outer spaces decides, and two characters are put into capitals one by one |
| AppStoreFold.Accumulate | internal/sync/appstore/appstore.go:419-450 | one entry for each day and country counted and for each day, holding the sum of its rows, and an exact tally of unknown types |
| AppStoreFold.TallyIsNumber | internal/sync/appstore/appstore.go:419-437 | the tally of an unknown type is the number of its rows from the first day on |
| AppStoreFold.SumByRow | internal/sync/appstore/appstore.go:419-450 | one more row adds its counts, installs among the redownloads, to the sums of its day and country and of its day, and to no others |
| AppStoreFold.TotalIsSumOfCountries | internal/sync/appstore/appstore.go:438-449 | each day's total row is the sum of its country rows and of the counted input rows, in every column |
| AppStoreFold.FoldIgnoresOrder | internal/sync/appstore/appstore.go:419-456 | permuting the input changes neither the rows nor the tally |
| AppStoreFold.ToMetricDays | internal/sync/appstore/appstore.go:419-456 | the output lists each entry of the fold once, in any order |
| AppStoreIngest.IngestInstance | internal/sync/appstore/appstore.go:380-400 | the table after one instance is the upsert of its segments' folds, one after the other |
| AppStoreIngest.AmountsAreSums | internal/sync/appstore/appstore.go:438-456 | the columns of the table are the sums of the fold one for one, with no active devices and no ANRs |
| AppStoreIngest.AmountUpToLast | internal/sync/appstore/appstore.go:380-391 | what an instance counts for a key is what its last segment with that key counts and what the segments before do |
| AppStoreIngest.AmountFromFirst | internal/sync/appstore/appstore.go:380-391 | it is also what its first segment with that key counts and what the segments after do |
| AppStoreIngest.FigureIs | internal/sync/appstore/appstore.go:380-400 | for every column, what the table shows of a key the instance counts: the last counting segment's amount in the report's columns, else the old figure, else the first counting segment's amount |
| AppStoreIngest.FigureStored | internal/sync/appstore/appstore.go:380-400 | in every column the table falls short of the instance by exactly the part overwritten or never written |
| AppStoreIngest.StoredWholeExactly | internal/sync/appstore/appstore.go:380-400 | every figure the instance counts, in any column, is stored in full if and only if no part of it is overwritten or never written |
| AppStoreIngest.StoredWholeIfSeparate | internal/sync/appstore/appstore.go:380-400 | where counts are not negative, an instance is stored whole if and only if each figure of the report's columns is counted by no segment before the last, and each other figure is in a new row and counted by no segment after the first, or is in the table already |
| AppStoreIngest.NamedWholeExactly | internal/sync/appstore/appstore.go:197-201 | in the columns the report is written to, every figure is stored in full if and only if later segments overwrite nothing |
| AppStoreIngest.NamedWholeIfSeparate | internal/sync/appstore/appstore.go:197-201 | where each counted row adds to those columns, they are stored in full if and only if no day and country is counted by two segments |
| AppStoreIngest.SharedDayIsShort | internal/sync/appstore/appstore.go:380-400 | two segments with one download each on one day, after which the table is short of the instance |
| AppStoreIngest.InstallsAreLost | internal/sync/appstore/appstore.go:197-201 | one segment of the installs report for a day the table knows, none of whose installs arrive |
| AppStoreIngest.ReportOrderMatters | internal/sync/appstore/appstore.go:197-201 | the installs and the crash report of a new day, which leave different tables in the two orders |
| Calendar.NumberOfDate | internal/httpapi/handlers_metrics.go:178-200 | counting days one by one from year 0, forwards and backwards, agrees with the closed day number |
| Calendar.DateOfNumber | internal/httpapi/handlers_metrics.go:178-200 | every valid date is the date of its number |
| Calendar.BeforeNumber | internal/httpapi/handlers_metrics.go:186-197 | comparing dates is comparing day numbers |
| Calendar.TextOrder | internal/store/queries.go:30 | comparing YYYY-MM-DD texts, as BETWEEN does, is comparing dates |
| Calendar.FormatDigits | internal/httpapi/handlers_metrics.go:185 | a formatted day is its year, month and day in decimal, in four, two and two places |
| Calendar.KnownDays | internal/httpapi/handlers_metrics.go:185 | the computed weekdays of two known days, which fix the weekday count |
| Calendar.MonthLengths | internal/httpapi/handlers_metrics.go:178-200 | the lengths of the months and the leap years |
| Buckets.SqlBucketIsText | internal/store/queries.go:69-78 | SQL's bucket text of a day is Go's text of the day's bucket |
| Buckets.MondayExactly | internal/store/queries.go:71-73 | a week's bucket is a Monday at most six days before the day |
| Buckets.OwnBucket | internal/httpapi/handlers_metrics.go:182-198 | every day lies in its own bucket, before the next bucket starts |
| Buckets.CoveringIsOwn | internal/httpapi/handlers_metrics.go:182-198 | a bucket that covers a day is that day's bucket |
| Buckets.BucketsBetween | internal/httpapi/handlers_metrics.go:178-200 | the list is strictly increasing, starts at the first day's bucket and holds the bucket of every day of the range |
| Buckets.SqlBucketOccursOnce | internal/store/queries.go:69-78 | the SQL bucket of each day of the range is the text of exactly one bucket of the list |
| Series.PointsSumToTotals | internal/store/queries.go:80-128 | the points of the grouped query add up to SumTotals of the same range and scope |
| Series.TotalsByRow | internal/store/queries.go:24-31 | one more row adds its value to SumTotals exactly if it is a total row of an app in scope on a day of the range |
| Series.GroupsByRow | internal/store/queries.go:80-111 | one more row adds its value to the group of its app's key and its day's bucket and to no other, exactly if it is a total row of an app in scope on a day of the range |
| Series.Index | internal/httpapi/handlers_metrics.go:148-152 | each bucket's text is mapped to its place |
| Series.Fill | internal/httpapi/handlers_metrics.go:153-170 | one line per key, with the sum of the key's points in each bucket's place |
| Series.MetricsSeries | internal/httpapi/handlers_metrics.go:147-175 | the entries are the lines of all keys over the whole bucket list |
| Series.PointsHaveBuckets | internal/httpapi/handlers_metrics.go:167-169 | no point is dropped: its bucket is one of the dense buckets |
| Series.SeriesSumsToTotals | internal/httpapi/handlers_metrics.go:146-175 | the dense series summed over keys and buckets is SumTotals |
| Series.CellsAreGroupSums | internal/httpapi/handlers_metrics.go:146-175 | each cell of the dense series is the sum of the rows of its key and bucket, and every app with a row that counts has a line |
| RangeParams.ParseFormat | internal/httpapi/handlers_metrics.go:53-62 | a formatted day parses to the day |
| RangeParams.ParsedIsFormatted | internal/httpapi/handlers_metrics.go:70-73 | only formatted days parse |
| RangeParams.AskedExactly | internal/httpapi/handlers_metrics.go:47-62 | which days are asked for: the days the parameters spell, else yesterday and the day 29 before the last, put in order |
| RangeParams.RangeIsPreceded | internal/httpapi/handlers_metrics.go:47-68 | the range runs between the asked days in order, and the period before it ends the day before and is as long if and only if the range is within Go's Duration and starts in or after year 0 |
| RangeParams.LongestDuration | internal/httpapi/handlers_metrics.go:64-66 | 106,751 days fit a Duration and one more does not |
| RangeParams.DefaultRange | internal/httpapi/handlers_metrics.go:51-58 | without parameters the range is the 30 days that end yesterday |
| RangeParams.LongRangeLosesDays | internal/httpapi/handlers_metrics.go:64-66 | from 1700-01-01 to 2024-01-01 there is no preceding period of equal length |
| RangeParams.EarlyRangeLosesDays | internal/httpapi/handlers_metrics.go:55-66 | nor for the default range that ends on 0000-01-05 |
| Utf16.DecodeUTF16 | internal/storeclient/googleplay/parse.go:17-43 | the three loops compute the decoding of either byte order, and other input loses a UTF-8 mark only |
| Utf16.DecodeFile | internal/storeclient/googleplay/parse.go:17-38 | mark and UTF-16 form of any text decode to the text's UTF-8 form, in either byte order, with or without a stray last byte |
| Utf16.FirstExactly | internal/storeclient/googleplay/parse.go:29-34 | a unit that is no surrogate stands for itself, a high one and a low one for the character their low ten bits spell, and any other surrogate for U+FFFD |
| Utf16.UnitsExactly | internal/storeclient/googleplay/parse.go:17-33 | characters beyond U+FFFF are two surrogates, others one unit, and a unit is two bytes in the order of the mark |
| Utf16.Utf8Exactly | internal/storeclient/googleplay/parse.go:34-37 | the bytes of a character in UTF-8: how many, their ranges, and the number their low bits spell |
| Utf16.NoMarkStays | internal/storeclient/googleplay/parse.go:17-43 | input without any of the three marks is passed on as it is |
| Utf16.LosslessWhenPaired | internal/storeclient/googleplay/parse.go:31 | decoding code units loses nothing if and only if every surrogate has its partner |
| Utf16.Utf8Injective | internal/storeclient/googleplay/parse.go:34-37 | different texts decode to different bytes |
| Utf16.DecodeUtf8 | internal/storeclient/googleplay/parse.go:41-42 | decoding UTF-8 is the identity if and only if the text does not begin with U+FEFF, which alone is dropped |
| Utf16.DecodeTwice | internal/storeclient/googleplay/parse.go:105-106 | a report decoded at download and again when its CSV is read is its UTF-8 text if and only if it does not begin with U+FEFF |
| Utf16.LeadingMarkIsLost | internal/storeclient/googleplay/parse.go:105-106 | a file whose text is U+FEFF and the letter A decodes twice to the letter alone |
| RateLimiter.Compact | internal/auth/auth.go:294-299 | the entries after the cut, in order, end up at the front of the same array, and no place behind them is written |
| RateLimiter.Append | internal/auth/auth.go:304 | the new time follows the kept entries, in place or in a larger array |
| RateLimiter.RateLimiter.Update | internal/auth/auth.go:293-305 | a key's entries after a call, and that no other key's entries change although arrays are reused |
| RateLimiter.RateLimiter.Allow | internal/auth/auth.go:289-306 | a call is admitted if and only if fewer than max earlier admissions of its key, judged on the full history, lie in the window before it |
| RateLimiter.CountIsNumber | internal/auth/auth.go:289-300 | what is counted is the number of the key's admissions later than the window's start |
| RateLimiter.WindowBound | internal/auth/auth.go:289-306 | no interval of the window's length holds more than max admissions of a key |
| RateLimiter.RunBound | internal/auth/auth.go:289-306 | that bound for every sequence of calls with a non-decreasing clock |
| RateLimiter.RateLimiter.Bounded | internal/auth/auth.go:278-306 | the limiter's own history keeps that bound after any calls |
| Slugs.SlugifyGivesSlug | internal/store/products.go:36-44 | a slug is non-empty, has only letters, digits and single hyphens between them |
| Slugs.SlugifyFixes | internal/store/products.go:36-44 | the texts Slugify leaves alone are exactly the slugs |
| Slugs.SlugifyIdempotent | internal/store/products.go:36-44 | making a slug of a slug changes nothing |
| Slugs.SlugOfNormalized | internal/store/products.go:36-51 | a slug is the normalized name with hyphens for spaces, or "product" for an empty one |
| Slugs.SlugKeepsLetters | internal/store/products.go:36-44 | a slug has exactly the name's letters a to z and digits, capitals put into lower case, in their order |
| Products.CandidatesDiffer | internal/store/products.go:60-70 | the numbered candidates of a base are all different |
| Products.ItoaIsDecimal | internal/store/products.go:60-70 | the suffix is the number in decimal, without a leading zero |
| Products.Table.CreateProduct | internal/store/products.go:53-81 | the first candidate no product has is found within one lookup more than there are products; the insert then fails if and only if the name is taken, and keeps names and slugs unique |

## Left out

- Foreign code: HTTP, JSON and CSV reading, signing, retries, `TextEncoder` and SQLite itself. The model starts from bytes, parsed rows and tables, and each transaction is one atomic step.
- Integer width: counters and day numbers are unbounded, so int64 overflow and the rounding of `Math.ceil` on quotients are not modelled; only the saturation of `Duration` is.
- QR versions above 15 and levels Q and H, which the encoder's tables do not hold; the finder-like pattern rule of ISO/IEC 18004:2015 section 7.8.3, which the encoder's score omits.
- Error correction by the reader: the reader accepts a block only if all its syndromes are zero, and does not correct one in which some are not.
- The progress ticker and the persisted progress columns: the accounting is about the run in memory, since a late tick may be written after the final count.
- SyncEngine.Engine.Finish: the write of the final status is taken to succeed, as `finish` only logs a failure; after a failed write the row stays open until the next restart.
- SyncPool.NeverStuck: progress of a run needs every started `SyncApp` call to return.
- Process death is one step that ends every goroutine and interrupts open rows; `Stop`'s waiting and the pruning of old run rows are not part of this model.
- PlayHistory.IncrementalEqualsFull: the listing and the download are taken to show the same generation, content to change only with its generation, names in a listing to be unique and generations non-empty, each file to hold only its own month, the overlap setting to stay the same, and no country column to read "*".
- PlayIngest.Ingester.SyncApp: reviews, rating snapshots, log lines and statistics are left out, and so are errors of the reviews request; a checkpoint text that does not parse cannot occur because checkpoints are day numbers here.
- Agreement of `active_devices`: whether a file writes that column is decided by its last row taken (`PlayIngest.ActiveDevicesStored`), so it is stored and merged in the model but not part of the agreement over histories; NULL is 0, and `source_updated_at` is not modelled.
- PlayHistory.PruneKeepsMarks: retention and resets happen between runs here, never in the middle of one.
- AppStoreFold.Territory: lengths are counted in characters, where the code counts bytes, and letters outside A to Z keep their case.
- AppStoreIngest.IngestInstance: which instances are downloaded (granularity, processing date, the two report requests), the checkpoint that follows, and the merging of the unknown-type tallies over instances.
- App Store review cursors, which are set even after a failed batch, so no completeness holds for them.
- Buckets.SqlBucketIsText: days whose Monday lies before year 0 are excluded, as SQLite has no date for it.
- Series.SeriesSumsToTotals: ranges that start before year 0, as the one of `RangeParams.EarlyRangeLosesDays`, are excluded; there the handler cannot read the first day back, lists no bucket and drops every point, while SumTotals still counts.
- Series.PointsSumToTotals: the metric `active_devices` (a maximum, not a sum) and grouping by country are excluded; labels are left out, and distinct SQL keys are taken to print differently.
- Slugs.SlugifyGivesSlug: lower-casing is modelled by which characters become one of a to z; all other letters are replaced either way.
- Products.Table.CreateProduct: lookup and insert are one step; a product created in between by another request would end in the conflict error.
- Report object names (`ClassifyObject`), role checks, handlers, the scheduler, backups and all pages: branch-by-branch rules or plumbing that would only add easy members.
