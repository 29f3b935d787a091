# Verified models for Sky Auto Player

This project models the parts of Sky Auto Player whose correctness is hard to see from the code, and
proves what they promise. It is written in Dafny 4.11; `dafny verify dfyconfig.toml` checks all of it.

| area | modules | what is proved |
|---|---|---|
| Song comparison | `EditDistance`, `OnsetShape`, `NoteOverlap`, `Melody` | The rolling-row loop computes the Levenshtein distance, which is a metric and the least cost of an edit script. The greedy note matching is one-to-one, maximal and at least half of any matching. All timing signals ignore tempo and shift. A transposition is reported exactly when there is one. |
| Activity admission | `ActivityGate` | Over every run of reservations, drops, quarantines, shutdowns and lock poisoning: mutual exclusion, sticky closing, no leaked lease. |
| Close protocol | `CloseProtocol` | Over every interleaving of any number of lazy constructions, subscriptions and closes with any activity at the gate: one runtime, one close, nothing left running, no reservation after it, no deadlock, bounded length. |
| Software bill of materials | `BunResolver`, `BunGraph`, `TrailingCommas`, `FileTable`, `SbomDocument` | The worklist finds exactly the reachable graph. The comma scanner removes exactly the trailing commas. Every generated document is accepted, and acceptance pins the files down. |
| Commit times | `CivilTime`, `UtcTimestamp`, `Decimal` | Unix seconds to Gregorian date and RFC 3339 text, round trips both ways, and agreement with the independent validator (sections 5.6 and 5.7 and Appendix C of RFC 3339). |
| Scanners and files | `Redaction`, `RedactionLeaks`, `FragmentSearch`, `ReplaceFile` | The redaction split is unique, and which secrets can show through is decided exactly. The fragment and word searches are complete exactly under a stated condition. File replacement rolls back under any failures. |
| CI classification | `CiRules`, `CiClassifier`, `GithubOutput` | Lanes form a union over paths and fail closed. The output block always reads back. |

`Wrappers`, `Texts`, `Sets` and `Ordering` hold what the others share: option and result types, text
search, sizes of sets, and the ordered listing of sets that stands for `BTreeMap` and `BTreeSet`
iteration.

## How the source is represented

- `f64` scores are `real` numbers; rounding is not modelled. The `u16`, `u32` and `u64` conversions
  that end the onset formulas are written out; intermediate `u128` products cannot overflow.
- Bytes and text are `seq<char>`; a byte is the character with its code.
- A mutex-protected critical section is one atomic step. In `CloseProtocol` each atomic load, lock,
  action and unlock is a step of its own wherever another thread could tell the difference. A poisoned
  lock is a frozen state that fails closed.
- Hashes, the git commit, the clock, the process id and the version-matching relation are parameters.
- A JSON document is given by the fields that the validator reads; a field is `None` where the value is
  absent or of the wrong type.
- A file operation may fail at any call and then leaves the file system as it was. The backup name is
  fresh, which `unique_sibling` (`rust/xtask/src/ci_artifacts.rs:195-210`) is built to provide.

## Where the code does not do what one might expect

The model follows the code. In each case the exact condition is proved.

- Days before 1 March of year 0 (negative `z`) come out one day late, because line 58 of
  `rust/xtask/src/repo.rs` corrects for truncating division but divides with `div_euclid`. The date is
  right if and only if `z >= 0` or `z` leaves remainder 146096 modulo 146097
  (`CivilTime.CivilIsCorrectIff`).
- Stripping trailing commas is not idempotent: `,,}` needs two passes. It is final if and only if no
  comma stands before a removed one (`TrailingCommas.StripIsFinalIff`).
- `contains_word` skips overlapping occurrences, so it can miss a bounded one, as for the token `--` in
  `a---`. It misses none if and only if the token has no weak self-overlap
  (`FragmentSearch.ScanFindsEveryWordIff`); a token made of word characters has none.
- The last test of `contains_word_with_suffix` never fails: after the run of word characters there is
  never another one, so only the character before the occurrence matters
  (`FragmentSearch.SuffixNeedsOnlyTheStart`).
- `release_calibration` called directly, without dropping the lease, can put two leases in play at some
  later point of the run. It can if and only if a calibration lease is live and the gate is not shut
  (`ActivityGate.DirectReleaseBreaksExclusionIff`).
- A secret can remain visible in redacted output, but only across an inserted marker. Some output shows
  it if and only if one of its two encodings `p` agrees with the marker under some shift, and the bytes
  of `p` before and after the marker, written around one of the encodings, are copied while that
  encoding is masked (`RedactionLeaks.SecretShowsIff`). This is a finite test on the secret alone. No
  byte in common with the marker is enough to fail it (`Redaction.NoSharedByteCannotOverlap`).

## Model

| member | source | states |
|---|---|---|
| `EditDistance.SequenceSimilarity` | rust/xtask/src/song_audit.rs:905-924 | The single rolling row computes exactly one minus the recursive Levenshtein distance over the longer length, for all inputs within 4,000,000 cells; above the budget it is an error carrying the cell count |
| `EditDistance.NextRow` | rust/xtask/src/song_audit.rs:912-919 | Given the row of distances for a prefix of the left side, the inner loop yields the row for the next prefix |
| `EditDistance.LevTriangle` | rust/xtask/src/song_audit.rs:905-924 | The distance satisfies the triangle inequality on all integer sequences |
| `EditDistance.LevSymmetric` | rust/xtask/src/song_audit.rs:905-924 | The distance is symmetric |
| `EditDistance.LevZeroIffEqual` | rust/xtask/src/song_audit.rs:905-924 | The distance is zero if and only if the sequences are equal |
| `EditDistance.LevBounds` | rust/xtask/src/song_audit.rs:905-924 | The distance is at least the length difference and at most the longer length |
| `EditDistance.EveryScriptCostsAtLeastLev` | rust/xtask/src/song_audit.rs:910-921 | No script of keeps, replacements, insertions and deletions that turns one sequence into the other is cheaper than the distance |
| `EditDistance.SomeScriptCostsLev` | rust/xtask/src/song_audit.rs:910-921 | Some edit script costs exactly the distance, so the distance is the least number of edits |
| `EditDistance.SimilarityProperties` | rust/xtask/src/song_audit.rs:922-923 | The score lies in [0, 1], is 1 exactly on equal sequences, and is symmetric |
| `EditDistance.LossIsLeastEdits` | rust/xtask/src/song_audit.rs:921-923 | One minus the score, times the longer length, is exactly the least cost of an edit script between the two sequences |
| `OnsetShape.PositionsRetimed` | rust/xtask/src/song_audit.rs:597-613 | Shifting all onsets and scaling them by a positive tempo factor leaves every normalised position unchanged |
| `OnsetShape.RatiosRetimed` | rust/xtask/src/song_audit.rs:615-633 | The same retiming leaves every inter-onset ratio unchanged, through the filter, the sort and the median |
| `OnsetShape.RelativePositionRetimed` | rust/xtask/src/song_audit.rs:822-828 | Retiming time, first onset and span together leaves a relative position unchanged |
| `OnsetShape.SortPermutes` | rust/xtask/src/song_audit.rs:624-624 | The sort before the median gives a sorted permutation of the same length |
| `OnsetShape.MedianScaled` | rust/xtask/src/song_audit.rs:624-625 | Scaling the intervals scales their median by the same factor |
| `OnsetShape.PositionIsElapsedShare` | rust/xtask/src/song_audit.rs:822-828 | A time inside the span is placed at p if and only if p is the elapsed time in ten-thousandths of the span, rounded down; p is at most 10000 |
| `OnsetShape.PositionOutsideSpan` | rust/xtask/src/song_audit.rs:822-828 | A time before the first, or a zero span, gives 0; a time past the span runs on and wraps at 64 bits |
| `OnsetShape.OnsetPositionIsElapsedShare` | rust/xtask/src/song_audit.rs:597-613 | Every normalised position of sorted onsets is its elapsed share in ten-thousandths, rounded down |
| `OnsetShape.OnsetPositionWraps` | rust/xtask/src/song_audit.rs:597-613 | On any onsets, sorted or not, a position is the elapsed share wrapped at 16 bits |
| `OnsetShape.MedianRank` | rust/xtask/src/song_audit.rs:624-625 | At most half of the intervals are below the median and more than half are not above it |
| `OnsetShape.MedianIsUnique` | rust/xtask/src/song_audit.rs:624-625 | Only the median has that rank |
| `OnsetShape.PositiveKeepsPositives` | rust/xtask/src/song_audit.rs:616-620 | The filter keeps every positive interval as often as it occurs and nothing else |
| `OnsetShape.RatioOfInterval` | rust/xtask/src/song_audit.rs:626-632 | Every ratio is its interval in thousandths of the median of the positive intervals, rounded down and capped at 32 bits |
| `OnsetShape.PositionsRiseFromZeroToTenThousand` | rust/xtask/src/song_audit.rs:597-613 | On sorted onsets the positions are non-decreasing, start at 0, and end at 10000 unless the span is zero; the 16-bit cast loses nothing |
| `OnsetShape.MedianRatioIsOneThousand` | rust/xtask/src/song_audit.rs:625-632 | There is one ratio per neighbouring pair, and the interval chosen as median is present with ratio exactly 1000 |
| `NoteOverlap.NormalizedNoteOverlap` | rust/xtask/src/song_audit.rs:744-820 | The two nested searches return the F1 score of the greedy matching; an empty sheet gives no score, and an over-budget pair of non-empty sheets is an error |
| `NoteOverlap.PlaceIsElapsedShare` | rust/xtask/src/song_audit.rs:756-795 | A note of a time-ordered sheet is placed at its elapsed share of the sheet, rounded down, and keeps its button |
| `NoteOverlap.Nearest` | rust/xtask/src/song_audit.rs:799-808 | The filtered minimum is the first among the nearest free candidates |
| `NoteOverlap.PickBelow` | rust/xtask/src/song_audit.rs:799-808 | The choice is free, has the same button within 200 units, is nearest, and is the first among equals; none is chosen only if none is free |
| `NoteOverlap.GreedyIsMatching` | rust/xtask/src/song_audit.rs:796-812 | The chosen pairs are one-to-one and join only equal buttons within 200 units |
| `NoteOverlap.EligibleIff` | rust/xtask/src/song_audit.rs:802-806 | Notes may be paired if and only if they have one button and lie at most 200 units apart, either way |
| `NoteOverlap.GreedyIsMaximal` | rust/xtask/src/song_audit.rs:796-812 | No eligible pair is left with both ends unmatched |
| `NoteOverlap.HitsAreMatchingSize` | rust/xtask/src/song_audit.rs:797-811 | The hit counter equals the number of pairs |
| `NoteOverlap.GreedyIsHalfOptimal` | rust/xtask/src/song_audit.rs:796-812 | Any valid matching has at most twice as many pairs as the greedy hits |
| `NoteOverlap.SwappedHits` | rust/xtask/src/song_audit.rs:796-812 | Swapping the two sheets changes the hit count by at most a factor of two |
| `NoteOverlap.SelfMatch` | rust/xtask/src/song_audit.rs:796-812 | Compared with itself, a sheet matches each note with itself even where positions collapse |
| `NoteOverlap.F1ClosedForm` | rust/xtask/src/song_audit.rs:813-819 | The harmonic mean of precision and recall is twice the hits over the two lengths together, the zero case included |
| `NoteOverlap.OverlapBounds` | rust/xtask/src/song_audit.rs:813-819 | The score lies in [0, 1] and is 1 exactly when every note on both sides is matched |
| `NoteOverlap.SelfOverlapIsOne` | rust/xtask/src/song_audit.rs:744-820 | A sheet scores 1 against itself |
| `NoteOverlap.OverlapRetimed` | rust/xtask/src/song_audit.rs:744-828 | Retiming either sheet by its own shift and positive factor leaves the score unchanged |
| `NoteOverlap.RetimedCopyScoresOne` | rust/xtask/src/song_audit.rs:744-828 | A sheet scores 1 against any later or slower copy of itself |
| `Melody.GroupPhysicalOnsets` | rust/xtask/src/song_audit.rs:540-546 | The grouping loop maps every onset time, and no other, to the set of buttons struck at it |
| `Melody.SketchIsHighestKey` | rust/xtask/src/song_audit.rs:565-576 | Entry i belongs to the onset time that has exactly i earlier ones, and is the semitone of the highest button struck then, raised by the source pitch |
| `Melody.PitchIsChromatic` | rust/xtask/src/song_audit.rs:1241-1256 | A pitch name counts its place in the chromatic scale on C, and any other name counts as C |
| `Melody.KeysAreMajorScale` | rust/xtask/src/song_audit.rs:18-18 | The fifteen keys are two octaves of the major scale on C |
| `Melody.SameIntervalsIffTransposed` | rust/xtask/src/song_audit.rs:488-491 | Two melodies of one length have equal interval sketches if and only if one is a transposition of the other |
| `Melody.DetectTransposition` | rust/xtask/src/song_audit.rs:661-675 | Scoring the interval sketches and then looking for an offset fails exactly over budget and otherwise reports the specified offset |
| `Melody.OffsetReportedIffTransposed` | rust/xtask/src/song_audit.rs:885-903 | For equal lengths of at least two, offset k is reported if and only if every note differs by k: the 0.9 gate never rejects a transposition |
| `Melody.NoOffsetOtherwise` | rust/xtask/src/song_audit.rs:890-895 | Melodies of different lengths or of fewer than two notes have no offset |
| `Melody.GateDecides` | rust/xtask/src/song_audit.rs:890-902 | For a transposition the similarity gate alone decides, at nine tenths |
| `Melody.PitchOnlyTransposes` | rust/xtask/src/song_audit.rs:565-576 | Changing only the source pitch transposes the melody by the pitch difference and leaves the interval sketch unchanged |
| `Melody.RetunedSheetReportsPitchDifference` | rust/xtask/src/song_audit.rs:1241-1256 | One sheet under two source pitches is reported as exactly the difference of the two pitch offsets |
| `ActivityGate.ActivityCoordinator.ReservePlayback` | apps/desktop/src-tauri/src/app_state.rs:82-111 | Granted exactly when no activity, closing, quarantine or poisoning is recorded; otherwise the first reason in the order closing, quarantine, calibration, update, playback; only the session field changes |
| `ActivityGate.ActivityCoordinator.ReserveCalibration` | apps/desktop/src-tauri/src/app_state.rs:113-139 | The same admission rule with the order calibration, playback, update; only the calibration flag changes |
| `ActivityGate.ActivityCoordinator.ReserveUpdate` | apps/desktop/src-tauri/src/app_state.rs:141-165 | The same admission rule with the order playback, calibration, update; only the update flag changes |
| `ActivityGate.RefusedIff` | apps/desktop/src-tauri/src/app_state.rs:91-105 | A caller is refused exactly unless the gate admits, and the order of the tests changes the reason only when two flags are set |
| `ActivityGate.ActivityCoordinator.ReleasePlayback` | apps/desktop/src-tauri/src/app_state.rs:167-173 | Clears the session only if it is the named one and the lock is sound |
| `ActivityGate.ActivityCoordinator.QuarantinePlayback` | apps/desktop/src-tauri/src/app_state.rs:175-189 | Succeeds exactly unless poisoned or another session plays; then the session is cleared and quarantine set |
| `ActivityGate.ActivityCoordinator.PhysicalReleaseIsQuarantined` | apps/desktop/src-tauri/src/app_state.rs:191-196 | Reports quarantine, and reports it for a poisoned lock |
| `ActivityGate.ActivityCoordinator.ReleaseCalibration` | apps/desktop/src-tauri/src/app_state.rs:198-202 | Clears the flag unconditionally unless poisoned |
| `ActivityGate.ActivityCoordinator.ReleaseUpdate` | apps/desktop/src-tauri/src/app_state.rs:204-208 | Clears the update flag unless poisoned |
| `ActivityGate.ActivityCoordinator.BeginShutdown` | apps/desktop/src-tauri/src/app_state.rs:210-214 | Sets closing unless poisoned |
| `ActivityGate.RunSound` | apps/desktop/src-tauri/src/app_state.rs:66-243 | In every run, direct calibration releases included: at most one activity flag is set; a live playback lease has its session recorded or quarantine set; playback and update leases exclude each other; an occupied unpoisoned gate is occupied for a live lease |
| `ActivityGate.NextSound` | apps/desktop/src-tauri/src/app_state.rs:81-243 | Each single critical section preserves those facts |
| `ActivityGate.RunExclusive` | apps/desktop/src-tauri/src/app_state.rs:66-243 | At most one lease of any kind is live in every run whose direct calibration releases happen only while no calibration lease is live or the gate is shut |
| `ActivityGate.RunKeepsExclusive` | apps/desktop/src-tauri/src/app_state.rs:66-243 | The same from any world in which exclusion holds |
| `ActivityGate.NextExclusive` | apps/desktop/src-tauri/src/app_state.rs:81-243 | Each such step preserves exclusion of all three kinds of lease |
| `ActivityGate.DirectReleaseBreaksExclusionIff` | apps/desktop/src-tauri/src/app_state.rs:198-202 | After a direct calibration release some legal continuation of any length, without another such release, has two live leases if and only if a calibration lease was live and the gate not shut |
| `ActivityGate.DirectReleaseCounterexample` | apps/desktop/src-tauri/src/app_state.rs:198-202 | The run that does so: reserve calibration, release it directly, reserve an update |
| `ActivityGate.OwnQuarantineSucceeds` | apps/desktop/src-tauri/src/app_state.rs:76-78 | In every run the quarantine of a live playback lease succeeds if and only if the lock is unpoisoned |
| `ActivityGate.ShutForever` | apps/desktop/src-tauri/src/app_state.rs:87-96 | After closing, quarantine or poisoning no continuation grants a lease again |
| `ActivityGate.QuarantineIsFinal` | apps/desktop/src-tauri/src/app_state.rs:175-189 | In every run, quarantining a live playback lease on a sound lock clears the session, makes every caller be refused for it, and no continuation grants a lease |
| `ActivityGate.ShutdownIsFinal` | apps/desktop/src-tauri/src/app_state.rs:210-214 | In every run, after shutdown every caller is refused as closing and no continuation grants a lease |
| `ActivityGate.NoLeaseLeaks` | apps/desktop/src-tauri/src/app_state.rs:66-70 | When all leases are dropped the gate is idle, so it admits again exactly unless shut |
| `CloseProtocol.EnsureMoveOk` | apps/desktop/src-tauri/src/app_state.rs:290-342 | Each step of lazy construction keeps the shared invariant and the thread's own |
| `CloseProtocol.EnsureMoveDoesNotInterfere` | apps/desktop/src-tauri/src/app_state.rs:290-342 | No step of it breaks what any other thread relies on |
| `CloseProtocol.CloseMoveOk` | apps/desktop/src-tauri/src/lifecycle.rs:4-49 | Each step of the close sequence keeps the shared invariant and the closer's own |
| `CloseProtocol.CloseMoveDoesNotInterfere` | apps/desktop/src-tauri/src/app_state.rs:344-356 | No step of it breaks what any other thread relies on |
| `CloseProtocol.SubscribeMoveOk` | apps/desktop/src-tauri/src/app_state.rs:358-371 | Each step of a subscription keeps the shared invariant and the thread's own |
| `CloseProtocol.SubscribeMoveDoesNotInterfere` | apps/desktop/src-tauri/src/app_state.rs:358-371 | No step of it breaks what any other thread relies on |
| `CloseProtocol.BehaviourInv` | apps/desktop/src-tauri/src/app_state.rs:290-371 | The invariant holds at every point of every interleaving of any number of calls |
| `CloseProtocol.EveryRuntimeIsShutDown` | apps/desktop/src-tauri/src/app_state.rs:336-356 | Once shutdown_native has returned, every runtime ever built has been shut down, unless a thread still holds one that it has built and not yet stored or shut down; calls still to come are allowed |
| `CloseProtocol.Milestones` | apps/desktop/src-tauri/src/app_state.rs:340-371 | At most one runtime is ever installed, at most one close is ever accepted, and no channel is subscribed after the no-runtime branch has closed the hub |
| `CloseProtocol.AnswersAreGenuine` | apps/desktop/src-tauri/src/app_state.rs:295-371 | In every run a call that returns a runtime returns the installed one, and a finished subscription reports success if and only if it is the channel of the hub |
| `CloseProtocol.CallsAreServed` | apps/desktop/src-tauri/src/app_state.rs:290-371 | While nothing has failed, a call returns without a runtime only if a close was accepted, and a subscription fails only then or when another channel is present |
| `CloseProtocol.LateCallsAreRefused` | apps/desktop/src-tauri/src/app_state.rs:291-293 | A call that begins after a close was accepted gets no runtime, no channel and no second shutdown |
| `CloseProtocol.HubClosedIffNoRuntime` | apps/desktop/src-tauri/src/app_state.rs:351-355 | In every run the hub is closed only without a runtime, and once shutdown_native has returned without one it is closed or its lock poisoned |
| `CloseProtocol.DestroyComesLast` | apps/desktop/src-tauri/src/lifecycle.rs:32-39 | The window is destroyed only after shutdown_native returned; the activity gate is then shut, and no closer is still under way |
| `CloseProtocol.NoReservationAfterClose` | apps/desktop/src-tauri/src/app_state.rs:430-436 | Once an accepted close has told the activity gate, it is shut for the rest of every run, and no reservation is granted whatever the gate goes through between steps |
| `CloseProtocol.SomeoneCanMove` | apps/desktop/src-tauri/src/app_state.rs:290-371 | While any call has not returned some thread can move: the two locks never deadlock |
| `CloseProtocol.NextWorks` | apps/desktop/src-tauri/src/app_state.rs:290-371 | Every step strictly lowers the work left over all threads |
| `CloseProtocol.StepsAreBounded` | apps/desktop/src-tauri/src/app_state.rs:290-371 | An interleaving of n calls has at most 6n thread steps |
| `CloseProtocol.EveryCompleteRunCloses` | apps/desktop/src-tauri/src/lifecycle.rs:15-39 | Every maximal run with at least one close ends within 6n thread steps with all calls returned, the window destroyed and every runtime shut down |
| `BunResolver.ResolveIff` | rust/xtask/src/sbom.rs:594-629 | A dependency resolves to a key if and only if that entry fits and is the nested entry, or the nested entry does not fit and no other entry fits |
| `BunResolver.NestedEntryWins` | rust/xtask/src/sbom.rs:600-610 | An entry nested under the parent key that fits is taken; at the root, the entry of the name itself |
| `BunResolver.OtherwiseTheOnlyEntry` | rust/xtask/src/sbom.rs:611-628 | Otherwise a key is taken if and only if it is the only entry that fits; the error says unresolved exactly when none fits and ambiguous exactly when several do |
| `BunResolver.ResolvedFits` | rust/xtask/src/sbom.rs:594-629 | Whatever is resolved is in the table, has the name asked for and satisfies the requirement |
| `BunGraph.ResolveRoots` | rust/xtask/src/sbom.rs:506-513 | The root loop fails exactly if a root fails, and otherwise gives one distinct package per root name |
| `BunGraph.RootPackages` | rust/xtask/src/sbom.rs:502-514 | The root packages are exactly the resolved root dependencies, as many as there are names |
| `BunGraph.Expand` | rust/xtask/src/sbom.rs:526-532 | Expanding a package fails exactly if one of its dependencies does; it adds exactly its edges and queues every target not yet selected |
| `BunGraph.ExpandNames` | rust/xtask/src/sbom.rs:526-532 | The loop over the dependency names keeps those facts name by name |
| `BunGraph.Close` | rust/xtask/src/sbom.rs:516-533 | The worklist terminates despite duplicates; on success the selected set is exactly what is reachable and the edges exactly its resolved dependencies; it fails only if some reachable package has a failing dependency |
| `BunGraph.ClosedHoldsChains` | rust/xtask/src/sbom.rs:516-533 | A set that holds the roots and is closed under dependencies holds the end of every chain from a root |
| `BunGraph.ListedIsGraph` | rust/xtask/src/sbom.rs:534-547 | The listed packages, roots and edges are in strictly ascending order and are exactly the closure |
| `Ordering.StringLeIff` | rust/xtask/src/sbom.rs:516-517 | The order of listed keys is that of strings: one begins the other, or the first differing character is smaller |
| `Ordering.PairsAscendByFirst` | rust/xtask/src/sbom.rs:516-517 | Listed edges are ordered by the depending package and then by the dependency |
| `BunGraph.FrontendGraph` | rust/xtask/src/sbom.rs:502-548 | Fails if and only if a root fails or a reachable package has a failing dependency; otherwise the result is exactly the reachable graph in order |
| `BunGraph.EndpointsAreIndexed` | rust/xtask/src/sbom.rs:43-50 | The lookup by key succeeds for every root and both ends of every edge, and finds the lock file's entry for that key |
| `TrailingCommas.StripTrailingCommas` | rust/xtask/src/sbom.rs:653-693 | The flag-driven scanner removes exactly the commas outside strings whose next non-blank character closes an object or array |
| `TrailingCommas.CommaBeforeCloser` | rust/xtask/src/sbom.rs:679-688 | After any text outside strings, a comma followed by ASCII blanks and another character is trailing if and only if that character is a closing brace or bracket |
| `TrailingCommas.QuotedIsOneString` | rust/xtask/src/sbom.rs:661-678 | Any text quoted as JSON does it, with escaped quotes and backslashes, is inside one string throughout and outside right after |
| `TrailingCommas.BlankCodes` | rust/xtask/src/sbom.rs:681-681 | The blanks are the five ASCII white-space bytes |
| `TrailingCommas.LexersStayAligned` | rust/xtask/src/sbom.rs:659-691 | At matching places the input and the output are in the same lexer state |
| `TrailingCommas.StringsAreKept` | rust/xtask/src/sbom.rs:661-678 | Every character of a string literal, and every quote, is kept unchanged at its place and in its state |
| `TrailingCommas.KeptCharacter` | rust/xtask/src/sbom.rs:689-690 | Every character that is not a trailing comma appears unchanged at its place |
| `TrailingCommas.OutputHasSource` | rust/xtask/src/sbom.rs:658-692 | Every output character comes from a kept input character |
| `TrailingCommas.BecomesTrailingIff` | rust/xtask/src/sbom.rs:679-688 | A kept character becomes a trailing comma of the output if and only if it is a comma and the next non-blank character was a removed comma |
| `TrailingCommas.UnchangedIffNoneTrailing` | rust/xtask/src/sbom.rs:653-693 | A text is unchanged if and only if it has no trailing comma |
| `TrailingCommas.StripIsFinalIff` | rust/xtask/src/sbom.rs:653-693 | A second pass changes nothing if and only if no comma outside strings is followed, blanks aside, by a removed comma |
| `TrailingCommas.DoubledCommaNeedsTwoPasses` | rust/xtask/src/sbom.rs:679-688 | The concrete text for which one pass is not enough |
| `SbomDocument.GeneratedRelationships` | rust/xtask/src/sbom.rs:90-165 | The generator's order of collecting and joining links gives the specified list, or fails exactly on a missing key |
| `SbomDocument.ExpectedRelationships` | rust/xtask/src/sbom.rs:695-733 | The validator's single vector gives the same list and fails in the same cases |
| `SbomDocument.FrontendLinks` | rust/xtask/src/sbom.rs:149-163 | Root and edge links are appended in order; a missing key ends the work |
| `SbomDocument.LinksExist` | rust/xtask/src/sbom.rs:149-165 | For a graph computed from a lock file no lookup fails |
| `SbomDocument.EdgesLinkTheirEnds` | rust/xtask/src/sbom.rs:157-163 | Every edge of the graph is a link from the entry of the depending package to the entry of its dependency, at its place |
| `SbomDocument.RootsAreLinked` | rust/xtask/src/sbom.rs:149-156 | Every root is linked from the product to the entry of the package with its key |
| `SbomDocument.ProductLinks` | rust/xtask/src/sbom.rs:90-129 | The product contains every artifact and depends on every Cargo entry, in order |
| `SbomDocument.PackageIdsAreDistinct` | rust/xtask/src/sbom.rs:101-148 | No two packages of a document share an identifier |
| `SbomDocument.IdsCountFromOne` | rust/xtask/src/sbom.rs:52-54 | Identifiers of each kind are numbered from one in decimal |
| `SbomDocument.EscapedReadsBack` | rust/xtask/src/sbom.rs:56-62 | In a locator the at-signs and slashes of a name are escaped, and a name without percent signs can be read back |
| `SbomDocument.LocatorReadsBack` | rust/xtask/src/sbom.rs:56-62 | A locator is the npm scheme, the escaped name, one at-sign and the version, and can be taken apart again |
| `SbomDocument.Generate` | rust/xtask/src/sbom.rs:64-186 | A document is produced exactly when the links exist, with the specified header, packages, files and links |
| `SbomDocument.ValidatePackages` | rust/xtask/src/sbom.rs:309-362 | Accepts exactly the product entry followed by every Cargo and frontend package in order with identity, version, locator, key and integrity |
| `SbomDocument.ValidateFiles` | rust/xtask/src/sbom.rs:367-413 | Accepts exactly file lists whose readings match the artifacts |
| `FileTable.Observe` | rust/xtask/src/sbom.rs:371-400 | Reading stops exactly at a malformed or repeated row and otherwise yields the map of all rows |
| `FileTable.Check` | rust/xtask/src/sbom.rs:371-413 | The size test and the lookups accept exactly when no row is malformed or repeated, the counts agree and every wanted row is present |
| `FileTable.MatchingTablesAgree` | rust/xtask/src/sbom.rs:401-412 | Acceptance forces both tables to hold exactly the same rows |
| `SbomDocument.ValidateDocument` | rust/xtask/src/sbom.rs:264-415 | Accepts exactly the documents that meet the header, package, relationship and file conditions |
| `SbomDocument.GeneratedIsAccepted` | rust/xtask/src/sbom.rs:64-186 | Every document generated from a computed graph and a directory listing meets all of the validator's conditions for the same inputs |
| `SbomDocument.GenerateAndVerify` | rust/xtask/src/sbom.rs:198-210 | Generating and then validating always succeeds on such inputs |
| `SbomDocument.AcceptedFilesAreTheArtifacts` | rust/xtask/src/sbom.rs:401-412 | An accepted document gives a name a digest if and only if the artifact set does |
| `SbomDocument.AcceptedAgreesWithGenerated` | rust/xtask/src/sbom.rs:271-366 | An accepted document agrees with the generated one on header, number of packages, all identifiers, names, versions and locators but the product's own name and version, and all relationships |
| `SbomDocument.AcceptedIsBound` | rust/xtask/src/sbom.rs:281-308 | An accepted document names the commit, the artifact set and both lock files, and every frontend entry its lock key and integrity |
| `SbomDocument.DigestCaseDoesNotMatter` | rust/xtask/src/sbom.rs:388-412 | The listed artifacts are accepted if and only if each digest, in either letter case, is the artifact's |
| `SbomDocument.AcceptedFileShape` | rust/xtask/src/sbom.rs:372-400 | Every file of an accepted document has a name and exactly one checksum, a SHA-256 digest of 64 hexadecimal digits |
| `SbomDocument.HexDigits` | rust/xtask/src/sbom.rs:417-419 | The digits of a digest are the hexadecimal ones of either case |
| `SbomDocument.CommentBinds` | rust/xtask/src/sbom.rs:182-185 | The generated comment contains the artifact-set, Cargo-lock and Bun-lock bindings that the validator searches for |
| `SbomDocument.NamespaceBinds` | rust/xtask/src/sbom.rs:171-173 | The generated namespace contains the commit and all three digests |
| `CivilTime.CivilIsTheDate` | rust/xtask/src/repo.rs:57-68 | For every day count from 1 March of year 0 on, the division chain gives the one real Gregorian date with that day number, counted by summing year and month lengths |
| `CivilTime.CivilIsCorrectIff` | rust/xtask/src/repo.rs:57-68 | Over all integers, the computed date is correct if and only if z >= 0 or z leaves remainder 146096 modulo 146097 |
| `CivilTime.CivilDayNumber` | rust/xtask/src/repo.rs:57-68 | Where it is not correct the result counts exactly one day too many |
| `CivilTime.CivilIsWrongTwoDaysEarlier` | rust/xtask/src/repo.rs:58-58 | The concrete case z = -2, where 28 February of year 0 is reported as 29 February |
| `CivilTime.YearOfFirstEra` | rust/xtask/src/repo.rs:60-64 | The division chain finds the March-based year of the era and a day within that year's length |
| `CivilTime.FromMarchCounts` | rust/xtask/src/repo.rs:65-68 | The five-month cycle keeps the day count across months and is a real date exactly up to the end of the following February |
| `CivilTime.DateInLowEra` | rust/xtask/src/repo.rs:58-68 | With an era one too low the computed date is one day late |
| `CivilTime.DayNumberAscends` | rust/xtask/src/repo.rs:55-68 | Day numbers order real dates as the calendar does |
| `CivilTime.YearOfDay` | rust/xtask/src/repo.rs:57-68 | The computed year is non-negative exactly from z = -61 on and at most 9999 exactly up to z = 3652364 |
| `CivilTime.DaysOfYearZero` | rust/xtask/src/repo.rs:57-68 | For the 61 days before 1 March of year 0 the result is a real date of year 0 |
| `CivilTime.UnixRoundTrip` | rust/xtask/src/repo.rs:55-71 | From 1 March of year 0 on, a timestamp becomes a real date and time, and converting back gives the same seconds |
| `CivilTime.CalendarRoundTrip` | rust/xtask/src/repo.rs:55-71 | Every real date and time from that day on is obtained from its own seconds |
| `CivilTime.FromUnixIsMonotone` | rust/xtask/src/repo.rs:55-71 | A later timestamp gives a strictly later calendar time |
| `UtcTimestamp.ValidMeansRealTime` | rust/xtask/src/release_metadata.rs:284-326 | The validator accepts exactly the 20-character texts of the fixed shape whose fields are a real date and time |
| `UtcTimestamp.ShapedIff` | rust/xtask/src/release_metadata.rs:286-302 | The shape is the six punctuation bytes and a digit at every other position |
| `UtcTimestamp.PrintParses` | rust/xtask/src/repo.rs:72-74 | A real time with a four-digit year prints as 20 characters that are accepted and parse back to it |
| `UtcTimestamp.ParsePrints` | rust/xtask/src/release_metadata.rs:303-313 | Every accepted text is exactly the print of what it parses to |
| `UtcTimestamp.SignedReadsBack` | rust/xtask/src/repo.rs:72-74 | Every field, negative years included, is printed to its width and reads back |
| `UtcTimestamp.EpochText` | rust/xtask/src/repo.rs:55-71 | Second zero is the start of 1 January 1970 |
| `UtcTimestamp.LongYearIsRejected` | rust/xtask/src/repo.rs:72-74 | From year 10000 on the print is longer than 20 characters |
| `UtcTimestamp.CommitTimeAcceptedIff` | rust/xtask/src/repo.rs:49-75 | Over all timestamps, the printed commit time is accepted if and only if it lies between -62167305600 and 253402300799 seconds, and then has 20 characters and parses to the computed time |
| `UtcTimestamp.CommitTimeReadsBack` | rust/xtask/src/repo.rs:55-74 | In that range the text gives the same seconds back from 0000-02-29 on, and exactly one day more before |
| `UtcTimestamp.AcceptedTextIsPrinted` | rust/xtask/src/release_metadata.rs:284-326 | A text is accepted if and only if the program prints it for some timestamp in that range |
| `Redaction.RedactSecretBytes` | rust/xtask/src/credential_cli.rs:521-553 | The loop renders the split of the output with markers; an empty secret changes nothing |
| `Redaction.Scan` | rust/xtask/src/credential_cli.rs:536-552 | The one-pass loop computes the rendering for any pattern list and marker |
| `Redaction.PatternsAreLongestFirst` | rust/xtask/src/credential_cli.rs:526-535 | Both encodings are listed, the longer one first |
| `Redaction.LittleEndianBytes` | rust/xtask/src/credential_cli.rs:527-530 | Each UTF-16 unit is stored as its low byte and then its high byte |
| `Redaction.WholeSecretBecomesMarker` | rust/xtask/src/credential_cli.rs:538-546 | Output that is exactly one encoding of the secret becomes the marker and nothing else |
| `Redaction.SplitIsFaithful` | rust/xtask/src/credential_cli.rs:538-551 | Each piece is a byte where no pattern begins, or a whole occurrence as long as any pattern matching there |
| `Redaction.SplitIsComplete` | rust/xtask/src/credential_cli.rs:538-551 | The pieces put back together are the output |
| `Redaction.FaithfulIsUnique` | rust/xtask/src/credential_cli.rs:538-551 | No other split is faithful, so the result is determined |
| `Redaction.LeakTouchesMarker` | rust/xtask/src/credential_cli.rs:533-551 | Any occurrence of a pattern in the result overlaps an inserted marker |
| `Redaction.NothingLeaks` | rust/xtask/src/credential_cli.rs:521-553 | The simple sufficient test for one pattern: if it disagrees with the marker under every overlap it occurs nowhere in the result, joins included |
| `Redaction.NoSharedByteCannotOverlap` | rust/xtask/src/credential_cli.rs:525-525 | A pattern that shares no byte with the marker satisfies that condition |
| `RedactionLeaks.SecretShowsIff` | rust/xtask/src/credential_cli.rs:521-553 | Some output shows the secret after redaction, in either encoding, if and only if one of the two patterns agrees with the marker under some shift and its bytes before and after the marker can stand around an occurrence of one of the patterns without being masked |
| `RedactionLeaks.VisibleIff` | rust/xtask/src/credential_cli.rs:533-551 | The same for any two patterns and any marker |
| `RedactionLeaks.ExposedIsVisible` | rust/xtask/src/credential_cli.rs:538-551 | Sufficiency, with the output that shows the pattern |
| `RedactionLeaks.VisibleIsExposed` | rust/xtask/src/credential_cli.rs:538-551 | Necessity: whatever output shows a pattern that holds no shorter one, a single masked occurrence already does |
| `RedactionLeaks.SecretInMarkerShows` | rust/xtask/src/credential_cli.rs:525-545 | A secret that is part of the marker stays visible in the redaction of itself |
| `Redaction.CleanOutputIsUnchanged` | rust/xtask/src/credential_cli.rs:547-550 | Output without any occurrence is unchanged |
| `Redaction.EveryOccurrenceIsBroken` | rust/xtask/src/credential_cli.rs:538-551 | Every occurrence in the original loses at least one byte to a replacement |
| `ReplaceFile.FileSystem.ReplaceFileWithRollback` | rust/xtask/src/ci_artifacts.rs:269-306 | With any operations failing: the exact file system each outcome leaves, success if and only if nothing failed and the request was feasible, and which outcomes need how many failures |
| `ReplaceFile.OriginalSurvives` | rust/xtask/src/ci_artifacts.rs:283-303 | In every error the original survives at the destination or the backup, and at the destination unless the error says otherwise |
| `ReplaceFile.OneFailureIsRolledBack` | rust/xtask/src/ci_artifacts.rs:283-303 | Replacing a file by a file, one failing operation leaves the original in place and no backup; none installs the staged file |
| `ReplaceFile.NothingElseChanges` | rust/xtask/src/ci_artifacts.rs:269-306 | Unrelated paths never change, and a backup is left exactly when restoration failed |
| `ReplaceFile.SuccessInstallsStaged` | rust/xtask/src/ci_artifacts.rs:305-305 | On success the destination holds exactly the staged content, and neither the staged name nor a backup remains |
| `FragmentSearch.IsCallSequence` | rust/xtask/src/assembly_audit.rs:69-80 | True if and only if the case-folded fragments have ordered, non-overlapping occurrences |
| `FragmentSearch.GreedyIff` | rust/xtask/src/assembly_audit.rs:71-79 | Taking the leftmost match each time succeeds exactly when any placement exists |
| `FragmentSearch.GreedyIsComplete` | rust/xtask/src/assembly_audit.rs:71-79 | Any placement is enough for the leftmost-greedy search to succeed |
| `FragmentSearch.ScanFindsEveryWordIff` | rust/xtask/src/assembly_audit.rs:12-47 | The non-overlapping scan finds a bounded occurrence on every line that has one, with or without a word suffix, if and only if the folded token has no self-overlap whose shift ends at a non-word character |
| `FragmentSearch.MissedWord` | rust/xtask/src/assembly_audit.rs:15-25 | For any other token, a line on which the scan misses a bounded occurrence |
| `FragmentSearch.WordTokensAreRobust` | rust/xtask/src/assembly_audit.rs:8-10 | Tokens made of word characters have no such self-overlap |
| `FragmentSearch.WordCharacters` | rust/xtask/src/assembly_audit.rs:8-10 | Word characters are the ASCII letters, digits and the underscore |
| `FragmentSearch.SuffixNeedsOnlyTheStart` | rust/xtask/src/assembly_audit.rs:28-47 | With a suffix allowed, an occurrence counts if and only if no word character stands before it |
| `Texts.LowerMapsLetters` | rust/xtask/src/assembly_audit.rs:13-14 | Folding turns each upper-case ASCII letter into the lower-case one and changes nothing else |
| `FragmentSearch.ScanIsSound` | rust/xtask/src/assembly_audit.rs:12-47 | Whatever the scan reports is a bounded occurrence |
| `CiClassifier.ClassifyNormalizedPaths` | rust/xtask/src/ci_classifier.rs:481-530 | For any rule table the pass returns exactly the union of the paths' lanes with the deciding case: nothing changed, malformed, the unknown paths in order, or classified with or without static-only paths |
| `CiClassifier.RequiredIsUnion` | rust/xtask/src/ci_classifier.rs:496-506 | A lane is required if and only if some path contributes it |
| `CiClassifier.RequiredOfConcatenation` | rust/xtask/src/ci_classifier.rs:481-530 | The lanes of two lists joined are the union of their lanes |
| `CiClassifier.RequiredIsMonotone` | rust/xtask/src/ci_classifier.rs:481-530 | Order and repetition do not matter, and more paths never drop a lane |
| `CiClassifier.ClassifyPaths` | rust/xtask/src/ci_classifier.rs:533-540 | The manual form is that result for the normalised, non-blank paths; nothing changed is reported exactly when all are blank |
| `CiClassifier.NormalizedManualPath` | rust/xtask/src/ci_classifier.rs:89-95 | Normalising cuts exactly the white space at both ends, turns every backslash into a slash and drops exactly all leading dot-slashes |
| `CiClassifier.ControlCodes` | rust/xtask/src/ci_classifier.rs:485-485 | Control characters are the C0 and C1 sets and delete |
| `CiClassifier.WhiteCodes` | rust/xtask/src/ci_classifier.rs:90-90 | White space is the set of code points with that Unicode property |
| `CiClassifier.ManualPathIsKept` | rust/xtask/src/ci_classifier.rs:534-538 | Every path that is not blank after normalising is classified |
| `CiClassifier.ClassifyGitPaths` | rust/xtask/src/ci_classifier.rs:542-555 | The git form requires everything exactly on a malformed name and is otherwise that result for the names as they are |
| `CiClassifier.MalformedGitPathIff` | rust/xtask/src/ci_classifier.rs:543-548 | A git name is malformed if and only if it is empty, has control characters, or would be changed by trimming or slashing |
| `CiClassifier.GitRequiresAtLeastManual` | rust/xtask/src/ci_classifier.rs:533-555 | On the same list the git form requires at least the lanes of the manual form |
| `CiClassifier.WellFormedGitPath` | rust/xtask/src/ci_classifier.rs:89-95 | Normalising a well-formed git path never adds a lane, because one that normalisation changes is unknown |
| `CiRules.DottedPathIsUnknown` | rust/xtask/src/ci_classifier.rs:97-425 | No rule of the table applies to a path that begins with a dot and a slash |
| `CiRules.RustPathsRequireRust` | rust/xtask/src/ci_classifier.rs:97-425 | Below rust/ a path requires the Rust lane or full validation if and only if it is not one of two named sources |
| `CiRules.DesktopPathsRequireDesktop` | rust/xtask/src/ci_classifier.rs:97-425 | Below apps/desktop/ a path requires the desktop lane if and only if it is not an icon |
| `GithubOutput.GithubDelimiter` | rust/xtask/src/ci_classifier.rs:684-702 | Returns the first numbered delimiter that is no line of the value, after at most one attempt more than the value has lines |
| `GithubOutput.Pigeonhole` | rust/xtask/src/ci_classifier.rs:689-701 | If the first n delimiters are all lines, the value has at least n lines |
| `GithubOutput.LinesReadBack` | rust/xtask/src/ci_classifier.rs:697-697 | Lines written with either line ending, and an unfinished last one, are the lines that the delimiter is compared with |
| `GithubOutput.DelimitersAreDistinct` | rust/xtask/src/ci_classifier.rs:691-696 | Delimiters carry a fixed prefix and tell apart process, time and attempt |
| `GithubOutput.BlockRoundTrip` | rust/xtask/src/ci_classifier.rs:709-712 | Reading the block up to the first line equal to the delimiter recovers any value exactly, line endings included |
| `GithubOutput.LanesRoundTrip` | rust/xtask/src/ci_classifier.rs:706-708 | Reading skips the lane lines and collects exactly the lanes written as required |
| `GithubOutput.AppendOutput` | rust/xtask/src/ci_classifier.rs:704-715 | The nine lane lines and the block with the chosen delimiter read back as exactly the lanes and the reason, whatever they are |

## Left out

- ValidateDocument: the error is one of four kinds and not the source's individual message.
- ClassifyNormalizedPaths: the reason is a case and a list of paths and not the rendered sentence, which shows at most three escaped paths.
- ClassifyPaths: the reason is a case and not the rendered sentence.
- ClassifyGitPaths: the reason is a case and not the rendered sentence.
- AppendOutput: what the output file held before, and failing writes.
- ReplaceFileWithRollback: a failing operation has no partial effect, and reparse points and other non-files are one kind of node.
- Generate: `name`, `creationInfo`, `documentDescribes`, file sizes and licence fields, which the validator never reads.
- The rule table of the CI classifier is modelled in full, but what each single rule says is its definition; only facts that cut across rules are proved.
- The real-time playback engine, `native_runtime.rs` and the event hub's internals are not part of this model; shutting a runtime down is one step, and subscribing consults only whether a channel is present.
- The startup-window fail-safe, which is cancelled before a close is accepted, and the exit code of the smoke mode.
- Reading the Bun lock file as JSON, splitting package descriptors, merging the dependency maps, and version requirements; the packages and the matching relation are given.
- That removing commas leaves valid UTF-8, so that the stripper never fails.
- Hashing, signatures, TOML, SemVer and icon parsing, and the collection of artifacts from disk.
- `initial_offset_alignment`, `phrase_breaks`, `time_quartiles`, and the planning metrics of `analyze_sheet`.
- Process spawning, pipes, timeouts, the NSIS and Authenticode tooling, and the git invocations around the classifier.
- The `candidate`, `bridge`, `release_handoff` and `tauri_bundle` manifest validators, the IPC tables, the frontend, the website and the command line: field-by-field comparisons, finite tables, user interface and dispatch, where a proof would say no more than the code.
