# A model of Servika's malware scan engine and its neighbours

Servika is a hosting panel. Its malware scanner decides which files of a live site
are reported and which are taken away, so the interesting question about it is what
can never happen: a dirty file hidden by the cache, a finding lost between workers, a
file lost between the site and the quarantine. This project models the engine in
`internal/antivirus`, together with the agent's sessions, the application backups and
the port allocation, and proves such statements for all inputs, all runs and all
interleavings.

| file | models |
|---|---|
| Rules.dfy | the weighing of matches into one verdict |
| Semantic.dfy, SemanticWalk.dfy | the PHP folding layer: its specification, and the tables updated in place |
| Programs.dfy, Detectors.dfy, Walks.dfy | straight-line programs of seven statement forms, what each detector looks for in them, and the walk over their tokens |
| StraightLine.dfy, FoldSoundness.dfy, Origins.dfy | what the tables mean: values equal to the PHP store on the constant fragment, exactly when true outside it, and where request data comes from |
| Tokenizer.dfy, Printing.dfy, Literals.dfy, Heredocs.dfy | the tokenizer's loops, and tokens read back from any way of writing them |
| PhpFiles.dfy | from the bytes of a file to the report |
| ScanPool.dfy, Roots.dfy | one walk, a channel and N workers; several roots under one deadline |
| CachedSweep.dfy | histories of sweeps, each with the cache an earlier one wrote, against an uncached one |
| CacheSafety.dfy | the clean-file cache while a tenant writes |
| Blobs.dfy, Decode.dfy, Layers.dfy, DecodeWitness.dfy | base64 and hex blobs; the budgeted recursive decoder; what a layer holds; a file that reaches the bound |
| Slot.dfy | the server-wide scan slot: a process flag and a re-entrant database lock |
| Quarantine.dfy | containment, restore and delete with crashes, on inodes, names and rows: the custody invariant |
| QuarantineRuns.dfy, QuarantineEnds.dfy, QuarantineGuard.dfy, QuarantineGaps.dfy | whole runs of it: there and back, there and gone, exactly which opens lose a file, and what a crash leaves behind |
| ProcWire.dfy, ProcWatch.dfy | process events and stat lines off the wire; fork-time ancestry; the token bucket |
| Encoder.dfy | what the rules see of a packed file |
| Session.dfy, Backup.dfy, Ports.dfy | sliding sessions, backup and restore, port allocation |
| Decimals.dfy, Wrappers.dfy | decimal text; a value that may be missing |

Code that loops or updates state is a method or a class here, tied by its `ensures` to
a function; the lemmas are about the function. Protocols that several parties run at
once are state machines, and their theorems are about every run. History fields
(`judged`, `custody`, `weighed`, `failed`, `allowed` and the like) record what happened
and never decide a step. PHP text is a `string` with one `char` for one byte; wire data
is a sequence of numbers under 256; times are whole nanoseconds.

## Where the code does less than it says

Each of these is a lemma with a concrete run or an exact condition.

- A read that fails still records the file as clean, so the next sweep skips a dirty
  file, if its path alone raises no suspicion (`CacheSafety.FailedReadHidesAFile`,
  `CacheSafety.DirtyFileIsHiddenIff`).
- A deadline that falls after a root was scanned completely and before the next one is
  begun ends the sweep, and the sweep is not reported as partial
  (`Roots.NotPartialCoversAll`, `Roots.DeadlineSlipsThrough`).
- `.=` with an unknown operand leaves a false entry in the folder's table, in exactly two
  cases (`FoldSoundness.StatementKeepsTruthIff`).
- `.=` of a known value onto request data loses the mark of the request data, and an array
  element hides what stands after it (`Origins.StatementKeepsMarksIff`,
  `Origins.AppendedMarkIsLost`, `Origins.CopiedMarkIsLost`).
- A variable call that is joined onto a literal is not seen by any detector
  (`Walks.CallAfterLiteralIsUnseen`), nor is a call through an index of a superglobal that is
  over 254 tokens long (`Detectors.DetectsIff`).
- An escape that PHP leaves as it stands loses its backslash
  (`Literals.OtherEscapeLosesItsBackslash`).
- The decode pass reports up to 11 findings where its constant says 8
  (`DecodeWitness.ElevenAreReached`). A decompression that meets an error is not charged to
  the budget, although the comments say that rejected output is
  (internal/antivirus/decoded.go:284-300).
- A slot holder whose database connection is cut off keeps believing in its slot while
  another process takes it (`Slot.SecondHolderIff`, `Slot.CutOffAllowsTwoHolders`).
- A quarantine row that a crash left without a stored name cannot be restored, blocks
  every later containment of its account, and to delete it empties the account's store
  (`QuarantineGaps.CrashBlocksContainment`, `QuarantineGaps.DeleteSparesOthersIff`,
  `QuarantineGaps.DeletingAnUnnamedRowLosesAnotherFile`). The same row is left when the name
  does not fit its column (migrations/0092_av_quarantine.sql:24).
- Containing a path that the restore of a file in custody is still writing loses the file
  (`QuarantineRuns.CarelessOpenLosesTheFile`, `QuarantineGuard.OpenLosesIff`,
  `QuarantineGaps.ContainingARestoreLosesTheFile`).
- A process that is silent for five minutes loses its web ancestry
  (`ProcWatch.SweepForgetsIff`, `ProcWatch.SilentChildIsForgotten`), and the sweep meant to
  drop idle buckets never drops one (`ProcWatch.SweepDropsNoBucket`).
- A restore that cannot write its rollback copy leaves the application stopped, the unit
  and environment files are not rolled back, and a second restore overwrites the copy a
  first one left (`Backup.FailedRestoreLeavesItDownIff`, `Backup.ExtraIsNotRolledBack`,
  `Backup.NextFailureIsSafeIff`, `Backup.SecondRestoreLosesTheTree`).
- A restart takes every session back to the last save, so a session that was never idle
  too long can end with it, and whether a sweep ran before decides later answers
  (`Session.SweepChangesAnAnswerIff`, `Session.RestartChangesAnAnswerIff`,
  `Session.SweepIsSeenAfterRestart`).

## Model

| member | source | states |
|---|---|---|
| Rules.EvaluateWith | internal/antivirus/rules.go:340-351 | the matches are those of the rules scoped to the extension whose pattern holds, in rule order |
| Rules.FiredIff | internal/antivirus/rules.go:336-351 | a rule contributes a match if and only if it is scoped to the extension and its pattern holds, and every such match is in-clear shipped evidence |
| Rules.Verdict | internal/antivirus/rules.go:353-390 | one pass computes the score, the signature, the names and the level that the lemmas below are about |
| Rules.VerdictEvidence.Note | internal/antivirus/rules.go:392-413 | after every match the four marks say which kinds of evidence were among the matches so far |
| Rules.CriticalIff | internal/antivirus/rules.go:258-273 | critical if and only if the score reaches the threshold, an in-clear shipped match stands behind it, and decoded evidence leans on a behavioural one, for every match list and threshold |
| Rules.ClearIffBelowSuspicious | internal/antivirus/rules.go:258-273 | no finding if and only if the score is under 50, whatever threshold the operator set; the cache rests on it |
| Rules.VerdictPermutes | internal/antivirus/rules.go:353-390 | score and level do not depend on the order of the matches |
| Rules.InformationalIsNeutral | internal/antivirus/rules.go:289-293 | dropping every informational match changes neither score nor signature nor level |
| Rules.SignatureIsFirstStrongest | internal/antivirus/rules.go:353-390 | the signature is the name of the first strongest match that is not informational |
| Rules.AddingLowersIff | internal/antivirus/rules.go:392-425 | adding a match with a weight that is not negative lowers the level exactly when it is decoded evidence and the critical level it meets has only in-clear matches under the moderate weight |
| Rules.HigherThresholdNeverRaises | internal/antivirus/rules.go:244-273 | of two thresholds that are set, the higher never gives the higher level, values under the reporting threshold included |
| Semantic.StepKeepsBounds | internal/antivirus/semantic.go:164-181 | every turn of the walk advances, stays inside the tokens, and keeps every value and fragment within the fold ceiling, the concealed names within the table and each report single |
| Semantic.WalkKeepsBounds | internal/antivirus/semantic.go:128-148 | the same over the whole walk, from any bounded tables |
| Semantic.RescanCapped | internal/antivirus/semantic.go:475-501 | the rescan of rebuilt code adds at most 60, only as Semantic.Concat matches of rules that fire and had not fired in clear |
| Semantic.RescanReportsIff | internal/antivirus/semantic.go:475-501 | a match is added if and only if it reports a rule that fires on the rebuilt code, was silent in clear and whose earlier ones weigh under 60 together, with its weight cut to what they left |
| Semantic.SinkNameIff | internal/antivirus/semantic.go:160-162 | a name is a sink whatever blanks stand around it and in whatever case it is written |
| SemanticWalk.SemState.Advance | internal/antivirus/semantic.go:164-181 | one turn, detectors in source order, updates the tables in place exactly as the step function says |
| SemanticWalk.SemState.FoldExpression | internal/antivirus/semantic.go:406-439 | the folding loop computes the fold the lemmas are about |
| SemanticWalk.SemState.StoreAppend | internal/antivirus/semantic.go:213-227 | `.=` with a constant joins onto the stored value, or forgets it past the ceiling |
| SemanticWalk.SemState.Walk | internal/antivirus/semantic.go:128-148 | the main loop is the iterated step function and stops inside the tokens |
| SemanticWalk.SemState.RescanFragments | internal/antivirus/semantic.go:475-501 | the rescan loop spends its budget rule by rule as the function says |
| Detectors.DetectsIff | internal/antivirus/semantic.go:229-366 | which statements each of the five detectors looks for: a call through a variable that holds a sink, one through request data, one through an index of a superglobal, an eval of joined code, and a sink name put together |
| Detectors.ReportedIff | internal/antivirus/semantic.go:128-158 | over a whole program a detector's name is reported if and only if it was before or some statement is one that its detector looks for |
| Walks.FoldExprFinds | internal/antivirus/semantic.go:406-473 | folding the tokens of any expression, elements of arrays included: whether it is constant, its value, its number of parts, and whether request data comes into it |
| Walks.StatementDoes | internal/antivirus/semantic.go:164-404 | a statement of any of the seven forms, at a statement boundary of any token list, does to the tables what is said of it and nothing else |
| Walks.WalkIsAfterAll | internal/antivirus/semantic.go:128-148 | the walk over the tokens of a program is the program's statements, one after the other |
| Walks.CallAfterLiteralIsUnseen | internal/antivirus/semantic.go:326-349 | a call through a variable that is joined onto a literal changes nothing, whatever the variable holds |
| StraightLine.StatementSimulates | internal/antivirus/semantic.go:164-246 | a statement that folds changes the values as PHP changes its store, and the detectors look for a call of a sink, and for a sink name put together, exactly where PHP has one |
| StraightLine.TableIsStore | internal/antivirus/semantic.go:164-246 | on straight-line programs within the fold ceiling the table is the PHP store at every point, and a call of a sink, an assembled sink name and a call through a superglobal are each reported if and only if the program has one |
| FoldSoundness.WalkIsFoldAll | internal/antivirus/semantic.go:164-246 | on every straight-line program, unknown variables and array elements included, the walk computes the values that are given statement by statement |
| FoldSoundness.StatementKeepsTruthIff | internal/antivirus/semantic.go:197-227 | a statement keeps the table true of the PHP store if and only if a `.=` has a known or empty left side for a known right one, or an unknown left side or an empty value for an unknown right one |
| FoldSoundness.ProgramStaysTrueIff | internal/antivirus/semantic.go:197-227 | from a true table on, the table is true after every statement of a program if and only if every `.=` is safe where it runs |
| FoldSoundness.SafeWalkIsTrue | internal/antivirus/semantic.go:164-246 | the walk over the tokens of any straight-line program has only true entries after every statement if and only if every `.=` is safe where it runs |
| FoldSoundness.StaleName | internal/antivirus/semantic.go:202-210 | a `.=` with an unknown right side leaves a stale sink name |
| FoldSoundness.ForgottenValue | internal/antivirus/semantic.go:213-227 | a `.=` on a forgotten variable starts from the empty string |
| Origins.StatementKeepsMarksIff | internal/antivirus/semantic.go:197-227 | true marks of request data stay true over a statement if and only if its request data is noticed and no `.=` joins a known value and request data |
| Origins.ProgramKeepsMarksIff | internal/antivirus/semantic.go:197-227 | from true marks on, the marks are true after every statement of a program if and only if every statement keeps them where it runs |
| Origins.RequestedCallIsReported | internal/antivirus/semantic.go:229-246 | in such a program a call through request data is reported if and only if the program has one, through however many variables the data went |
| Origins.AppendedMarkIsLost | internal/antivirus/semantic.go:197-227 | a program that calls through request data which a known value was joined onto: nothing is reported |
| Origins.CopiedMarkIsLost | internal/antivirus/semantic.go:410-473 | a program that calls through request data which stood after an array element: nothing is reported |
| Tokenizer.PhpTokenize | internal/antivirus/semantic.go:503-518 | the tokenizer loop reads the token list of the specification, and its index stays in bounds |
| Tokenizer.DoubleQuote | internal/antivirus/semantic.go:687-713 | the reader of a double-quoted string: value, constness and where it stops |
| Tokenizer.Heredoc | internal/antivirus/semantic.go:778-842 | the reader of a heredoc or nowdoc: value, constness and where it stops |
| Tokenizer.TokensBounded | internal/antivirus/semantic.go:503-875 | for every input at most semMaxToken tokens, whose values together are no longer than the source |
| Printing.DoubleQuoteUndoesEscaping | internal/antivirus/semantic.go:687-776 | the double-quote reader gives back any byte string, each byte written as itself, as a hex or octal escape, as a short escape or as a raw `$` or `{`, in any mixture; the token is constant if and only if no byte was written raw |
| Printing.GapsAreSkipped | internal/antivirus/semantic.go:520-576 | any run of blanks, line comments, block comments and page breaks (a close tag, html and a new open tag of any kind) is stepped over without a token |
| Printing.TokenizeUndoesPrinting | internal/antivirus/semantic.go:540-776 | printable tokens, written out with any spelling of their strings and anything between them that is not a token, are read back one for one |
| Printing.TokensOfPrinted | internal/antivirus/semantic.go:503-538 | the same for a whole file: html, an open tag of any kind, the tokens, and what comes after the last, a close tag and html included |
| Heredocs.HeredocGivesBack | internal/antivirus/semantic.go:778-842 | a heredoc or nowdoc gives back its lines as one string, whatever its label, quotes and blanks; constant if and only if it is a nowdoc or has neither `$` nor `{`, and keeps to the ceiling |
| Literals.HexEscapeIsRead | internal/antivirus/semantic.go:748-761 | a hex escape of one or two digits is the byte they write |
| Literals.OctalEscapeIsRead | internal/antivirus/semantic.go:763-776 | an octal escape of one to three digits is the byte they write, in eight bits |
| Literals.OtherEscapeLosesItsBackslash | internal/antivirus/semantic.go:730-746 | any other escape is the byte after its backslash |
| Literals.LongTextIsCut | internal/antivirus/semantic.go:662-713 | a plain text past the fold ceiling is read as its first 65537 bytes up to its closing quote, and is not constant between double quotes |
| PhpFiles.CanBeWritten | internal/antivirus/semantic.go:503-518 | every printable program is written by some file |
| PhpFiles.FileIsReported | internal/antivirus/semantic.go:124-158 | from the bytes of any file that writes a straight-line program to the report: each detector's name is reported if and only if the program has a statement that the detector looks for, and with the detector's weight |
| PhpFiles.SplitNameIsReported | internal/antivirus/semantic.go:124-148 | from the bytes of such a file: a sink call is reported if and only if PHP would make one, however many assignments split the name |
| PhpFiles.RequestedNameIsReported | internal/antivirus/semantic.go:124-148 | from the bytes of such a file: a call through request data is reported if and only if the program has one |
| ScanPool.UncancelledScan | internal/antivirus/antivirus.go:426-484 | any number of workers, any interleaving: every dispatched file judged exactly once, findings equal to the sequential scan in walk order, complete if and only if the cap did not bite |
| ScanPool.FileIsReportedIff | internal/antivirus/antivirus.go:580-728 | the findings of a complete scan are those of the other engine and one for every listed file outside the excluded paths that the rules may read or a layer holds against its place, that the cache does not pass over, and whose evidence weighs 50 or more |
| ScanPool.AnyScan | internal/antivirus/antivirus.go:580-743 | under cancellation anywhere: no file judged twice, findings a subsequence of the sequential scan, and only a scan of everything reported complete |
| ScanPool.CancelStopsTheWalk | internal/antivirus/antivirus.go:640-728 | from the cancellation on no entry is scanned or skipped, and none but the one in hand is sent |
| ScanPool.CountersAddUp | internal/antivirus/antivirus.go:687-728 | at every point of every run the entries scanned and skipped are those so far that were to be looked at, and the skipped ones those the cache passes over |
| ScanPool.NeverStuck | internal/antivirus/antivirus.go:432-625 | no deadlock: in every reachable state that is not the end, the walk or a worker can take a step, cancelled or not |
| ScanPool.RunsAreShort | internal/antivirus/antivirus.go:432-743 | every scan ends: a run has at most five steps an entry, one a worker and four more |
| ScanPool.AppendInDispatchOrder | internal/antivirus/antivirus.go:730-742 | sorting by dispatch index and keeping the first finding of each file |
| CachedSweep.SweepWritesARightCache | internal/antivirus/rapidcache.go:196-246 | what a sweep with a right cache records, at any point of any run, cancelled or capped, scores under 50: a later sweep of a file with the same key may skip it, under whatever threshold either ran |
| CachedSweep.CompleteSweepRecordsIff | internal/antivirus/rapidcache.go:236-246 | at the end of a complete sweep every file looked at that has a key is recorded under it if and only if it was skipped or scored under 50 |
| CachedSweep.SameTreeKeysTell | internal/antivirus/rapidcache.go:34-38 | over a tree that stands still keys tell, whatever the threshold, the cap and the number of workers: the threshold need not be in the fingerprint |
| CachedSweep.EverySweepHasARightCache | internal/antivirus/rapidcache.go:11-38 | in every history of sweeps, each loading what an earlier one recorded or nothing, no skipped file scores 50 or more |
| CachedSweep.SkippingLosesNothing | internal/antivirus/antivirus.go:687-728 | the files a sweep of such a history skips are files without a finding |
| CachedSweep.CachedSweepAgrees | internal/antivirus/rapidcache.go:196-246 | the findings of the last sweep of any history and of an uncached sweep of its tree, both run to the end, are equal unless the uncached one meets the file cap, and then they begin with the uncached one's |
| Roots.ExecuteScan | internal/antivirus/worker.go:242-273 | several roots are merged in order, up to the one in which the budget ended |
| Roots.MergeSplits | internal/antivirus/worker.go:242-273 | the merged result of more roots is that of the first ones and that of the others: counters, findings in order, and whether it is partial |
| Roots.MergeOne | internal/antivirus/worker.go:242-273 | one root's result is its own, and partial if and only if it is not complete |
| Roots.NotPartialCoversAll | internal/antivirus/worker.go:242-273 | a sweep that is not partial scanned every root completely, or a deadline fell between the two looks at the context after a complete root that was not the last; each of the two, if and only if |
| Roots.DeadlineSlipsThrough | internal/antivirus/worker.go:245-273 | the exception happens: the second root is never scanned and the sweep is not partial |
| CacheSafety.ScanCache.MarkClean | internal/antivirus/rapidcache.go:236-246 | records a path under the key taken before the read, and nothing without a key |
| CacheSafety.NoDirtyFileIsSkipped | internal/antivirus/rapidcache.go:11-30 | with tenant writes at any point, every stored entry names a file changed since or clean, and a file that would be skipped is clean, unless a read of that very file under that key failed and its path alone scores under 50 |
| CacheSafety.WithReadsSucceeding | internal/antivirus/antivirus.go:580-611 | without a failed read no dirty file is ever skipped |
| CacheSafety.FailedReadHidesAFile | internal/antivirus/antivirus.go:586-603 | a failed read records a dirty file as clean, and the next sweep skips it |
| CacheSafety.DirtyFileIsHiddenIff | internal/antivirus/antivirus.go:580-611 | a file that is not clean is skipped in some run if and only if it has a key and its path alone scores under 50 |
| CacheSafety.SkippedStaysKnown | internal/antivirus/antivirus.go:700-712 | a skipped file is no job, and the sweep records the key it already had |
| Decode.DecodeWalk.WalkFrom | internal/antivirus/decoded.go:135-150 | the recursive walk with its shared budget, seen set and matches is the specified one, and ends |
| Decode.Inflate | internal/antivirus/decoded.go:263-321 | three formats tried in turn, charged to one budget |
| Decode.DedupeMatches | internal/antivirus/decoded.go:385-401 | in place, the array's front becomes the first match of each name |
| Decode.KeptBytesAreBounded | internal/antivirus/decoded.go:224-250 | at most 3 MiB of decoded bytes are kept over the whole pass, and the budget is never overdrawn by more than itself |
| Decode.InflatedBounds | internal/antivirus/decoded.go:263-321 | one inflation keeps at most what was left and charges at most twice that |
| Decode.EachContentIsWeighedOnce | internal/antivirus/decoded.go:152-164 | no weighed blob is short or a media file, no two are equal and none is the file itself, double rot13 included |
| Decode.Rot13TwiceIsNothing | internal/antivirus/decoded.go:323-344 | rot13 is its own inverse, and applies exactly to text with a letter |
| Decode.Rot13MovesLetters | internal/antivirus/decoded.go:323-344 | rot13 moves every letter thirteen places in its alphabet and nothing else |
| Decode.GateLosesNothing | internal/antivirus/decoded.go:113-133 | a file that does not pass the gate has nothing to decode: the pass is the walk without a gate |
| Decode.BombsAreCharged | internal/antivirus/decoded.go:286-307 | unless a decompressor fails within the limit, every byte read is charged, kept or rejected |
| Decode.MostlyTextIff | internal/antivirus/decoded.go:363-383 | printable bytes and noise together are taken for text if and only if more than three of four bytes are printable |
| Decode.MatchesAreBounded | internal/antivirus/decoded.go:135-181 | at most 11 matches before repeated names go, although the constant says 8 |
| Blobs.DecodingUndoesEncoding | internal/antivirus/decoded.go:252-261 | the base64 decoder gives back every byte string from its encoding |
| Blobs.EncodedIsARun | internal/antivirus/decoded.go:84-104 | an encoded text of at least 18 bytes is one run wherever it stands, if neither alphabet nor padding follows it |
| Blobs.EncodedIsFound | internal/antivirus/decoded.go:84-104 | and it is found whole, if no character of the alphabet precedes it |
| Blobs.HexUndoesSpelling | internal/antivirus/decoded.go:204-213 | the hex decoder gives back every byte string from its spelling, in any case of the digits |
| Blobs.SpellingIsFound | internal/antivirus/decoded.go:84-104 | a hex spelling of at least 16 bytes is found whole, if no further hex escape precedes or follows it |
| Layers.LayerHolds | internal/antivirus/decoded.go:192-261 | within the blob limit and the budget a layer holds the decoded text of every base64 and hex run, what each of them opens to, and the rotated text if the data names str_rot13, and nothing else |
| Layers.SpelledCodeIsHeld | internal/antivirus/decoded.go:192-261 | so the code that a hex spelling of 16 bytes or more hides is a blob of its layer |
| DecodeWitness.ElevenAreReached | internal/antivirus/decoded.go:135-181 | a file of nested base64 gives eleven decoded findings with different names, under any decompressors, any rules that look for its marks and any hash that tells its blobs apart: 11 is exact |
| DecodeWitness.EnvironmentExists | internal/antivirus/decoded.go:166-190 | there are eleven such rules and such a hash |
| Decode.EveryMatchHasASource | internal/antivirus/decoded.go:166-181 | every match is an eligible behavioural rule that fires on a weighed blob and did not fire in clear, marked decoded |
| Decode.NothingIsMissedBelowTheCap | internal/antivirus/decoded.go:135-181 | below the cap, every first-layer blob worth weighing is weighed up to its key, and every rule firing on a weighed blob is reported |
| Decode.DecodedAloneIsNotCritical | internal/antivirus/decoded.go:21-27 | the matches of the pass alone are never critical, at any threshold |
| Decode.DedupedIs | internal/antivirus/decoded.go:385-401 | the result has each name of the input exactly once, and only matches of the input |
| Slot.TwoHoldersNeedADeadConnection | internal/antivirus/slot.go:38-99 | in every run, if two callers hold the slot then they are in two processes and the connection of one was cut off |
| Slot.AtMostOneHolder | internal/antivirus/slot.go:60-99 | while no connection was cut off, one holder at most, and the server's lock is its own |
| Slot.FlagIsNeverStranded | internal/antivirus/slot.go:38-99 | the process flag is set if and only if a goroutine of the process is inside, whatever failed |
| Slot.LockedIffHeld | internal/antivirus/slot.go:38-99 | in every state of a run that loses no release and no answer on a live connection, the server's lock is taken if and only if some caller holds the slot on a live connection |
| Slot.ReleasedCanBeTaken | internal/antivirus/slot.go:44-99 | after such a run with nobody holding, a caller of any process that is not inside takes the slot, without a kill, a drop or a cut-off |
| Slot.ReleaseGivesBack | internal/antivirus/slot.go:44-57 | so it can after a release that reached the server |
| Slot.SecondHolderIff | internal/antivirus/slot.go:38-99 | from any reachable state, with no further connection cut off, the slot can be taken beside a caller that holds it if and only if that caller holds it now on a connection that was cut off |
| Slot.TwoHoldersIff | internal/antivirus/slot.go:60-99 | a caller that holds the slot can be one of two holders, with no further connection cut off, if and only if some holder of now was cut off |
| Slot.CutOffAllowsTwoHolders | internal/antivirus/slot.go:60-99 | the exception happens |
| Slot.PooledOwnerIsTakenAgain | internal/antivirus/slot.go:13-36 | a lock left on a pooled connection is taken again at depth two and still held alone |
| Quarantine.StoredNameInjective | internal/antivirus/quarantine.go:101-106 | two rows never share a stored name, whatever the file names are |
| Quarantine.StepKeepsInv | internal/antivirus/quarantine.go:108-233 | every step of a containment, restore or delete, every tenant write and every crash keeps the custody invariant |
| Quarantine.TakenFileIsInTheStore | internal/antivirus/quarantine.go:108-163 | in every state of every careful run a taken file is whole in the store under its row's name |
| Quarantine.OpenedFileIsAtItsPath | internal/antivirus/quarantine.go:108-163 | a file opened for containment is at its path, unchanged, until the removal |
| Quarantine.ContainmentEndsWithTheBytes | internal/antivirus/quarantine.go:137-163 | however a containment ends, the bytes are at the path or in custody |
| Quarantine.CustodyEndsOnPurpose | internal/antivirus/quarantine.go:370-455 | custody ends only by a delete of that row or a restore that has put the bytes back |
| Quarantine.NothingIsLost | internal/antivirus/quarantine.go:101-455 | over a whole careful run, a taken file is in the store at every later point unless it was deleted or restored whole before |
| QuarantineRuns.ContainThenRestore | internal/antivirus/quarantine.go:108-413 | from any state of a careful run, a file contained and restored undisturbed is at its path with the same bytes, and no other path, stored file or row has changed |
| QuarantineEnds.DeleteDeletes | internal/antivirus/quarantine.go:437-455 | from any state of a careful run, a named row selected, unlinked and deleted leaves no row of that id, no stored name of it and no name of its file, and every other path, stored file and row as before |
| QuarantineEnds.ContainThenDelete | internal/antivirus/quarantine.go:108-163 | from any state of a careful run, a file contained and then deleted undisturbed is neither at its path nor in the store, and nothing else has changed |
| QuarantineEnds.FailureLeavesNothing | internal/antivirus/quarantine.go:137-163 | a containment that fails after its copy was created leaves no row, no stored name and no name of the copy, and the original at its path |
| QuarantineEnds.RestoredOnce | internal/antivirus/quarantine.go:370-413 | from the moment its row is marked restored no further restore of a file begins, in any run, even if its copy is still in the store |
| QuarantineGaps.DeleteSparesOthersIff | internal/antivirus/quarantine.go:437-455 | a delete spares every other row's file if and only if the row has a stored name, or there is no store, or nothing else is in custody |
| QuarantineGaps.DeletingAnUnnamedRowLosesAnotherFile | internal/antivirus/quarantine.go:437-455 | a run in which deleting a row left unnamed by a crash empties the account's store |
| QuarantineRuns.CarelessOpenLosesTheFile | internal/antivirus/quarantine.go:370-413 | in every state that keeps the invariant, if a containment opens the path that a restore of a row in custody is still writing, some continuation without a delete leaves that row's bytes neither at the path nor in the store |
| QuarantineGuard.HarmlessOpenLosesNothing | internal/antivirus/quarantine.go:108-163 | opening any path for containment loses no row's file in any careful run, unless a restore of that row is writing the path |
| QuarantineGuard.OpenLosesIff | internal/antivirus/quarantine.go:108-163 | in every state that keeps the invariant, opening a file for containment can lead to the loss of a file in custody if and only if a restore of a row in custody is writing that path |
| QuarantineGaps.ContainingARestoreLosesTheFile | internal/antivirus/quarantine.go:370-413 | a whole run from an empty table in which containing a half-restored path loses the file although nobody deleted anything |
| QuarantineGaps.CrashBlocksContainment | migrations/0092_av_quarantine.sql:18-33 | in any run, once the store directory exists: a crash before the row is named, in a state that keeps the invariant and while no delete of that row is selected, blocks every later containment of the account, whatever happens afterwards |
| ProcWire.ParseProcEvents | internal/antivirus/procwatch.go:307-340 | the reader stays in bounds and ends on every buffer |
| ProcWire.EventsOfMessages | internal/antivirus/procwatch.go:307-340 | the events of a buffer of aligned messages are exactly those its messages announce, whatever else lies between |
| ProcWire.EventPayloadReads | internal/antivirus/procwatch.go:342-390 | each event, with any filler in the unread fields, is read back |
| ProcWire.MessageAnnouncesIff | internal/antivirus/procwatch.go:342-390 | a message announces an event if and only if it is the message of that event with some filler and not a control message |
| ProcWire.ParsingUndoesPrinting | internal/antivirus/procwatch.go:307-390 | any list of FORK, EXEC and EXIT events with positive pids, laid out as connector messages, parses back to that list |
| ProcWire.StatGivesBack | internal/antivirus/procwatch.go:281-300 | a stat line gives back exactly its command name, spaces and parentheses included, and its parent |
| ProcWatch.ProcWatcher.HandleEvent | internal/antivirus/procwatch_linux.go:193-214 | an event updates the ancestry table, and an exec is judged, as the functions say |
| ProcWatch.ProcWatcher.AncestorWalk | internal/antivirus/procwatch_linux.go:359-381 | the walk over at most eight ancestors |
| ProcWatch.ProcWatcher.RateAllow | internal/antivirus/procwatch_linux.go:383-403 | the bucket is refilled, capped and charged in place |
| ProcWatch.DescendantsAreJudgedWeb | internal/antivirus/procwatch_linux.go:193-214 | once a process is web when it forks, every descendant is judged web at exec, whatever exits and reparentings lie between, as long as no record of the line is lost |
| ProcWatch.ForkIsRemembered | internal/antivirus/procwatch_linux.go:193-214 | a fork is recorded with its time, its parent and its web mark, and stays so for five minutes unless its child exits or its pid is forked again |
| ProcWatch.ExitIsForgotten | internal/antivirus/procwatch_linux.go:193-214 | a pid that exited has no record |
| ProcWatch.ServerIsMarked | internal/antivirus/procwatch_linux.go:271-288 | a web server is marked at exec, if it has a record or there is room for one |
| ProcWatch.WebRecordHasCause | internal/antivirus/procwatch_linux.go:193-214 | a web record has a cause: a fork by a web process, or an exec at which /proc showed a web server |
| ProcWatch.AncestorHasWebIff | internal/antivirus/procwatch_linux.go:359-381 | the walk finds a web ancestor if and only if one of the first ancestors, by the table or by /proc, is web and none up to it is init |
| ProcWatch.WebUnderEveryProcIff | internal/antivirus/procwatch_linux.go:271-381 | a process is judged web whatever /proc says if and only if it has a record and the record is web |
| ProcWatch.SweepForgetsIff | internal/antivirus/procwatch_linux.go:421-434 | after a sweep a web process is still judged web whatever /proc says if and only if its record is at most five minutes old |
| ProcWatch.SilentChildIsForgotten | internal/antivirus/procwatch_linux.go:421-434 | after five minutes the sweep loses a child of a web server, and its next exec is judged not web |
| ProcWatch.NothingIsWebByItself | internal/antivirus/procwatch_linux.go:193-214 | without a web server in /proc nothing is ever judged web |
| ProcWatch.AllowedAndLeftAreBounded | internal/antivirus/procwatch_linux.go:383-403 | calls allowed and tokens left never exceed 5 times one plus the whole seconds from creation to last refill |
| ProcWatch.AllowsIff | internal/antivirus/procwatch_linux.go:383-403 | a call is allowed if and only if the tenant has no bucket, or tokens left, or a whole second has passed since the refill |
| ProcWatch.TokensLeft | internal/antivirus/procwatch_linux.go:383-403 | what a call leaves in the bucket: a full one after a whole second, and one less if it was allowed |
| ProcWatch.SweepDropsNoBucket | internal/antivirus/procwatch_linux.go:435-440 | between events a bucket holds 0 to 4 tokens, so the sweep never drops one |
| Encoder.BinaryBodyStart | internal/antivirus/encoder.go:133-148 | the start of the first run of 48 binary bytes, or none if and only if there is no such run |
| Encoder.StampNameIs | internal/antivirus/encoder.go:118-131 | a packed file is named by the first stamp of the table that stands in its first 1024 bytes, and by none exactly when none does |
| Encoder.Base64BodyStart | internal/antivirus/encoder.go:150-170 | where the base64 run begins that reaches the first dense window |
| Encoder.LongStretchIsFound | internal/antivirus/encoder.go:150-170 | a base64 stretch of 511 bytes is found, wherever it lies |
| Encoder.NoOverlap | internal/antivirus/encoder.go:186-216 | a sink never overlaps itself, which is why skipping a rejected match whole misses nothing |
| Encoder.InjectedCodeAfterBlob | internal/antivirus/encoder.go:172-216 | the resume point is the least position at which any sink is accepted, and none if and only if none is |
| Encoder.PureBase64StaysOpaque | internal/antivirus/encoder.go:49-57 | a body of base64 characters never resumes |
| Encoder.CommercialEncoderExtract | internal/antivirus/encoder.go:218-242 | the rules see the file with exactly one contiguous region replaced by a newline, or cut to the end |
| Backup.Application.Restore | internal/appbackup/appbackup.go:129-157 | the restore, call by call, leaves the state and the answer of the specification |
| Backup.MismatchChangesNothing | internal/appbackup/appbackup.go:129-139 | a restore changes nothing however its calls turn out if and only if the target is invalid or the digest does not match, and its answer says which |
| Backup.SuccessIsTheArchive | internal/appbackup/appbackup.go:323-333 | success means the root is exactly the archived tree, and the application runs and answered |
| Backup.RollbackRestoresNothing | internal/appbackup/appbackup.go:306-333 | to restore the rollback copy under its own name is to restore the tree of now, since the copy is written over before it is read |
| Backup.FailureGivesBackTheTree | internal/appbackup/appbackup.go:335-355 | any failure whose undo clears and unpacks leaves exactly the tree from before |
| Backup.TreeSurvivesFailure | internal/appbackup/appbackup.go:306-355 | on every exit but success the tree from before is at the root or whole in the rollback copy |
| Backup.RootIsAlwaysWhole | internal/appbackup/appbackup.go:129-157 | after any number of restores whose undos can clear and unpack, the root is the first tree or the whole tree of a verified archive, and no archive has changed |
| Backup.ExtraIsNotRolledBack | internal/appbackup/appbackup.go:306-321 | after a failed restore the unit and environment files are as before if and only if the archive held the same ones |
| Backup.CreateThenRestore | internal/appbackup/appbackup.go:88-157 | an archived tree comes back exactly, and a backup changes neither the tree nor any other file |
| Backup.FailedBackupLeavesNothing | internal/appbackup/appbackup.go:88-127 | a failed backup can have left a file under the final name if and only if nothing but closing it to other accounts failed |
| Backup.NoRollbackLeavesItDown | internal/appbackup/appbackup.go:141-144 | a restore without a rollback copy leaves the application down with its tree and its files untouched |
| Backup.FailedRestoreLeavesItDownIff | internal/appbackup/appbackup.go:134-157 | a failed restore of a running application leaves it down if and only if the stop failed and took it down, or the rollback copy was not written, or the archive did not start it and the undo did not unpack or did not start it |
| Backup.NextFailureIsSafeIff | internal/appbackup/appbackup.go:306-355 | a tree that survived a failed restore survives every failure of the next one if and only if it is at the root, or the archive of the next one does not verify |
| Backup.SecondRestoreLosesTheTree | internal/appbackup/appbackup.go:306-321 | a second restore writes its rollback copy over the only copy of the tree that a first failed one left |
| Session.SessionStore.IsValid | cmd/servika-agent/session.go:129-144 | answers and slides, or removes and saves, in place |
| Session.SessionStore.FlushOnce | cmd/servika-agent/session.go:102-117 | the sweep leaves exactly the sessions that have not timed out, and writes them |
| Session.ValidIffNeverIdle | cmd/servika-agent/session.go:58-152 | from any table a process has loaded and until it is restarted, a token is valid if and only if it was held or given out, not dropped since, and no gap between its uses was over three hours, whatever sweeps and failed saves there were |
| Session.SweepsChangeNoAnswer | cmd/servika-agent/session.go:102-117 | from any loaded table, every answer up to the next restart is as if no sweep had run |
| Session.SweepChangesAnAnswerIff | cmd/servika-agent/session.go:75-117 | one sweep changes the answer of some later call, restarts included, if and only if it saves a live part that the file does not hold, or takes out an ended session while the table or the file holds a live one |
| Session.RestartChangesAnAnswerIff | cmd/servika-agent/session.go:57-74 | a restart changes the answer of some later call if and only if the live part of the file is not that of the table, or the table holds an ended session beside a live one |
| Session.SweepIsSeenAfterRestart | cmd/servika-agent/session.go:102-117 | a run with one sweep and one restart in which a session lives on, while without the sweep it is lost although it was never idle over three hours |
| Session.ValidOnlyWhileLoggedIn | cmd/servika-agent/session.go:58-90 | from any file without a time of the future and with any restarts, as long as logouts are saved, no restart revives a dropped or ended session or prolongs one |
| Session.UnsavedDropIsUndone | cmd/servika-agent/session.go:77-90 | a logout whose save fails is undone by a restart if and only if the file holds the session live |
| Session.RestartAfterSaveChangesNothing | cmd/servika-agent/session.go:58-90 | after a successful save a restart changes no later answer |
| Ports.EveryPortIsVisitedOnce | internal/apps/apps.go:224-250 | the cyclic offset visits every port of the range at exactly one offset, from any start |
| Ports.AllocatePort | internal/apps/apps.go:214-250 | a port is the first one not refused; no free port if and only if every port was busy or a duplicate |
| Ports.HeldPortsDiffer | internal/apps/apps.go:214-250 | under any interleaving of creations and deletes, the ports held are pairwise different |

## Left out

- The regular expressions of the rules, the decompressors, the 64-bit content hash, entropy
  and ClamAV: parameters of the models. A hash collision only makes
  the decode pass skip more.
- `evaluate` as a whole (internal/antivirus/rules.go:298-334): its passes are modelled one
  by one, and its taint and concealment passes not at all.
- The seam between the head and the tail of a large file
  (internal/antivirus/antivirus.go:806-838): a pattern may match across it, and no claim is
  made.
- A cached sweep of several roots at once: the sweeps of CachedSweep.dfy have one root each, as
  every cached sweep of the program has (internal/avsettings/avsettings.go:298-303).
- The cache of a list of scan roots that changes between sweeps: the roots are not in the
  fingerprint (internal/antivirus/rapidcache.go:90-114), and a path is judged by its place
  under one, so the list is taken as fixed.
- Printed programs have no hex escapes under two digits, no octal escapes under three and no
  heredocs: Literals.dfy and Heredocs.dfy treat those readers by themselves.
- In the straight-line programs the index of an array element is a literal, the pieces of an
  inline concatenation keep to the fold ceiling together, and the table-truth results take no
  element of a string the table knows (PHP would take one of its bytes).
- Unicode in sink names: lowering and trimming are those of ASCII.
- atoiSafe's wrap past 63 bits, and the rounding of a float of seconds in the bucket, which
  is exact for spans under 97 days.
- The scan pool, the cache sweep, the slot and the quarantine are state machines on values:
  goroutines, channels, mutexes and files are their steps. That each mutex and the
  channel are correct is not proved.
- The slot's progress after a failed release, and quarantine when a tenant replaces a path
  between open and removal or writes to a file while it is restored: the code promises
  neither.
- Power loss: a crash keeps every write that was made before it.
- The size limit, the kind check and the reason codes of a containment are failures without
  further detail; restoring a row without a stored name copies nothing and is not a step.
- Threads that fork or exit under their own ids, and reads of /proc that fail.
- SQL, HTTP handlers, notifications, the alert throttle, scoring of a process, the Windows
  agent's other commands, and rotation of backups: plumbing or easy members.
- ParseStat: Go's Fields also splits at Unicode blanks, which a stat line does not have after
  its last parenthesis.
