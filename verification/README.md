# Regal: a verified model of its Go core

Regal lints Rego policies with rules that are themselves written in Rego. Around them the Go code holds
algorithms that do not depend on any rule: a line diff, a fixer that edits and renames files, a lint pipeline
made of goroutines, version comparison, a cache, two encoders of the syntax tree. This project models these
and proves what they are for.

| files | what they model |
|---|---|
| `EditDistance`, `Furthest`, `Myers`, `Operations` | the greedy O(ND) line diff, its trace, the walk back through it and the operations it builds |
| `TextEdits` | lines, positions and text edits of the Language Server Protocol |
| `FileProvider`, `FixReport`, `Rename`, `Paths`, `Fixer` | the fixer as a state machine: the in-memory files and their journal, the report, candidate names, one fix at a time, the write-back |
| `RemoveLocations` | cutting spans out of a text |
| `LintPipeline`, `LspCache` | the pipeline from a change to a lint run, step by step, and the re-partitioning of the file cache by a new configuration |
| `Semver`, `SemverOrder`, `StableSort`, `SemverSort` | parsing, printing, comparing and sorting semantic versions |
| `TrieCache` | the cache of base documents, a trie on the heap |
| `Json`, `Roast`, `RoastStream`, `RoastTree` | the streaming RoAST codecs, a JSON reader, and the direct conversion to a tree |
| `Uri`, `SemanticTokens`, `DirCleanUp` | file URIs, delta-encoded tokens, directories left empty |
| `Decimal`, `MapTotals` | decimal numerals, sums over maps |

`dafny verify dfyconfig.toml` checks everything. Code that changes things step by step is modelled by methods
with loops, arrays and classes, each proved against a function or a property that the lemmas are about; long
functions of the source are several methods here, one for each loop or turn.

## Main results

- The diff is correct and minimal: the operations rewrite one list of lines to the other and touch as few lines
  as any edit script, which is M + N without twice a longest common subsequence. The text edits made from them
  turn one text into the other, for all texts. The pass lets points overshoot the grid; distances on an extended
  grid, where nothing matches outside, show that this never hides the optimum.
- Over any run of fix steps the number of files plus the number of registered conflicts is constant, so nothing
  disappears unless a conflict is on record, and then nothing is written. Replaying the journal of any run gives
  exactly the fixed files.
- No lint is lost: when the pipeline is quiet, the last run has seen every posted change, and it has worked on the very
  text that was last written to each file, the last module and the last configuration; runs never outnumber posts;
  without further changes it becomes quiet within a known number of steps.
- `Parse` accepts exactly the spellings of a version that `Semver.ParseAccepts` lists, and printing picks one of them.
  `Compare` is the precedence of Semantic Versioning 2.0.0, spelled out identifier by identifier, wherever it ends
  and all numbers fit 64 bits. For every way of converting numerals to integers the exact condition for its ending is
  given.
- Renaming away from conflicts ends for every finite set of files, whatever numbers their names contain.
- The streaming codecs write well-formed JSON, and decoding it gives the directly built tree, under an exact
  condition.

## What does not hold

These properties fail in the code as it is. Each comes with an input and the exact condition under which it holds.

- `Compare` never returns for pre-releases that differ as strings but agree identifier by identifier, as converted to
  integers, like 1.0.0-01 and 1.0.0-1, both of which `Parse` accepts (`SemverOrder.LoopsForeverIffStuck`,
  `SemverOrder.LeadingZeroIsStuck`). For numbers that do not fit an integer this concerns well-formed versions, too:
  the error of the conversion is ignored, and every conversion maps some two numbers to the same integer
  (`SemverOrder.SomeWellFormedAreStuck`).
- The write-back fails if a deleted path is not on disk, which happens exactly when a step has moved a file to a path
  that is not on disk and a later step takes it away from there (`Fixer.RunCanBeWrittenBack`,
  `FileProvider.TwoRenamesCannotBeWrittenBack`).
- A span that starts at the end of a line, such as one that covers only the newline, is not removed
  (`RemoveLocations.DisjointSpansAreCut`, `RemoveLocations.NewlineStays`).
- A document put into the trie cache at the empty reference is never consulted, and uncovers everything that was
  put before (`TrieCache.CoveredIff`, `TrieCache.RootIsNotConsulted`); `NewStoreFromObject` in `internal/ogre/store.go` does such a put.
- Absolute paths that start with a drive letter do not survive the conversion to a URI and back
  (`Uri.AbsoluteRoundTrip`, `Uri.DriveLosesSlash`).
- The direct tree and the decoded JSON differ where an expression in a template string is negated, generated, has
  modifiers, or has other than plain terms (`RoastTree.BodyAgrees`, `RoastTree.NegatedPartIsLost`).
- The search for empty directories does not end when the target is the only entry of an unpreserved root
  directory (`DirCleanUp.RunsForeverIffStuck`, `DirCleanUp.LoneFileIsStuck`). It finds the root although it is above a
  preserved path when there is nothing else on the way down to the target (`DirCleanUp.AbovePreservedIffClear`,
  `DirCleanUp.RootIsFoundAboveX`).

## What callers have to see to

- `Parse` is more lenient than Semantic Versioning 2.0.0: a leading v, leading zeros in the three numbers and in
  pre-releases, and a dash or plus with nothing after it are accepted (`Semver.ParseAccepts`).
- Merging the fixes of a path with themselves would lose them (`FixReport.MergeKeepsFixes`), so a fix must not ask to
  move a file onto itself. The one shipped fix that moves files does not: it returns nothing when the new path is the
  old one (`pkg/fixer/fixes/directorypackagemismatch.go`, lines 38 to 40). `Fixer.RunBalance` states what follows for
  the fix counter over a whole run.

## Model

| member | source | states |
|---|---|---|
| EditDistance.DistIsShortest | internal/lsp/diff.go:161-209 | The grid distance of the far corner, which the forward pass is measured against, is the least number of inserted and deleted lines of any edit script from a to b. |
| EditDistance.NoScriptBeatsDist | internal/lsp/diff.go:161-209 | No script that turns a prefix of a into a prefix of b is cheaper than the grid distance of the two prefixes. |
| EditDistance.ScriptOfDist | internal/lsp/diff.go:161-209 | Some script is as cheap as the grid distance. |
| EditDistance.ShortestKeepsLongest | internal/lsp/diff.go:161-209 | d is least exactly if (M + N - d) / 2 is the length of a longest common subsequence. |
| EditDistance.DistPastCorner | internal/lsp/diff.go:180-187 | Beyond the grid nothing matches: the point diagonally past the far corner costs two edits more, so overshooting never hides the optimum. |
| Furthest.StartReached | internal/lsp/diff.go:169-178 | The column at which the pass enters a diagonal, from the neighbour it prefers, can be reached with d edits. |
| Furthest.OnlyMatchesContinue | internal/lsp/diff.go:169-187 | From where the pass enters a diagonal on, a point that does not match cannot be passed with d edits, also outside the grid. |
| Furthest.FurthestReached | internal/lsp/diff.go:169-190 | Sliding to the first mismatch gives the furthest point of the diagonal for d edits. |
| Furthest.FarIsExact | internal/lsp/diff.go:169-190 | A furthest point on a diagonal of the right parity needs exactly d edits. |
| Furthest.RowExtended | internal/lsp/diff.go:165-190 | Writing one diagonal of row d leaves all of row d - 1 intact, which shares the array. |
| Furthest.SnakeMatches | internal/lsp/diff.go:180-184 | All lines between the entry and the furthest point of a diagonal are pairwise equal. |
| Furthest.CornerIsHit | internal/lsp/diff.go:192-203 | With as many edits as the far corner needs, the furthest point of its diagonal is the corner itself, although other diagonals overshoot. |
| Furthest.FarOnAxis | internal/lsp/diff.go:130-130 | A furthest point on x = 0 has y equal to its number of edits, one on y = 0 has x equal to it; so walking back may stop on an axis. |
| Myers.FillDiagonal | internal/lsp/diff.go:169-190 | One turn of the inner loop changes one entry of V, to the furthest column of its diagonal; all indices are in range. |
| Myers.FillRow | internal/lsp/diff.go:168-204 | The inner loop stops in the far corner exactly if d is the size of a shortest script; otherwise it leaves the complete row d. |
| Myers.ShortestEditSequence | internal/lsp/diff.go:161-209 | For texts not both empty the pass returns inside its loop, at the size of a shortest script, and every saved entry of the trace holds the row before. |
| Myers.PreviousPoint | internal/lsp/diff.go:136-146 | Of a furthest point inside the grid, the point before the last edit is a furthest point for one edit less, lies inside the grid, and is joined to it by one edit and equal lines. |
| Myers.StepBack | internal/lsp/diff.go:131-153 | One turn of the walk back records the current point and goes to the point before the last edit. |
| Myers.Backtrack | internal/lsp/diff.go:126-158 | The recorded points form a chain, inside the grid, from an axis or a common prefix to the far corner, also after stopping early on an axis. |
| Operations.NextMove | internal/lsp/diff.go:70-113 | From where the construction stands before a snake, the snake is reached by deletions only or insertions only, one line a diagonal, and then equal lines. |
| Operations.FollowSnake | internal/lsp/diff.go:70-113 | Following a snake appends at most one deletion and one insertion, and extends what the operations rewrite up to the end of the snake. |
| Operations.CollectOperations | internal/lsp/diff.go:45-120 | For any such chain, the collected operations rewrite all of a to b and touch as many lines as the chain has edits. |
| Operations.LineOperations | internal/lsp/diff.go:40-121 | The operations are in order and do not overlap, applied to a they give b, and the lines deleted plus inserted are as few as in any edit script. |
| TextEdits.SplitLinesConcat | internal/lsp/diff.go:211-218 | The lines of a text concatenate back to it, and none is empty. |
| TextEdits.IndexNewlineNth | internal/util/util.go:382-393 | The index of the n-th newline, or -1 exactly if n is zero or there are fewer. |
| TextEdits.Line | internal/util/util.go:396-420 | There is a line lineNum exactly from 1 up to the number of lines; it is the piece with that number, as the text is split after newlines, without its newline. |
| TextEdits.NewlinesAndPieces | internal/util/util.go:372-374 | A text has one line more than newlines: as many as the pieces it is split into. |
| TextEdits.ToOffset | internal/lsp/types/types.go:317-327 | A position is the start of its line plus the character; a line beyond the last one is the end of the text. |
| TextEdits.PositionMeans | internal/lsp/types/types.go:317-327 | The offset is the character on line zero, so many characters after the newline that ends the line before, and the length of the text for a line past the last one. |
| TextEdits.OffsetOfLine | internal/lsp/types/types.go:317-327 | Line n starts where the first n lines of the split text end, also without a final newline, and also one past the last line. |
| TextEdits.EditsRewrite | internal/lsp/format.go:44-54 | Text edits made from line operations do to the text what the operations do to its lines. |
| TextEdits.ComputeEdits | internal/lsp/format.go:34-56 | For any two texts, the edits are ordered, do not overlap, and applied to before, with positions read by ToOffset, give after. |
| FileProvider.InMemoryFileProvider.constructor | pkg/fixer/fileprovider/inmem.go:20-22 | A new provider holds the files; nothing is modified or deleted. |
| FileProvider.InMemoryFileProvider.Get | pkg/fixer/fileprovider/inmem.go:43-50 | The content, or that there is none. |
| FileProvider.InMemoryFileProvider.Put | pkg/fixer/fileprovider/inmem.go:52-57 | The file has the new content, whether it was there or not, and is marked as modified; nothing else changes. |
| FileProvider.InMemoryFileProvider.Rename | pkg/fixer/fileprovider/inmem.go:59-72 | Fails on a missing source first, then on an existing target, changing nothing; otherwise moves the content and journals a put and a delete. |
| FileProvider.InMemoryFileProvider.Delete | pkg/fixer/fileprovider/inmem.go:74-80 | The file is gone, marked as deleted and not as modified. |
| FileProvider.LastOperationCounts | pkg/fixer/fileprovider/inmem.go:52-80 | After any sequence of operations a path holds what the last one on it has left: the content that was put, nothing, or the content of the path it was renamed from. |
| FileProvider.RunTracks | pkg/fixer/fileprovider/inmem.go:52-80 | After any sequence of operations: modified paths have content, all original paths are held or deleted, and unmarked paths are unchanged. |
| FileProvider.ReplayIsExact | cmd/fix.go:287-324 | For any sequence of puts, renames and deletes, removing the deleted paths (absent ones ignored) and writing the modified ones turns the initial disk into exactly the files of the provider, also when a path is deleted and created again. |
| FileProvider.ReplayOfTracked | cmd/fix.go:287-324 | On a disk with further files, those the provider never had and never deleted stay. |
| FileProvider.WriteBack | cmd/fix.go:287-324 | Whatever the order of removals, the write-back succeeds if and only if every deleted path is on disk, and then replays the journal. |
| FileProvider.TwoRenamesCannotBeWrittenBack | cmd/fix.go:287-292 | Renaming a file twice makes the write-back fail: the middle name is to be removed and was never on disk. |
| FixReport.Report.AddFileFix | pkg/fixer/report.go:28-31 | Appends to the fixes of the file and counts. |
| FixReport.Report.MergeFixes | pkg/fixer/report.go:37-40 | The fixes of the second path are appended to those of the first, and the second path is removed. |
| FixReport.Report.RegisterOldPathForFile | pkg/fixer/report.go:42-44 | Appends to the old paths of the file. |
| FixReport.Report.RegisterConflictManyToOne | pkg/fixer/report.go:65-75 | Appends one old path to one list; all other lists stay. |
| FixReport.Report.RegisterConflictSourceFile | pkg/fixer/report.go:77-87 | The same for conflicts with files that were there from the start. |
| FixReport.Report.HasConflicts | pkg/fixer/report.go:89-91 | Whether either register has an entry. |
| FixReport.AddKeepsBalance | pkg/fixer/report.go:28-31 | Adding keeps the counter equal to the sum of all lists of fixes. |
| FixReport.MergeKeepsFixes | pkg/fixer/report.go:37-40 | Merging keeps the number of listed fixes, unless both paths are the same: then the fixes of that path are lost. |
| FixReport.ConflictCounted | pkg/fixer/report.go:65-87 | Every registration adds exactly one to the number of registered conflicts. |
| FixReport.ConflictsMeanCount | pkg/fixer/report.go:89-91 | There are conflicts exactly if their number is not zero. |
| Fixer.NextCandidate | pkg/fixer/fixer.go:340-344 | The next name to try is the next candidate of the original one, and was not tried before: so the loop ends. |
| Fixer.RecordConflict | pkg/fixer/fixer.go:311-338 | The file is deleted, the conflict is registered in the register for its kind, and the fixes are filed under the new path. |
| Fixer.ConflictedMeans | pkg/fixer/fixer.go:311-338 | The file is gone, its path is added under root and new path in the register for files that were there from the start exactly if the new path was, the other register is untouched, and its fixes are appended to those of the new path. |
| Fixer.HandleRename | pkg/fixer/fixer.go:294-356 | Fails exactly on a missing file or an unsupported mode, changing nothing. Otherwise the conflict is recorded, or the file is moved to the first free candidate of its new name, whatever files there are. |
| Fixer.MovedMeans | pkg/fixer/fixer.go:346-355 | The content is under the new path, the old one is gone, and the fixes of the new path are followed by this fix, naming it, and by those of the old path; no conflict is registered. |
| Fixer.ApplyOneFix | pkg/fixer/fixer.go:227-291 | The first registered fix with a violation it can do something about is applied to it, so that the file has the content the fix has computed, and nothing else changes; errors of the lookup, of the fix and of the rename are kept apart from having nothing to do. |
| Fixer.SelectMeans | pkg/fixer/fixer.go:240-287 | The fix that is chosen is the first registered one with a violation that it has a result for, the violation the first such, and the result its first; all pairs before were passed. Nothing is chosen exactly if all pairs are passed. |
| Fixer.StepConserves | pkg/fixer/fixer.go:227-356 | Every step keeps the number of files plus the number of registered conflicts. |
| Fixer.RunConserves | pkg/fixer/fixer.go:227-356 | After any run of steps files are missing exactly if the report has conflicts, and as many as there are conflicts. |
| Fixer.MoveKeepsContents | pkg/fixer/fixer.go:293-356 | A rename without a recorded conflict keeps the multiset of contents. |
| Fixer.RenameBalance | pkg/fixer/fixer.go:311-356 | The fix counter stays equal to the sum of the lists over a move; over a recorded conflict it does exactly if the file was not to be moved onto itself. |
| Fixer.RunBalance | pkg/fixer/fixer.go:227-356 | After any run of steps the counter equals the sum of the lists exactly if no step has dropped a file onto itself; no shipped fix asks for that. |
| Fixer.RunDeletes | pkg/fixer/fixer.go:293-356 | The paths marked as deleted after a run are exactly those that its steps have moved or dropped files from. |
| Fixer.RunCanBeWrittenBack | cmd/fix.go:287-292 | On a disk that holds the starting files, all removals succeed exactly if no step has moved a file to a path that is not on disk and a later one has moved or dropped it from there. |
| Fixer.RunIsWrittenBack | cmd/fix.go:287-324 | The journal of any run, replayed on a disk that holds the files it started from, leaves the fixed files. |
| Fixer.FinishRun | cmd/fix.go:260-324 | With conflicts, or in a dry run, the disk does not change; otherwise the journal is replayed, and a failure means a deleted path was not on disk. |
| Rename.ParseLosesNothing | pkg/fixer/rename.go:17-33 | Directory, base, test suffix and extension put together again give the path. |
| Rename.NumberedAgain | pkg/fixer/rename.go:27-33 | A base that ends in an underscore and a number is taken apart into exactly these. |
| Rename.NextNumber | pkg/fixer/rename.go:30-32 | A number below the greatest integer is followed by the next number, behind the same stem. |
| Rename.UnnumberedNext | pkg/fixer/rename.go:33-35 | A base without underscores gets the suffix _1. |
| Rename.NextCountsUp | pkg/fixer/rename.go:27-35 | Whatever a number that does not fit is converted to, and also past the greatest integer, the next base ranks higher. |
| Rename.CandidateCountsUp | pkg/fixer/rename.go:17-38 | A candidate is taken apart into the same extension and test suffix and the cleaned directory, with the next base, whatever the number in it. |
| Rename.CandidateText | pkg/fixer/rename.go:17-38 | Character by character: the candidate for directory, base, an optional _test and extension is the cleaned directory, the next base, the same _test and the same extension. |
| Rename.CandidatesDiffer | pkg/fixer/fixer.go:303-344 | All candidates for one path are different, so among finitely many files one is free. |
| Rename.CandidatesKeepPlace | pkg/fixer/rename.go:17-38 | Every candidate is in the directory of the original, with its extension and its test suffix. |
| Paths.JoinIsCleanDir | pkg/fixer/rename.go:37-37 | Joining a directory and an ordinary name keeps the name behind the cleaned directory. |
| Paths.CleanDirTwice | pkg/fixer/rename.go:37-37 | Cleaning a cleaned directory changes nothing. |
| Paths.CleaningMeans | pkg/fixer/rename.go:37-37 | What the cleaned directory is, part by part: empty parts and dots go, a parent reference takes back the part before it, stays in front of a relative path and leads nowhere from the root, and all else stays. |
| RemoveLocations.CutText | pkg/fixer/fixes/fixes.go:133-134 | Merging the start of one line with the end of another removes exactly the text between them from the joined text. |
| RemoveLocations.StillInPlace | pkg/fixer/fixes/fixes.go:102-105 | After cuts further down, the coordinates of a span above them still mean the same text, and it is still cut or passed over as it would have been. |
| RemoveLocations.SortedSpansApart | pkg/fixer/fixes/fixes.go:107-113 | In the order of processing, every span ends before all earlier ones start. |
| RemoveLocations.InOrderSorts | pkg/fixer/fixes/fixes.go:107-113 | The locations are processed bottom-up and, within a row, right to left; all of them. |
| RemoveLocations.RemoveOne | pkg/fixer/fixes/fixes.go:118-136 | One turn of the loop, for any location: it is cut out of the lines as they are, or passed over if it has no end or does not lie within them. |
| RemoveLocations.RemoveAll | pkg/fixer/fixes/fixes.go:106-140 | For any locations, the lines after all turns in that order, and whether any turn has cut. |
| RemoveLocations.CutsProgress | pkg/fixer/fixes/fixes.go:117-137 | Of disjoint non-empty spans each is still where it was when its turn comes, and after n turns exactly those of the n are gone that start before the end of their line. |
| RemoveLocations.StartingBeforeLineEndIsCut | pkg/fixer/fixes/fixes.go:128-137 | For disjoint non-empty spans of the text, joining the result gives the original text without exactly the characters covered by spans that start before the end of their line; something is reported as removed exactly if there is one. |
| RemoveLocations.DisjointSpansAreCut | pkg/fixer/fixes/fixes.go:102-140 | For disjoint non-empty spans of the text, in whatever order they come, joining the result gives the original text without exactly the characters that some span covers, if and only if no span starts at the end of a line. |
| RemoveLocations.NewlineStays | pkg/fixer/fixes/fixes.go:129-131 | A span of nothing but a newline is passed over. |
| LintPipeline.StepKeepsInvariant | internal/lsp/server.go:365-437 | Every step keeps that all that has not been linted will be, and that every post is accounted for. |
| LintPipeline.RunKeepsInvariant | internal/lsp/server.go:365-437 | So does every run of the pipeline from its start. |
| LintPipeline.NoLostLint | internal/lsp/server.go:385-432 | Whenever no writer is between its change and its post, the queues are empty and everybody is idle, the last lint has seen the current configuration, and has read files and modules after the last change that posts. |
| LintPipeline.LastWriteIsLinted | internal/lsp/server.go:951-1000 | Over any sequence of steps: when the last change of a file is a write, the cache holds the text that was written, and once all is quiet the last lint has worked on that text. |
| LintPipeline.LastModuleIsLinted | internal/lsp/lint.go:59-105 | The same for the module that the last successful parse of a file has given. |
| LintPipeline.LastConfigIsLinted | internal/lsp/server.go:490-516 | The same for the last configuration. |
| LintPipeline.LastQuietChangeStays | internal/lsp/server.go:960-1000 | When the last change of a file makes no post, the file and the module are what it has made of them. |
| LintPipeline.WriterParsesItsFile | internal/lsp/server.go:968-980 | After a write, its writer parses the file that was written, and no other, before it posts. |
| LintPipeline.RunsBoundedByPosts | internal/lsp/server.go:385-432 | Runs never outnumber posts; once quiet, every post was answered by a run or coalesced with one that was. |
| LintPipeline.NeverStuck | internal/lsp/server.go:385-432 | Until all is quiet some step of the pipeline itself can be taken, and the collector never blocks. |
| LintPipeline.InternalStepsRunOut | internal/lsp/server.go:385-432 | Every step of the pipeline itself brings it closer to quiet. |
| LintPipeline.Settles | internal/lsp/lint.go:152-187 | Without further changes, every way of going on ends after boundedly many steps, quiet, and with the configuration and all posted changes of files and modules seen. |
| LspCache.Cache.Delete | internal/lsp/cache/cache.go:164-171 | Everything about one file goes, its ignored content too, and nothing else. |
| LspCache.Cache.UpdateParse | internal/lsp/lint.go:59-150 | A module, no parse errors and a line count, or only parse errors. |
| LspCache.MoveIgnored | internal/lsp/server.go:663-681 | Every regular file that is ignored now is moved to the ignored part, all else about it dropped; other files keep everything. |
| LspCache.MoveBack | internal/lsp/server.go:683-703 | Every ignored file that is not ignored now becomes a regular one and is parsed, unless there is a regular copy; in both cases it leaves the ignored part. |
| LspCache.LoadConfig | internal/lsp/server.go:620-704 | When the capabilities are not found nothing changes; otherwise the cache is partitioned as the configuration wants it, with the same contents, from any state. |
| LspCache.LoadingPartitions | internal/lsp/server.go:645-703 | Afterwards no ignored file is among the regular ones and no other among the ignored ones; the union of the paths stays, and every path keeps its content, the regular copy winning. |
| LspCache.LoadingMoves | internal/lsp/server.go:663-703 | File by file: one that is ignored now keeps its text in the ignored part and loses all else; one that is not ignored any more gets its text back and is parsed; every other file stays as it is. |
| LspCache.PartitionIsUnique | internal/lsp/server.go:645-703 | This determines both parts. |
| Semver.ParsedIsParsed | internal/semver/semver.go:28-60 | What Parse returns has 64-bit numbers and well-formed or empty pre-release and metadata. |
| Semver.AppendText | internal/semver/semver.go:75-93 | Appends the printed version, and leaves what is in the buffer. |
| Semver.ParseToString | internal/semver/semver.go:95-101 | Printing any such version and parsing the result gives it back. |
| Semver.RoundTrip | internal/semver/semver.go:28-101 | Whatever Parse returned for a string, it returns again for its printed form. |
| Semver.ParseAccepts | internal/semver/semver.go:28-60 | Parse returns a version exactly if the string is an optional v, three numerals joined by dots with the values of the version, then the pre-release behind a dash and the metadata behind a plus, in this order; a dash or plus may also stand alone. |
| Semver.LeadIsIgnored | internal/semver/semver.go:29-29 | A v in front of a printed version is accepted, and makes no difference. |
| Semver.CanonicalSpelling | internal/semver/semver.go:75-93 | What is printed is the spelling without a v, with decimal numerals, and without a lone dash or plus. |
| SemverOrder.TurnCompares | internal/semver/semver.go:141-187 | However numerals are converted, one turn of the loop returns what the remaining identifier lists compare to, or goes on with shorter lists that compare the same. |
| SemverOrder.LoopsForeverIffStuck | internal/semver/semver.go:141-187 | However numerals are converted to integers, the loop runs forever exactly if the pre-releases differ as strings but agree identifier by identifier, as converted. |
| SemverOrder.LeadingZeroIsStuck | internal/semver/semver.go:14-14 | For every conversion 1.0.0-01 and 1.0.0-1 are such a pair, and Parse accepts both. |
| SemverOrder.CollisionIsStuck | internal/semver/semver.go:160-167 | Two numbers that are converted to the same integer make two such versions, both well-formed. |
| SemverOrder.SomeWellFormedAreStuck | internal/semver/semver.go:160-161 | Every conversion to 64-bit integers has such numbers: some well-formed versions are never compared. |
| SemverOrder.Compare | internal/semver/semver.go:105-188 | For all other pairs Compare ends, negative exactly if the first version stands below the second as the next row spells it out, positive exactly if above; if all numeric identifiers fit 64 bits, that is the precedence of item 11 of Semantic Versioning 2.0.0. |
| SemverOrder.PrecedenceMeans | internal/semver/semver.go:105-188 | Below means: major, minor and patch are lexicographically less; or they agree and only the lower version has a pre-release; or at the first identifier that differs numbers go by value, a number stands below a word and words go by character; or all shared identifiers agree and the lower list is shorter. |
| SemverOrder.StringsBelow | internal/semver/semver.go:169-174 | Words go by their first differing character, and a proper prefix stands below. |
| SemverOrder.DottedMeans | internal/semver/semver.go:14-14 | What the pattern matches: non-empty identifiers of letters, digits and dashes, joined by dots. |
| SemverOrder.IdentifiersJoined | internal/semver/semver.go:141-187 | The identifiers that are compared, joined by dots, are the pre-release. |
| SemverOrder.ExampleChain | internal/semver/semver.go:105-188 | The example of item 11: alpha, alpha.1, alpha.beta, beta, beta.2, beta.11, rc.1 ascend, and a version stands above its pre-releases. |
| SemverOrder.FittingIsSpecified | internal/semver/semver.go:160-161 | For identifiers that fit, the conversion changes neither the precedence nor which pairs are stuck. |
| SemverOrder.PrecedenceIsTotalPreorder | internal/semver/semver.go:105-188 | However numerals are converted, the result is reflexive, antisymmetric in sign and transitive. |
| SemverOrder.EqualPrecedence | internal/semver/semver.go:105-188 | The precedence is zero exactly when major, minor, patch and pre-release agree, if and only if the pair is not one of those. |
| SemverOrder.WellFormedEqual | internal/semver/semver.go:105-188 | For versions with well-formed pre-releases whose numbers fit it is zero exactly when these four agree. |
| SemverOrder.WellFormedNeverStuck | internal/semver/semver.go:105-188 | Versions whose numeric identifiers have no leading zeros (item 9) and fit 64 bits can always be compared. |
| SemverSort.Partition | internal/capabilities/capabilities.go:208-218 | The versions among the strings, and the other strings, each in their order. |
| SemverSort.ValidOrInvalidAt | internal/capabilities/capabilities.go:211-218 | The i-th string is among the versions, as what it was parsed to, if it can be parsed, and among the other strings, as it is, if not; in both after as many as come before it. |
| SemverSort.SortVersions | internal/capabilities/capabilities.go:220-220 | Sorting calls Compare, with its conversion, on comparable versions only, so it ends; the result is the stably sorted sequence. |
| SemverSort.SemverSort | internal/capabilities/capabilities.go:206-229 | The argument array is overwritten with the list that the next row describes. |
| SemverSort.ListedMeans | internal/capabilities/capabilities.go:206-229 | Valid versions come first, none before one that compares as newer, then invalid strings in descending order; together a permutation of the canonical forms of the valid and of the invalid inputs. |
| SemverSort.ListedDescends | internal/capabilities/capabilities.go:222-228 | In the list, no version stands below one that follows, identifier by identifier, and no invalid string below one that follows, character by character. |
| SemverSort.ListedAsSpecified | internal/capabilities/capabilities.go:206-229 | If all numbers fit, newer means newer by the specification, and the versions are comparable exactly if they are by the specification. |
| SemverSort.SortedVersionsAreStable | internal/capabilities/capabilities.go:220-222 | Versions that differ only in metadata keep their order when sorted, before the reversal. |
| StableSort.SortSorts | internal/capabilities/capabilities.go:220-222 | The sorting that is used yields an ascending permutation in which elements of equal rank keep their order. |
| TrieCache.BaseCache.Get | internal/cache/cache.go:26-53 | What the entry at the shortest non-empty prefix of the reference has under the rest of the reference, or nothing. |
| TrieCache.BaseCache.Put | internal/cache/cache.go:55-71 | The entry at the reference is replaced and all entries below it are discarded; no other entry changes, and the nodes stay a trie. |
| TrieCache.BaseCache.AddChild | internal/cache/cache.go:60-66 | A missing node is added without changing any entry. |
| TrieCache.BaseCache.SetAndPrune | internal/cache/cache.go:79-82 | Setting a value cuts off everything below. |
| TrieCache.PruningKeepsTrie | internal/cache/cache.go:79-82 | Cutting off a subtree leaves a trie: distinct places have distinct nodes, and children lead exactly to the places that are left. |
| TrieCache.EntriesAreLivePuts | internal/cache/cache.go:55-82 | After any sequence of puts, the entries are the puts that no later put at or above them has discarded. |
| TrieCache.CacheAgrees | internal/ogre/store.go:34-34 | When all puts come from one document, a lookup agrees with the document exactly where a non-empty prefix has an entry, and finds nothing elsewhere. |
| TrieCache.CoveredIff | internal/cache/cache.go:26-82 | A reference is covered exactly if some put went to a non-empty prefix of it and none to the empty reference after that: a value put there is never consulted, and uncovers everything. |
| TrieCache.RootIsNotConsulted | internal/ogre/store.go:34-34 | A document put at the empty reference, a key it has, and a lookup that finds nothing. |
| TrieCache.FindInSteps | internal/cache/cache.go:39-48 | Finding a reference is finding a prefix of it and then the rest. |
| TrieCache.FindStep | internal/cache/cache.go:39-48 | One step: a scalar has nothing below it, an array has the element at the index, an object the value of the key, a set its member. |
| Json.ParsePrinted | internal/roast/encoding/write/streams.go:11-92 | JSON printed as the codecs print it is well-formed (RFC 8259, sections 4 and 5) and is read back as it was. |
| Json.ParsedIsPrinted | internal/roast/encoding/write/streams.go:11-92 | A token text is well-formed exactly if it is the printed form of what is read from it, so a trailing or missing comma is never accepted. |
| RoastStream.ObjectClosed | internal/roast/encoding/write/streams.go:78-81 | With a comma after every member, trimming before the closing brace removes the last comma and no other, also from an empty object. |
| RoastStream.LastMemberClosed | internal/roast/encoding/write/streams.go:78-81 | When the last member was written without a comma, trimming removes nothing. |
| RoastStream.Stream.ObjectStart | internal/roast/encoding/write/streams.go:70-76 | An open object with the location, if there is one, followed by a comma. |
| RoastStream.Stream.ObjectEnd | internal/roast/encoding/write/streams.go:78-81 | All commas at the end of the buffer give way to a closing brace. |
| RoastStream.Stream.String | internal/roast/encoding/write/streams.go:58-62 | One more member, followed by a comma. |
| RoastStream.Stream.Bool | internal/roast/encoding/write/streams.go:64-68 | One more member, followed by a comma. |
| RoastStream.Stream.EncodeTerm | internal/roast/encoding/write/streams.go:83-92 | Appends exactly the tokens of the term: location, type and value. |
| RoastTree.TermTypes | internal/roast/encoding/write/streams.go:83-92 | The type that is written for a term is ref, call, array, set, object, arraycomprehension, setcomprehension, objectcomprehension, templatestring, var, null, boolean, number or string, each exactly if the value is of that kind. |
| RoastStream.Stream.EncodeTerms | internal/roast/encoding/write/streams.go:11-23 | Appends an array of terms, with commas between them only. |
| RoastStream.Stream.EncodePairs | internal/roast/encoding/object.go:36-54 | Appends an array of pairs, in stored order. |
| RoastStream.Stream.EncodeValue | internal/roast/encoding/array.go:19-33 | Appends exactly the tokens of the value, whatever its kind. |
| RoastStream.Stream.EncodeComprehension | internal/roast/encoding/arraycomprehension.go:19-31 | Appends the term and the body. |
| RoastStream.Stream.EncodeObjectComprehension | internal/roast/encoding/objectcomprehension.go:19-27 | Appends key, value and body. |
| RoastStream.Stream.EncodeTemplate | internal/roast/encoding/templatestring.go:17-45 | Appends the flag, if it is set, and the parts. |
| RoastStream.Stream.EncodeParts | internal/roast/encoding/templatestring.go:31-41 | Parts that are expressions, and nothing below them, are marked as interpolated; the attachment is clear afterwards. |
| RoastStream.Stream.EncodeExpr | internal/roast/encoding/expr.go:19-65 | Appends the expression, marked as interpolated exactly if the attachment was set; nothing below it sees the attachment, which is clear afterwards. |
| RoastStream.Stream.EncodeWith | internal/roast/encoding/with.go:19-29 | Appends location, target and value. |
| RoastStream.Stream.EncodeEvery | internal/roast/encoding/every.go:19-41 | Appends location, optional key, value, domain and body. |
| RoastStream.Stream.EncodeNot | internal/roast/encoding/not.go:17-31 | Appends location, type, optional flag and body. |
| RoastStream.Stream.EncodeLogical | internal/roast/encoding/logical.go:33-57 | Appends location, type, optional flags and both operands. |
| RoastTree.OperatorTypes | internal/roast/encoding/logical.go:17-31 | The type that is written is and, or, exactly for that operator, and not exactly for a negated body. |
| RoastStream.Stream.EncodeSomeDecl | internal/roast/encoding/somedecl.go:19-25 | Appends location and symbols. |
| RoastStream.Stream.EncodeBody | internal/roast/encoding/body.go:19-21 | Appends an array of expressions, none marked as interpolated. |
| RoastTree.BodyAgrees | internal/roast/transforms/module/module.go:446-509 | For a body, the tree that is built directly is the decoded output of the codecs, member order aside, if and only if every expression that is a part of a template string has no with, negated or generated and only plain terms. |
| RoastTree.TermAgrees | internal/roast/transforms/module/module.go:98-121 | The same for a term. |
| RoastTree.ValueAgrees | internal/roast/transforms/module/module.go:127-219 | The same for a value of any kind. |
| RoastTree.PartAgrees | internal/roast/transforms/module/module.go:178-203 | The same for one part of a template string. |
| RoastTree.WithAgrees | internal/roast/transforms/module/module.go:431-444 | The same for a with modifier. |
| RoastTree.LogicalAgrees | internal/roast/transforms/module/module.go:511-529 | The same for a logical expression. |
| RoastTree.NegatedPartIsLost | internal/roast/transforms/module/module.go:186-200 | A body with a negated template part on which the two differ. |
| RoastTree.BodyToArray | internal/roast/transforms/module/module.go:446-509 | The loop that inserts member by member builds that tree. |
| RoastTree.LogicalToTerm | internal/roast/transforms/module/module.go:511-529 | So does the conversion of a logical expression. |
| RoastTree.EncodeAndDecode | internal/roast/transforms/module/module.go:11-12 | Encoding a body and decoding the tokens gives the directly built tree if and only if its template parts are plain. |
| Uri.FromPath | internal/lsp/uri/uri.go:21-57 | The scheme, a drive in the form for the client, and the parts, percent-encoded byte by byte, between slashes. |
| Uri.EscapedPart | internal/lsp/uri/uri.go:46-53 | Query-escaping a part and rewriting pluses percent-encodes all but unreserved bytes. |
| Uri.EscapedByteMeans | internal/lsp/uri/uri.go:46-53 | Letters, digits, dashes, underscores, dots, tildes and slashes stay; every other byte becomes a percent sign and its two upper-case hexadecimal digits. |
| Uri.UriMeans | internal/lsp/uri/uri.go:21-57 | The URI of an absolute path without a drive is file:// and the path, escaped byte by byte. |
| Uri.DecodingMeans | internal/lsp/uri/uri.go:60-67 | Two digits of either case after a percent sign are the byte they stand for, a plus is a space, every other byte stays, and a percent sign without two digits fails. |
| Uri.UndecodedPaths | internal/lsp/uri/uri.go:60-77 | What has no scheme stays as it is, and what cannot be decoded only loses the scheme; but for drives. |
| Uri.UnescapeEscaped | internal/lsp/uri/uri.go:60-67 | Decoding what was percent-encoded gives it back, for every byte. |
| Uri.ThereAndBack | internal/lsp/uri/uri.go:21-77 | What every path, with or without scheme, slash or drive, becomes as a URI and back, for every client. |
| Uri.AbsoluteRoundTrip | internal/lsp/uri/uri.go:21-77 | An absolute path comes back as it was if and only if it does not start with a drive letter and a colon after one or two slashes. |
| Uri.DriveLosesSlash | internal/lsp/uri/uri.go:70-73 | One such path, for every client. |
| SemanticTokens.Full | internal/lsp/semantictokens/semantictokens.go:37-78 | Decoding the data, with additions that do not wrap, gives the package, variable and import tokens, all and only these, ordered by position; so no 32-bit difference underflows. |
| SemanticTokens.Encode | internal/lsp/semantictokens/semantictokens.go:53-75 | For tokens in order, decoding gives back the very sequence. |
| SemanticTokens.EncodeToken | internal/lsp/semantictokens/semantictokens.go:55-72 | Five words from which the token can be read, given the position before it. |
| DirCleanUp.PreserveDirs | internal/io/io.go:223-236 | Exactly the preserved paths and all that is above them, the root only if it is itself preserved, although walks stop where an earlier one has been. |
| DirCleanUp.IsEmpty | internal/io/io.go:254-271 | Whether all entries of the directory are skipped. |
| DirCleanUp.SkippedIsGone | internal/io/io.go:254-277 | The entries are all skipped exactly if they are the target or already in the list, and the directory is not. |
| DirCleanUp.DirCleanUpPaths | internal/io/io.go:221-283 | A chain of directories upwards from the target, none kept, each with nothing in it but what goes before it, which cannot be extended; or the first thing that is not a directory. |
| DirCleanUp.CompleteIsUnique | internal/io/io.go:221-283 | There is only one such chain. |
| DirCleanUp.RemovalsSucceed | internal/io/io.go:221-283 | Removing the target and then the directories in order, each is empty when its turn comes. |
| DirCleanUp.PreservedStay | internal/io/io.go:223-240 | No directory found is a preserved path, nor, except for the root, above one. |
| DirCleanUp.RootFoundIffClear | internal/io/io.go:240-280 | The root is found exactly if every directory above the target has nothing in it but the way to the target, and none is kept. |
| DirCleanUp.AbovePreservedIffClear | internal/io/io.go:223-280 | A directory above a preserved path is found exactly in this case, if anything is preserved. |
| DirCleanUp.RootIsFoundAboveX | internal/io/io.go:223-240 | A disk with one file below one directory, and a preserved path that is not on it, is such a case. |
| DirCleanUp.RootStays | internal/io/io.go:223-240 | When some preserved path is above the target, the root is not found either, and the search ends. |
| DirCleanUp.RunsForeverIffStuck | internal/io/io.go:240-280 | The search is still running after any number of turns exactly if the target is the only entry of a root that is not preserved. |
| DirCleanUp.LoneFileIsStuck | internal/io/io.go:240-280 | Nothing but one file on disk, and nothing preserved, is such a case. |

## Left out

- OPA and Rego evaluation, the linter around it, and the outer lint-and-fix loop, whose end depends on the rules.
- `FixViolations` in `pkg/fixer/fixer.go`, which puts the old path back after a rename on purpose.
- Command line, reporters, web server, JSON-RPC, file walking, configuration merging and ignore patterns: input and
  output, or behaviour of libraries. Whether a file is ignored is a parameter of `LspCache.LoadConfig`, and so is how
  a text is parsed.
- Windows: separators are slashes everywhere, and paths in `DirCleanUp` are absolute.
- Machine integers, except where they matter: semantic tokens, parsed versions, numbers in pre-releases and file names.
  Other lengths, counters and positions are unbounded. `outil.Atoi` is not part of this model: its result is a
  parameter, of which only what it gives for numbers that fit 64 bits is known.
- SemverOrder.Compare: is stated for pairs on which the loop ends; `SemverOrder.LoopsForeverIffStuck` says which these are.
- SemverSort.SemverSort: requires that the valid versions can be compared pairwise, for the same reason.
- SemverSort.SortVersions: requires this, too.
- RemoveLocations.DisjointSpansAreCut: is about disjoint, non-empty spans within the text; what happens to other
  locations, which overlap or lie outside, is stated turn by turn by `RemoveLocations.RemoveOne`. That the Go slices
  share their backing array with the caller is not modelled.
- FileProvider.WriteBack: creates no directories and removes no empty ones.
- Fixer.ApplyOneFix: configuration lookup, `filepath.Abs` and the choice of a Rego version can fail in the source; they
  are part of what a fix computes here. A fix is a function of path, content and violation.
- Fixer.FinishRun: creates no directories, removes no empty ones and ignores file modes; removing directories is
  modelled on its own in `DirCleanUp`.
- DirCleanUp.DirCleanUpPaths: is stated for searches that end; `DirCleanUp.RunsForeverIffStuck` says which these are. An
  error other than meeting something that is not a directory is left out, and so are relative paths.
- LintPipeline.NoLostLint: the content of diagnostics is left out, as are failing runs; a run is what it has read. Files
  changed without a post since the last run have read them are excepted by name.
- LspCache.LoadConfig: runs alone; goroutines that change the cache meanwhile are left out.
- LspCache.Cache.UpdateParse: leaves out the store that rules are evaluated against, and errors of unknown kinds.
- TrieCache.BaseCache.Get: locking is left out, and so are references with steps that are not scalars, or numbers that are
  not integers.
- RoastStream.Stream.EncodeValue: annotations, comments, rules and heads are left out; a scalar comes with its encoded
  form, a location with its text. Terms have values. Output is a sequence of tokens: escaping inside strings and
  indentation are left out.
- RoastTree.BodyAgrees: elements of sets and objects are taken in stored key order by both encoders.
- SemanticTokens.Full: tokens at the same position may come in any order, since the sort is not stable; one order is
  modelled.
- `AppendJSON` methods, `LineContents`, longest-prefix root lookups, `concurrent.Map`, sets and single-character fixes would
  only add easy members.
- Sizes computed only to allocate memory.
