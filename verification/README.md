# Verified models of the utility algorithms of copilot-fork

This project models the algorithmic cores of `copilot-fork/src/util` and of its streaming code-block
parser in Dafny and proves what they promise.  `dafny verify dfyconfig.toml` checks all of it.

| files | what they model |
|---|---|
| `EditGraph`, `EditScript`, `DiagonalSearch`, `RecordedWalk`, `DiffChanges`, `MeetingPoints`, `LcsDiff` | the O(ND) difference algorithm of `diff.ts` |
| `CodeBlocks`, `Fences`, `TextLines`, `WholeBlocks`, `StreamingIsBatch`, `CancellingCuts`, `ExactCuts`, `CodeBlockInvariants`, `CodeBlockReports`, `CodeBlockProcessor` | the streaming parser of `codeBlockProcessor.ts` |
| `RepetitionDetector` | the detector of repeated patterns of `anomalyDetection.ts` |
| `LruSequence`, `LruCache` | the least-recently-used caches of `cache.ts` |
| `VariableLengthQuantity` | the integer encoding of `variableLengthQuantity.ts` |
| `TimeTravelScheduler`, `AsyncSchedulerProcessor`, `Interval` | the virtual-time scheduler, its driver and its repeating timer |
| `TaskQueue`, `BatchedProcessor`, `JsonFile` | the task queue, the batcher and the coalescing writer of `async.ts` and `jsonFile.ts` |
| `Lock` | the lock and the lock map of `lock.ts` |
| `Wrappers`, `Sequences` | values that may be missing; sequences without one element, and read backwards |

Objects whose methods change fields are classes, the point vectors of the difference algorithm are arrays
changed in place, the nodes of the cache are linked objects, and loops of the source are loops.  Each such
method is proved against functions on values, and the promises are proved about runs of those functions.
Asynchronous code is modelled as the steps between which other code can run: a run is any sequence of
enabled steps, so that every interleaving is covered.

## How the main proofs go

The difference algorithm searches an unbounded grid, in which positions outside the sequences never match.
`EditGraph.Dist` is the edit distance of prefixes, by the usual recurrence, and serves as the reference.
After round d a cell of a point vector holds the furthest point of its diagonal that d edits reach
(`DiagonalSearch.RoundKeepsMeaning`).  The reverse search is the forward search on reversed sequences, seen
through a mirror (`RecordedWalk.View`).  Along a diagonal the distance never decreases, so the first overlap
found is on a shortest path, and rounds without overlap raise a lower bound of the distance until the loop
bound is exhausted.  The histories are windows on the vectors of earlier rounds, in which the walk back reads
the very choices the search made; each choice is one edit, and the collected changes form a script whose cost
is the number of rounds.  Trimming rules out the distances for which the reverse walk would have nothing to
undo.

The parser is compared with a reference that reads the whole text line by line.  What is reported is recorded
character by character, each with its block, so that two ways of cutting a text can be compared.  A cut can matter
only behind a part of a line that has been reported already: what follows it is then read as a line of its own, and
is taken as text unless it is a fence that opens a block or is of the open block's kind.  Without such a cut the
result is that of one call on the whole text (`StreamingIsBatch.StreamingIsBatch`).  With one, the result differs at
the end of the call (`ExactCuts.AgreesThroughout`), and whole lines that follow do not make it agree again
(`ExactCuts.ApartForever`); two such cuts can cancel (`CancellingCuts.CutsCanCancel`).  Carriage returns are line ends
like line feeds; a cut between the two matters where the line opens or closes a block, or is dropped as a path line or
as the blank line behind one (`ExactCuts.LineEndCutIsExact`).  Every code block reported is enclosed by two fences of
one line each, so that the reports determine its code (`CodeBlockReports.BlocksAreReported`,
`CodeBlockInvariants.CodeIsDetermined`).

Where a promise one might expect does not hold, an exact condition and a concrete run say so:

| promise | exact condition | concrete run |
|---|---|---|
| chunks give what their text gives | `ExactCuts.AgreesThroughout`, `StreamingIsBatch.OneCutIsExact` | `StreamingIsBatch.CutBeforeBackticks` |
| so do the two halves of a line end | `ExactCuts.LineEndCutIsExact` | `ExactCuts.CutBehindReturn` |
| the lock is first come, first served | `Lock.FirstComeFirstServed` | `Lock.FreeWithAwakened` with `Lock.NewcomerOvertakes` |
| values put into the cache are disposed of | `LruSequence.DisposesOfAll` | `LruSequence.FirstOfTwoIsLost` |
| every request is answered | `BatchedProcessor.AllSettledOnce` | `BatchedProcessor.NoResults` |
| the driver goes on | `AsyncSchedulerProcessor.StoppedExactly` | `AsyncSchedulerProcessor.ThrowStops`, `AsyncSchedulerProcessor.LimitStops` |

## Where code and comments differ

- `diff.ts:886` says that after the loop the full trace is in the history; the code after the loop is unreachable.
- `anomalyDetection.ts:93` defines the prefix function by `beginsWith`; the code computes the longest prefix that the
  stretch ends with.
- `cache.ts:93` calls the order of the keys LRU order; the first key is the most recently used one.

## Model

| member | source | states |
|---|---|---|
| LcsDiff.LcsDiff.ComputeDiff | copilot-fork/src/util/common/diff.ts:350-371 | for all sequences shorter than 2^30 the change list is ordered, its changes are apart and in range, everything outside them pairs up equal, replacing the slices rebuilds the modified sequence, its inserted plus deleted elements equal the edit distance, and no correct change list has fewer |
| LcsDiff.LcsDiff.ComputeDiffRecursive | copilot-fork/src/util/common/diff.ts:378-471 | terminates, and gives such a shortest list for any sub-range, through trimming, a full trace or a split at a midpoint |
| LcsDiff.LcsDiff.ComputeRecursionPoint | copilot-fork/src/util/common/diff.ts:614-907 | returns the shortest change list of the range, or a midpoint that lies on a shortest path and differs from both corners; the search always overlaps inside its loop, so the code after it is never reached |
| LcsDiff.LcsDiff.WALKTRACE | copilot-fork/src/util/common/diff.ts:473-596 | from vectors and histories that record two overlapping walks, the change list of the joined path, costing the edits of both walks |
| LcsDiff.LcsDiff.WalkForward | copilot-fork/src/util/common/diff.ts:495-543 | the backward walk through the forward history collects the changes of a path from the start to the meeting point, with one edit for each round |
| LcsDiff.LcsDiff.WalkReverse | copilot-fork/src/util/common/diff.ts:545-593 | the same through the reverse history, from the meeting point to the end |
| LcsDiff.LcsDiff.ForwardStep | copilot-fork/src/util/common/diff.ts:698-724 | one step on a diagonal reads only cells of the previous round, never leaves the int32 range, and lands where the furthest neighbour plus its equal pairs lead |
| LcsDiff.LcsDiff.ReverseStep | copilot-fork/src/util/common/diff.ts:788-814 | the mirrored step, on reversed sequences |
| LcsDiff.LcsDiff.ForwardRound | copilot-fork/src/util/common/diff.ts:697-772 | a whole forward round rewrites exactly its own diagonals; it ends with the first diagonal, in the order checked, that shows an overlap, or none of the diagonals it checks does |
| LcsDiff.LcsDiff.ReverseRound | copilot-fork/src/util/common/diff.ts:787-856 | the same for a reverse round |
| LcsDiff.LcsDiff.FinishForward | copilot-fork/src/util/common/diff.ts:735-770 | on a forward overlap the answer is the trace if and only if the overlap is a true one and all rounds are recorded, otherwise the midpoint, and is correct either way |
| LcsDiff.LcsDiff.FinishReverse | copilot-fork/src/util/common/diff.ts:819-854 | the same for a reverse overlap |
| LcsDiff.LcsDiff.SaveRound | copilot-fork/src/util/common/diff.ts:858-883 | what is pushed onto the histories are the round's cells behind the position of the base diagonal |
| LcsDiff.LcsDiff.ConcatenateChanges | copilot-fork/src/util/common/diff.ts:916-939 | valid lists of two adjacent ranges give a valid list of the joined range with the same total count |
| LcsDiff.LcsDiff.ChangesOverlap | copilot-fork/src/util/common/diff.ts:949-981 | two changes fuse if and only if they touch in one of the sequences; the fused change starts with the left one and reaches as far as the right one in each sequence in which they touch |
| LcsDiff.LcsDiff.RestIsOneChange | copilot-fork/src/util/common/diff.ts:404-439 | an empty remainder is one insertion, one deletion or nothing, at the price of its length |
| LcsDiff.LcsDiff.TrimStart | copilot-fork/src/util/common/diff.ts:384-392 | dropping an equal first pair keeps the distance |
| LcsDiff.LcsDiff.TrimEnd | copilot-fork/src/util/common/diff.ts:394-402 | dropping an equal last pair keeps the distance |
| LcsDiff.LcsDiff.Halves | copilot-fork/src/util/common/diff.ts:461-467 | a midpoint differs from both corners of the range, so that each half leaves something out, and the distances of the halves add up to that of the range |
| LcsDiff.LcsDiff.SearchEnds | copilot-fork/src/util/common/diff.ts:680-680 | by the loop bound the distance would exceed the number of elements |
| LcsDiff.LcsDiff.AfterForwardRound | copilot-fork/src/util/common/diff.ts:697-772 | a forward round without overlap extends what the search knows, and on odd delta raises the lower bound of the distance |
| LcsDiff.LcsDiff.AfterReverseRound | copilot-fork/src/util/common/diff.ts:787-856 | a reverse round without overlap does the same on even delta |
| LcsDiff.LcsDiff.StoreFits | copilot-fork/src/util/common/diff.ts:724-724 | stored indices are exact in an Int32Array |
| EditGraph.Overlap | copilot-fork/src/util/common/diff.ts:735-771 | an overlap of two furthest reaching points proves the distance to be at most the two rounds' edits |
| EditGraph.MiddlePoint | copilot-fork/src/util/common/diff.ts:598-603 | a shortest path passes a point with any given number of edits before it |
| EditGraph.TrimmedDistance | copilot-fork/src/util/common/diff.ts:384-402 | after trimming the distance is at least two, which is why the reverse walk always has an edit to undo |
| EditGraph.SplitDistance | copilot-fork/src/util/common/diff.ts:461-469 | cutting both sequences at a point gives two parts with the distances of that point from the start and from the end |
| EditGraph.DistanceReversed | copilot-fork/src/util/common/diff.ts:787-816 | the distance seen from the end is the distance |
| EditGraph.DistNeighbours | copilot-fork/src/util/common/diff.ts:698-708 | stepping right or down changes the distance by at most one |
| EditGraph.DistDiagonals | copilot-fork/src/util/common/diff.ts:698-708 | along a diagonal the distance never decreases |
| EditScript.ScriptRebuilds | copilot-fork/src/util/common/diff.ts:46-58 | a script's changes rebuild the modified sequence from the original one |
| EditScript.CorrectCostsDistance | copilot-fork/src/util/common/diff.ts:350-357 | every correct change list, even with touching or empty changes, costs at least the distance |
| EditScript.ScriptJoin | copilot-fork/src/util/common/diff.ts:933-937 | two scripts of adjacent ranges that end and begin apart join |
| EditScript.ScriptFuse | copilot-fork/src/util/common/diff.ts:921-931 | and when they touch, the fused change takes the place of the two |
| EditScript.InnerGap | copilot-fork/src/util/common/diff.ts:959-974 | between two changes the unchanged gaps in both sequences are equally long |
| DiagonalSearch.ClipIsNearest | copilot-fork/src/util/common/diff.ts:995-1019 | a clipped bound has the parity of the round and is the nearest such diagonal in range |
| DiagonalSearch.ClipIsBound | copilot-fork/src/util/common/diff.ts:685-696 | the two clipped bounds of a round are its first and last cell |
| DiagonalSearch.NeighboursWritten | copilot-fork/src/util/common/diff.ts:701-708 | every neighbour cell a step reads is in range and was written in the round before |
| DiagonalSearch.RoundKeepsMeaning | copilot-fork/src/util/common/diff.ts:697-725 | after round d each cell holds a point reached with d edits, and no point with d edits lies further on its diagonal |
| DiagonalSearch.StepFurthest | copilot-fork/src/util/common/diff.ts:698-724 | the step takes the furthest of all ways into its diagonal |
| DiagonalSearch.SearchesMeet | copilot-fork/src/util/common/diff.ts:680-856 | when the distance is the sum of the two rounds, some checked diagonal overlaps |
| DiagonalSearch.MeetingPoint | copilot-fork/src/util/common/diff.ts:735-738 | an overlap at the least sum of rounds is a point of a shortest path |
| RecordedWalk.HistoryWalks | copilot-fork/src/util/common/diff.ts:533-539 | reading the stored windows walks back through the rounds to the start |
| RecordedWalk.ReadsStep | copilot-fork/src/util/common/diff.ts:507-531 | the choice read from a window is the one the search made |
| RecordedWalk.EditFromStart | copilot-fork/src/util/common/diff.ts:859-871 | the first round's edit begins at the start |
| RecordedWalk.EditsConnect | copilot-fork/src/util/common/diff.ts:507-531 | consecutive edits of the walk are joined by equal pairs |
| RecordedWalk.WindowFromHistory | copilot-fork/src/util/common/diff.ts:533-538 | a history entry, indexed from its stored base, holds the cells of its round |
| MeetingPoints.ForwardMeetingWalks | copilot-fork/src/util/common/diff.ts:740-764 | at a true forward overlap both histories walk to the meeting point |
| MeetingPoints.ReverseMeetingWalks | copilot-fork/src/util/common/diff.ts:824-848 | the same at a true reverse overlap |
| MeetingPoints.EntryIsRecorded | copilot-fork/src/util/common/diff.ts:859-882 | the entry pushed for a round records it |
| MeetingPoints.NoForwardMeeting | copilot-fork/src/util/common/diff.ts:735-771 | no overlap on odd delta means a larger distance |
| MeetingPoints.NoReverseMeeting | copilot-fork/src/util/common/diff.ts:819-855 | no overlap on even delta means a larger distance |
| DiffChanges.DiffChangeHelper.MarkNextChange | copilot-fork/src/util/common/diff.ts:215-229 | adds the collected change if there is one and starts afresh |
| DiffChanges.DiffChangeHelper.AddOriginalElement | copilot-fork/src/util/common/diff.ts:238-244 | a deleted element joins the current change, at the smallest indices seen |
| DiffChanges.DiffChangeHelper.AddModifiedElement | copilot-fork/src/util/common/diff.ts:253-259 | an inserted element does the same |
| DiffChanges.DiffChangeHelper.GetReverseChanges | copilot-fork/src/util/common/diff.ts:276-284 | all changes, in reverse order of their marking |
| DiffChanges.CollectBackward | copilot-fork/src/util/common/diff.ts:503-543 | marking a new change exactly when the next edit does not touch keeps the collected list a script, edit by edit, backwards |
| DiffChanges.CollectForward | copilot-fork/src/util/common/diff.ts:553-593 | the same for edits in forward order |
| ExactCuts.AgreesThroughout | copilot-fork/src/extension/codeBlocks/node/codeBlockProcessor.ts:170-203 | a stream whose cuts part no line end agrees after each of its chunks, flushed, with one call on the text so far if and only if at each of them the line read behind a part reported early is taken as text: it is no fence or, in a block, a fence of another kind |
| ExactCuts.ApartForever | copilot-fork/src/extension/codeBlocks/node/codeBlockProcessor.ts:237-312 | once a fence has been read where the other machine added text, no further lines make the two agree again |
| ExactCuts.ReadingBreaks | copilot-fork/src/extension/codeBlocks/node/codeBlockProcessor.ts:176-203 | a line read behind a reported part that is not taken as text leaves the flushed stream different from the reference, whatever else the chunk holds |
| ExactCuts.CutLineEnd | copilot-fork/src/extension/codeBlocks/node/codeBlockProcessor.ts:237-312 | in every state a cut between a carriage return and its line feed changes the result, before and after a flush, if and only if the line opens or closes a block, or is dropped as a path line or as the blank line behind one, with or without its line feed |
| ExactCuts.LineEndCutIsExact | copilot-fork/src/extension/codeBlocks/node/codeBlockProcessor.ts:170-203 | after any chunks such a cut changes the flushed result if and only if it does that and no part of the line has just been reported |
| ExactCuts.CutBehindReturn | copilot-fork/src/extension/codeBlocks/node/codeBlockProcessor.ts:176-176 | such a cut: inside the line end of an opening fence |
| StreamingIsBatch.StreamingIsBatch | copilot-fork/src/extension/codeBlocks/node/codeBlockProcessor.ts:170-203 | if no cut parts a line end or does harm, any chunking and one flush give the reports, code blocks and state of one call on the whole text; a cut does harm only where a part of the line has been reported, the next chunk does not complete the line, and what follows the cut is a fence that is not taken as text |
| StreamingIsBatch.StreamingIsReference | copilot-fork/src/extension/codeBlocks/node/codeBlockProcessor.ts:170-322 | and both are what reading the text line by line gives |
| StreamingIsBatch.SafeStreamingIsBatch | copilot-fork/src/extension/codeBlocks/node/codeBlockProcessor.ts:170-203 | the same under a condition on the text and its cuts alone, whatever the state |
| StreamingIsBatch.OneCutIsExact | copilot-fork/src/extension/codeBlocks/node/codeBlockProcessor.ts:196-203 | after any text, cutting off the rest of a line changes the result if and only if the cut does harm |
| StreamingIsBatch.CutBeforeBackticks | copilot-fork/src/extension/codeBlocks/node/codeBlockProcessor.ts:196-203 | such a cut: behind the first letter of a line, before three backticks |
| CancellingCuts.CutsCanCancel | copilot-fork/src/extension/codeBlocks/node/codeBlockProcessor.ts:170-203 | two harmful cuts can undo each other: if one makes the processor open a nested block and the next one close it, the flushed stream is that of one call on the text |
| StreamingIsBatch.FencesCanCancel | copilot-fork/src/extension/codeBlocks/node/codeBlockProcessor.ts:280-284 | for the machine: a line that opens a nested block and one that closes it leave what adding both as text leaves |
| CancellingCuts.BackticksCancel | copilot-fork/src/extension/codeBlocks/node/codeBlockProcessor.ts:280-284 | two such cuts, for every config |
| StreamingIsBatch.RestAsLine | copilot-fork/src/extension/codeBlocks/node/codeBlockProcessor.ts:260-309 | reading the rest of a line as a line of its own is harmless if and only if it is no fence or, in a block, a fence of another kind |
| StreamingIsBatch.FenceStart | copilot-fork/src/extension/codeBlocks/node/codeBlockProcessor.ts:354-366 | what might be a fence and has three characters is one |
| Fences.FenceIsSpelled | copilot-fork/src/extension/codeBlocks/node/codeBlockProcessor.ts:116-116 | a line is matched as a fence with a run and a language if and only if it begins with this whole run of three or more backticks, or of as many tildes, and then with this whole word of letters, digits and underscores |
| Fences.NoFenceIsSpelled | copilot-fork/src/extension/codeBlocks/node/codeBlockProcessor.ts:116-116 | it is matched as none if and only if it does not begin with three equal backticks or tildes |
| Fences.MightBecomeFence | copilot-fork/src/extension/codeBlocks/node/codeBlockProcessor.ts:354-366 | a line might be a fence if and only if more text can make it one |
| Fences.TextIsReportedAtOnce | copilot-fork/src/extension/codeBlocks/node/codeBlockProcessor.ts:196-210 | for every chunking, what is ordinary text and can be nothing else has been reported when a call ends |
| WholeBlocks.BlockIsReported | copilot-fork/src/extension/codeBlocks/node/codeBlockProcessor.ts:226-312 | an opening fence, lines that leave the block open, and a closing fence are reported as one block: its code is the lines but for a path line right behind the opening fence and a blank line right behind that, its language the word of the fence, its resource the URI given or else that of the path, and all its text is reported under its number, language and resource |
| WholeBlocks.UriIsReported | copilot-fork/src/extension/codeBlocks/node/codeBlockProcessor.ts:226-230 | a URI given inside a block without a resource is the one the block is reported with, and it does not replace a known one |
| WholeBlocks.UriIsIgnored | copilot-fork/src/extension/codeBlocks/node/codeBlockProcessor.ts:226-230 | outside all blocks, and for a known resource, it changes nothing |
| WholeBlocks.FlushOfNothing | copilot-fork/src/extension/codeBlocks/node/codeBlockProcessor.ts:314-322 | where nothing is held back a flush changes nothing, also in the middle of a line |
| WholeBlocks.FlushTwice | copilot-fork/src/extension/codeBlocks/node/codeBlockProcessor.ts:314-322 | a second flush reports the opening fence once more if one still waits for its next line, and otherwise changes nothing |
| StreamingIsBatch.ChunkStands | copilot-fork/src/extension/codeBlocks/node/codeBlockProcessor.ts:170-203 | after each call the state is that of the complete lines plus the reported part of the current one |
| StreamingIsBatch.FlushIsReference | copilot-fork/src/extension/codeBlocks/node/codeBlockProcessor.ts:314-322 | the flush completes the held line and the held fence |
| TextLines.SplitFullLines | copilot-fork/src/extension/codeBlocks/node/codeBlockProcessor.ts:176-187 | splitting finds exactly the full lines, whatever their line ends, and the rest |
| TextLines.LinesOf | copilot-fork/src/extension/codeBlocks/node/codeBlockProcessor.ts:176-187 | every text consists of full lines and an unbroken rest |
| CodeBlockReports.ReportsAreInput | copilot-fork/src/extension/codeBlocks/node/codeBlockProcessor.ts:170-322 | for every chunking with a final flush, the stream runs the pieces its calls take the input apart into: whole lines and parts of lines, of which a line follows a part only at a fence character; what is reported is the input without path lines right behind an opening fence and blank lines right behind those |
| CodeBlockReports.ReportsAreLines | copilot-fork/src/extension/codeBlocks/node/codeBlockProcessor.ts:170-322 | if no cut parts a line end or does harm, what is reported is the lines of the text without path lines right behind an opening fence and blank lines right behind those |
| CodeBlockReports.BlocksAreReported | copilot-fork/src/extension/codeBlocks/node/codeBlockProcessor.ts:237-322 | for every chunking, each closed block's reports are its opening fence, one full line, the reported code, and a closing fence of the same kind, one line; blocks are numbered in order; a block is open exactly outside the state OutsideCodeBlock, at nesting level 1 or more |
| CodeBlockInvariants.CodeIsDetermined | copilot-fork/src/extension/codeBlocks/node/codeBlockProcessor.ts:285-294 | the reports leave no choice what the code is, in texts with line feeds only and code that ends a line |
| CodeBlockReports.RunConserves | copilot-fork/src/extension/codeBlocks/node/codeBlockProcessor.ts:212-312 | every run of lines and line parts keeps the invariant and drops nothing else |
| CodeBlockReports.CallIsRun | copilot-fork/src/extension/codeBlocks/node/codeBlockProcessor.ts:170-203 | a call runs its pieces; they are what was held and its text, except what it holds back |
| CodeBlockReports.CallFits | copilot-fork/src/extension/codeBlocks/node/codeBlockProcessor.ts:176-203 | the pieces of a call continue those before: at the start of a line, or behind a part reported early |
| CodeBlockReports.LinesOfTextText | copilot-fork/src/extension/codeBlocks/node/codeBlockProcessor.ts:176-176 | splitting loses no character |
| CodeBlockInvariants.LineKeepsInvariant | copilot-fork/src/extension/codeBlocks/node/codeBlockProcessor.ts:237-312 | every line keeps fields and reports in agreement |
| CodeBlockInvariants.CloseIsFenced | copilot-fork/src/extension/codeBlocks/node/codeBlockProcessor.ts:285-294 | closing leaves a block whose reports are its two fences, a line each, around its code |
| CodeBlockInvariants.LineIsFenced | copilot-fork/src/extension/codeBlocks/node/codeBlockProcessor.ts:237-312 | every line leaves all closed blocks between fences of a line each |
| CodeBlockReports.RunIsFenced | copilot-fork/src/extension/codeBlocks/node/codeBlockProcessor.ts:212-312 | so does every run of full lines and parts of lines |
| CodeBlockInvariants.BlockEndsAtMatchingFence | copilot-fork/src/extension/codeBlocks/node/codeBlockProcessor.ts:280-294 | a block ends with the first line that brings the count of nested fences of its kind to zero, and its reported code is every line before, nested fences included |
| CodeBlockInvariants.LinesInside | copilot-fork/src/extension/codeBlocks/node/codeBlockProcessor.ts:280-312 | until then the same block stays open |
| CodeBlockInvariants.FlushSettles | copilot-fork/src/extension/codeBlocks/node/codeBlockProcessor.ts:314-322 | after the flush the open block's reports include its opening fence |
| CodeBlockProcessor.CodeBlockProcessor.ProcessMarkdown | copilot-fork/src/extension/codeBlocks/node/codeBlockProcessor.ts:170-203 | the fields after the call are those of the line machine, and keep the invariant |
| CodeBlockProcessor.CodeBlockProcessor.ProcessLine | copilot-fork/src/extension/codeBlocks/node/codeBlockProcessor.ts:237-312 | the same for one line |
| CodeBlockProcessor.CodeBlockProcessor.ProcessLineContent | copilot-fork/src/extension/codeBlocks/node/codeBlockProcessor.ts:260-312 | the same for the part that looks at fences |
| CodeBlockProcessor.CodeBlockProcessor.ProcessLinePart | copilot-fork/src/extension/codeBlocks/node/codeBlockProcessor.ts:212-220 | the same for a part of a line |
| CodeBlockProcessor.CodeBlockProcessor.Flush | copilot-fork/src/extension/codeBlocks/node/codeBlockProcessor.ts:314-322 | the same for the final flush |
| CodeBlockProcessor.CodeBlockProcessor.ProcessCodeblockUri | copilot-fork/src/extension/codeBlocks/node/codeBlockProcessor.ts:226-230 | a known URI is kept |
| RepetitionDetector.IsRepetitive | copilot-fork/src/util/common/anomalyDetection.ts:14-68 | true if and only if, for the tokens or the tokens without blanks, the last 10 are one token over and over, or the last 30 repeat a pattern of at most 10, the last 45 of at most 20, the last 60 of at most 30, or the last 120 of at most 60 |
| RepetitionDetector.IsRepeatedPattern | copilot-fork/src/util/common/anomalyDetection.ts:14-89 | the same for the first elements |
| RepetitionDetector.KmpPrefixFunction | copilot-fork/src/util/common/anomalyDetection.ts:91-113 | every value is the longest proper border of its prefix, counted from -1, and the two loops take at most two rounds for each element |
| RepetitionDetector.NextBorder | copilot-fork/src/util/common/anomalyDetection.ts:103-105 | falling back to the border of the border misses no candidate |
| RepetitionDetector.PatternLengthIsLeastPeriod | copilot-fork/src/util/common/anomalyDetection.ts:80-83 | the pattern length computed from the prefix function is the least period of the stretch |
| RepetitionDetector.PeriodIsPattern | copilot-fork/src/util/common/anomalyDetection.ts:80-82 | a period is the length of a pattern that, repeated and cut short, makes up the stretch |
| RepetitionDetector.StartOfReversed | copilot-fork/src/util/common/anomalyDetection.ts:62-63 | a pattern at the start of the reversed tokens is one at their end |
| RepetitionDetector.WithoutBlanksReversed | copilot-fork/src/util/common/anomalyDetection.ts:66-66 | filtering and reversing commute |
| RepetitionDetector.WithoutBlanksIs | copilot-fork/src/util/common/anomalyDetection.ts:66-66 | the tokens without blanks are all that are not blank, in their order |
| LruCache.LRUCache.Get | copilot-fork/src/util/common/cache.ts:84-91 | the value of the key, whose node becomes the first; both link directions and the map still agree with the list |
| LruCache.LRUCache.Put | copilot-fork/src/util/common/cache.ts:120-136 | the entry becomes the first with its new value; a new key in a full cache evicts exactly the last entry and returns it |
| LruCache.LRUCache.PutNew | copilot-fork/src/util/common/cache.ts:125-135 | the branch for a new key |
| LruCache.LRUCache.EvictTail | copilot-fork/src/util/common/cache.ts:131-134 | takes the last node out of list and map |
| LruCache.LRUCache.DeleteKey | copilot-fork/src/util/common/cache.ts:74-82 | the entry is gone, the order of the others is unchanged, and its value is returned |
| LruCache.LRUCache.Clear | copilot-fork/src/util/common/cache.ts:63-67 | nothing is left |
| LruCache.LRUCache.Keys | copilot-fork/src/util/common/cache.ts:99-107 | the keys in order of recency |
| LruCache.LRUCache.GetValues | copilot-fork/src/util/common/cache.ts:109-117 | the values in order of recency |
| LruCache.LRUCache.Create | copilot-fork/src/util/common/cache.ts:26-36 | a size below one is an error, any other gives an empty cache of that capacity |
| LruCache.LRUCache.AddNode | copilot-fork/src/util/common/cache.ts:38-43 | relinking puts the node first |
| LruCache.LRUCache.RemoveNode | copilot-fork/src/util/common/cache.ts:45-50 | relinking takes out exactly this node |
| LruCache.LRUCache.MoveToHead | copilot-fork/src/util/common/cache.ts:52-55 | moves one node and keeps the order of the others |
| LruCache.LRUCache.PopTail | copilot-fork/src/util/common/cache.ts:57-61 | takes out the last node |
| LruCache.MappedWithout | copilot-fork/src/util/common/cache.ts:79-80 | taking a node out of the list and its key out of the map keeps both in agreement |
| LruCache.DisposablesLRUCache.Put | copilot-fork/src/util/common/cache.ts:177-182 | disposes of an evicted value |
| LruCache.DisposablesLRUCache.DeleteKey | copilot-fork/src/util/common/cache.ts:158-163 | disposes of a deleted value |
| LruCache.DisposablesLRUCache.Clear | copilot-fork/src/util/common/cache.ts:150-156 | disposes of all held values |
| LruSequence.RunKeepsDistinct | copilot-fork/src/util/common/cache.ts:20-137 | over every run keys stay distinct and the size within capacity |
| LruSequence.LeastRecentIsLast | copilot-fork/src/util/common/cache.ts:120-136 | over every run the entries stand in the order of their last use, so the evicted one is the least recently used |
| LruSequence.ValueIsLatest | copilot-fork/src/util/common/cache.ts:84-91 | over every run an entry holds the value last put for its key, which has not been removed since |
| LruSequence.LookupIsLatest | copilot-fork/src/util/common/cache.ts:84-91 | looking a key up finds a value if and only if the key is held, and then the one last put |
| LruSequence.StaysWhileRecent | copilot-fork/src/util/common/cache.ts:120-136 | an entry just used stays until it is removed or as many other keys as the capacity have been used |
| LruSequence.ValuesAreAccountedFor | copilot-fork/src/util/common/cache.ts:139-183 | every value put is held, was disposed of once, or was overwritten |
| LruSequence.DisposesOfAll | copilot-fork/src/util/common/cache.ts:139-183 | disposing of the whole cache at the end has disposed of each value as often as it was put if and only if no put found its key in the cache |
| LruSequence.FirstOfTwoIsLost | copilot-fork/src/util/common/cache.ts:139-183 | such a put: of two values put for one key, the first is never disposed of |
| VariableLengthQuantity.WrittenIsRead | copilot-fork/src/util/common/variableLengthQuantity.ts:9-40 | every int32 is written in one to five bytes, and reading at their place in any buffer gives the number and their count |
| VariableLengthQuantity.WrittenLowBitsFirst | copilot-fork/src/util/common/variableLengthQuantity.ts:24-40 | what is written is the two's complement pattern, seven bits a byte, the lowest first, the high bit on all bytes but the last, in as few bytes as hold it |
| VariableLengthQuantity.ReadLowBitsFirst | copilot-fork/src/util/common/variableLengthQuantity.ts:9-21 | what is read from any one to five bytes, also where fewer would have done, is their groups of seven bits, cut off to 32 bits and taken as a signed integer |
| VariableLengthQuantity.SixthByteWraps | copilot-fork/src/util/common/variableLengthQuantity.ts:16-16 | beyond the fifth byte shifts start again |
| VariableLengthQuantity.WrittenAreRead | copilot-fork/src/util/common/variableLengthQuantity.ts:9-40 | a list written one number behind the other is read back, and reading ends where the bytes end |
| VariableLengthQuantity.EncodedSize | copilot-fork/src/util/common/variableLengthQuantity.ts:28-37 | the number of bytes, exactly |
| VariableLengthQuantity.AccumulateAdds | copilot-fork/src/util/common/variableLengthQuantity.ts:16-16 | masking, shifting and or-ing the next byte adds its seven bits behind the ones read |
| VariableLengthQuantity.ReadVariableLengthQuantity | copilot-fork/src/util/common/variableLengthQuantity.ts:9-21 | stops at the first byte without a continuation bit, and beyond the buffer |
| VariableLengthQuantity.WriteVariableLengthQuantity | copilot-fork/src/util/common/variableLengthQuantity.ts:24-40 | rejects what is no int32, and writes the others |
| TimeTravelScheduler.RunKeeps | copilot-fork/src/util/common/timeTravelScheduler.ts:40-78 | over every run, with tasks scheduling and disposing of others, tasks run in strictly increasing order of time, and of number where times are equal, each at most once, and the clock never goes back |
| TimeTravelScheduler.RunNextTakesLeast | copilot-fork/src/util/common/timeTravelScheduler.ts:70-82 | the next task is the pending one with the least time, among equals the one scheduled first, and the clock goes to its time |
| TimeTravelScheduler.NothingIsLost | copilot-fork/src/util/common/timeTravelScheduler.ts:48-82 | in every run each task taken is pending, has been executed or has been disposed of while pending, exactly one of the three and once |
| TimeTravelScheduler.DisposedNeverRuns | copilot-fork/src/util/common/timeTravelScheduler.ts:55-55 | a task disposed of before its turn never runs |
| TimeTravelScheduler.AddKeeps | copilot-fork/src/util/common/timeTravelScheduler.ts:48-56 | scheduling keeps every pending task behind every executed one |
| TimeTravelScheduler.RemoveSorted | copilot-fork/src/util/common/timeTravelScheduler.ts:358-364 | removing from the unsorted items removes from the sorted ones |
| TimeTravelScheduler.OrderedUnique | copilot-fork/src/util/common/timeTravelScheduler.ts:35-38 | the comparator leaves only one order |
| TimeTravelScheduler.SortedIs | copilot-fork/src/util/common/timeTravelScheduler.ts:381-386 | sorting gives an ordered list of the same tasks |
| TimeTravelScheduler.SimplePriorityQueue.Add | copilot-fork/src/util/common/timeTravelScheduler.ts:353-356 | the late-sorted queue takes the value as an always-sorted one would |
| TimeTravelScheduler.SimplePriorityQueue.Remove | copilot-fork/src/util/common/timeTravelScheduler.ts:358-364 | the same for removing |
| TimeTravelScheduler.SimplePriorityQueue.RemoveMin | copilot-fork/src/util/common/timeTravelScheduler.ts:366-369 | the least task, as of an always-sorted queue |
| TimeTravelScheduler.SimplePriorityQueue.EnsureSorted | copilot-fork/src/util/common/timeTravelScheduler.ts:381-386 | sorting changes nothing that can be seen |
| TimeTravelScheduler.TimeTravelScheduler.Schedule | copilot-fork/src/util/common/timeTravelScheduler.ts:48-56 | a time in the past is an error that changes nothing; otherwise the task is pending under the next number |
| TimeTravelScheduler.TimeTravelScheduler.RunNext | copilot-fork/src/util/common/timeTravelScheduler.ts:70-78 | takes the least pending task and sets the clock to its time |
| AsyncSchedulerProcessor.ProcessingMeansOutstanding | copilot-fork/src/util/common/timeTravelScheduler.ts:97-148 | from an empty scheduler, while no body has thrown and none has returned with the history at the limit and tasks pending: between callbacks the driver is processing exactly when one callback is outstanding, and none outstanding means no task left |
| AsyncSchedulerProcessor.StoppedForever | copilot-fork/src/util/common/timeTravelScheduler.ts:132-139 | after a body has thrown, or has returned with the history at the limit and tasks pending, no task runs any more, whatever is scheduled |
| AsyncSchedulerProcessor.StoppedExactly | copilot-fork/src/util/common/timeTravelScheduler.ts:127-148 | the driver has stopped if and only if one of these has happened |
| AsyncSchedulerProcessor.HistoryIsReturned | copilot-fork/src/util/common/timeTravelScheduler.ts:127-136 | the history is exactly the tasks whose bodies have returned, also after the driver has stopped |
| AsyncSchedulerProcessor.AsksOnlyForTaken | copilot-fork/src/util/common/timeTravelScheduler.ts:102-115 | a rejected task leaves the driver as it is, and a callback is asked for only at rest |
| AsyncSchedulerProcessor.ThrowStops | copilot-fork/src/util/common/timeTravelScheduler.ts:127-148 | such a run: one task, whose body throws |
| AsyncSchedulerProcessor.LimitStops | copilot-fork/src/util/common/timeTravelScheduler.ts:132-139 | such a run: two tasks and a limit of one, which leaves a task pending |
| AsyncSchedulerProcessor.DrainsWithinLimit | copilot-fork/src/util/common/timeTravelScheduler.ts:127-148 | without new tasks all pending ones run in order if and only if the limit leaves room for them |
| AsyncSchedulerProcessor.StepIsConsistent | copilot-fork/src/util/common/timeTravelScheduler.ts:97-148 | what every step keeps |
| AsyncSchedulerProcessor.AsyncSchedulerProcessor.Schedule | copilot-fork/src/util/common/timeTravelScheduler.ts:102-109 | a task scheduled at rest asks for a callback, one during processing does not |
| AsyncSchedulerProcessor.AsyncSchedulerProcessor.ProcessEnd | copilot-fork/src/util/common/timeTravelScheduler.ts:130-147 | after a task: the limit error, the next callback, or rest |
| AsyncSchedulerProcessor.AsyncSchedulerProcessor.ProcessStart | copilot-fork/src/util/common/timeTravelScheduler.ts:127-128 | a callback runs the next task |
| Interval.IntervalTicks | copilot-fork/src/util/common/timeTravelScheduler.ts:224-265 | whatever else is scheduled or disposed of, the handler is called at the scheduler's time of the call to setInterval plus exact multiples of the interval, the next call stands ready and is not overdue, and from the first disposal of the timer on it is not called again |
| Interval.TimerTicks | copilot-fork/src/util/common/timeTravelScheduler.ts:224-265 | in every run the timer keeps its start and its interval and is disposed of by that event alone |
| Interval.SilentOnceDisposed | copilot-fork/src/util/common/timeTravelScheduler.ts:256-264 | the calls are those before the first disposal |
| Interval.SetIntervalTicks | copilot-fork/src/util/common/timeTravelScheduler.ts:251-251 | the first task stands one interval ahead |
| TaskQueue.RunKeeps | copilot-fork/src/util/common/async.ts:14-87 | in every run at most one task runs, tasks start in the order they were scheduled, pending work means a running task, every deferred is settled once and fitly and stays so, and the bug-indicating branch is not taken |
| TaskQueue.OutcomesAreTheirOwn | copilot-fork/src/util/common/async.ts:22-86 | in every run a task is completed if and only if it has returned, failed if and only if it has thrown, and resolved or cancelled if and only if the queue was cleared while it was waiting, by what the call that scheduled it asked for |
| TaskQueue.StepSettles | copilot-fork/src/util/common/async.ts:60-86 | what each event settles, and nothing else |
| TaskQueue.FinishesDrain | copilot-fork/src/util/common/async.ts:46-70 | without new calls as many finishes as there are tasks start all of them in order and settle everything |
| TaskQueue.ScheduleKeeps | copilot-fork/src/util/common/async.ts:22-44 | scheduling keeps the invariant |
| TaskQueue.FinishKeeps | copilot-fork/src/util/common/async.ts:60-69 | so does the end of a task, which starts the next |
| TaskQueue.ClearKeeps | copilot-fork/src/util/common/async.ts:76-86 | so does clearing, which settles exactly the pending tasks |
| TaskQueue.TaskQueue.ScheduleSkipIfCleared | copilot-fork/src/util/common/async.ts:33-38 | the fields after the call are those of the step |
| TaskQueue.TaskQueue.ProcessQueue | copilot-fork/src/util/common/async.ts:46-63 | shifts the first pending task and starts it, or indicates a bug if one is running |
| TaskQueue.TaskQueue.FinishTask | copilot-fork/src/util/common/async.ts:60-69 | settles the finished task and starts the next |
| TaskQueue.TaskQueue.ClearPending | copilot-fork/src/util/common/async.ts:76-86 | settles the pending tasks one by one |
| BatchedProcessor.AllSettledOnce | copilot-fork/src/util/common/async.ts:89-129 | when nothing waits and no call is under way, every promise is settled exactly once if and only if no call returned fewer results than it had arguments |
| BatchedProcessor.OrphansExactly | copilot-fork/src/util/common/async.ts:125-127 | a run leaves promises to nobody if and only if one of its calls returns fewer results than it had arguments |
| BatchedProcessor.NoResults | copilot-fork/src/util/common/async.ts:125-127 | a run with such a call: the promise is never settled |
| BatchedProcessor.RunKeeps | copilot-fork/src/util/common/async.ts:98-128 | in every run each promise is queued, under way, settled or orphaned, once; a timer runs exactly when requests wait |
| BatchedProcessor.CallsInOrder | copilot-fork/src/util/common/async.ts:98-115 | in every run a call is made with requests that came one after the other, in this order |
| BatchedProcessor.OverrunExactly | copilot-fork/src/util/common/async.ts:125-127 | the error for a missing entry comes if and only if some call returns more results than it had arguments |
| BatchedProcessor.AnswersReachTheirRequests | copilot-fork/src/util/common/async.ts:108-128 | in every run a promise has been settled with an answer if and only if some call gave it: the result at the position of the promise's own argument, or the failure of the call |
| BatchedProcessor.AnswersKeep | copilot-fork/src/util/common/async.ts:115-127 | handing out answers keeps every promise queued, under way, settled or orphaned, once |
| BatchedProcessor.BatchedProcessor.Request | copilot-fork/src/util/common/async.ts:98-106 | the first request of a batch starts the timer |
| BatchedProcessor.BatchedProcessor.Return | copilot-fork/src/util/common/async.ts:125-127 | each result settles the promise of its own argument; results beyond the batch are an error |
| BatchedProcessor.BatchedProcessor.Throw | copilot-fork/src/util/common/async.ts:118-123 | all promises of the batch fail |
| JsonFile.LatestIsWritten | copilot-fork/src/util/node/jsonFile.ts:38-46 | in every interleaving the disk holds what the write that last succeeded wrote, the value it was asked for; once the queue is idle the last write took the latest value, and it is on disk if and only if the last write to end has succeeded; at most one write waits |
| JsonFile.SupersededByLater | copilot-fork/src/util/node/jsonFile.ts:38-42 | a call of setValue that ends without its own write was superseded by a later one |
| JsonFile.RunIsConsistent | copilot-fork/src/util/node/jsonFile.ts:38-46 | every write takes exactly the value it was asked for |
| JsonFile.SetValueKeeps | copilot-fork/src/util/node/jsonFile.ts:38-42 | clearing before scheduling leaves the latest value as the only waiting one |
| JsonFile.JSONFile.SetValue | copilot-fork/src/util/node/jsonFile.ts:38-42 | the fields after the call are those of the step |
| JsonFile.JSONFile.WriteEnded | copilot-fork/src/util/node/jsonFile.ts:44-46 | the same for the end of a write |
| Lock.OneBodyPerKey | copilot-fork/src/util/common/lock.ts:54-70 | in every run of any number of clients at most one body runs for a key |
| Lock.EverybodyIsServed | copilot-fork/src/util/common/lock.ts:21-47 | without new clients every run is finite and can end only when nobody waits, despite overtaking |
| Lock.LeavesServed | copilot-fork/src/util/common/lock.ts:21-47 | nobody leaves without having had the lock |
| Lock.RunKeeps | copilot-fork/src/util/common/lock.ts:21-47 | in every run the lock is held exactly when a body runs, the queue is exactly the waiting clients, and waiting clients mean that the lock is held or an awakened client has yet to retry |
| Lock.FirstComeFirstServed | copilot-fork/src/util/common/lock.ts:21-47 | in every run clients get the lock in the order in which they ask if and only if no new client ever gets it while an awakened one has yet to retry |
| Lock.TurnsOfKey | copilot-fork/src/util/common/lock.ts:52-69 | the same for each key of the map |
| Lock.StepInTurn | copilot-fork/src/util/common/lock.ts:21-47 | every step that does not overtake keeps: those that have asked are those served, then at most one awakened, and none while the lock is held, then the queue |
| Lock.NewcomerOvertakes | copilot-fork/src/util/common/lock.ts:31-31 | whenever an awakened client has yet to retry on a free lock, a newcomer that asks first gets it, and the awakened one waits again behind all others |
| Lock.FreeWithAwakened | copilot-fork/src/util/common/lock.ts:37-47 | such a state is reachable |
| Lock.KeysAreIndependent | copilot-fork/src/util/common/lock.ts:52-59 | each key's lock runs as if it were alone |
| Lock.Lock.Attempt | copilot-fork/src/util/common/lock.ts:21-31 | takes a free lock, else queues |
| Lock.Lock.Release | copilot-fork/src/util/common/lock.ts:37-47 | an error on a free lock; else, whoever calls, the holder has released it and the first waiting client is awakened |
| Lock.LockMap.Enter | copilot-fork/src/util/common/lock.ts:54-61 | the start of withLock steps the lock of its key only |
| Lock.LockMap.Retry | copilot-fork/src/util/common/lock.ts:31-31 | so does a retry |
| Lock.LockMap.Leave | copilot-fork/src/util/common/lock.ts:63-69 | so does the end of the body |

## Left out

- Hashing in `diff.ts`: equal strings hash equally, so elements are compared directly.  Sequences of 2^30 elements and
  more, for which the sentinel indices of `DiffChangeHelper` would no longer be extreme, are excluded.
- `MaxDifferencesHistory` is a parameter of the class instead of 1447, so that both answers of the search are covered.
- LcsDiff.LcsDiff.SaveRound: stores copies of the cells as sequences, not as arrays, because the entries are never
  changed after they have been pushed.
- LcsDiff.LcsDiff.ComputeRecursionPoint: leaves out the furthest indices of lines 681-682 and 726-729, which nothing reads;
  its rounds, its two endings and the saving of a round are methods of their own.
- LcsDiff.LcsDiff.WALKTRACE: takes only indices that exist in the model's range record, and its loops are two methods.
- `LineSequence` and `CharSequence`, which only make elements out of text.
- The line processor of `CodeBlockProcessor`, vulnerabilities and the flags of markdown strings.  The path expression, the
  resolution of paths and the test for blank lines are parameters; a resource is a string.
- CodeBlockProcessor.CodeBlockProcessor.Flush: keeps the invariant at the end of a stream only.  In the middle it leaves the
  state LineAfterFence, and the opening fence is reported once more (`WholeBlocks.FlushTwice`).
- StreamingIsBatch.StreamingIsBatch: does not compare the flag for early reporting, which the flush leaves as the last call
  set it, and records a block's resource as it was when a text was reported, not as the shared object may show it later.
- ExactCuts.AgreesThroughout: is about streams without cuts between a carriage return and its line feed, as is
  `StreamingIsBatch.StreamingIsBatch`.  One such cut after any chunks is the subject of `ExactCuts.LineEndCutIsExact`;
  behind a path line the lines that follow it can make both readings agree again.
- `CodeBlockTrackingChatResponseStream`, which forwards to the processor.
- `calculateLineRepetitionStats` of `anomalyDetection.ts`.  Blankness of a token is a parameter, and copying, reversing and
  filtering are functions on sequences.
- LruCache.LRUCache.Create: the value of the sentinels is a parameter, because the source stores null there.
- `get`, `keys`, `getValues` and `dispose` of the disposing cache beyond their forwarding.
- VariableLengthQuantity.WriteVariableLengthQuantity: does not model fractions and the special numbers, which the source
  rejects as well; VSBuffer is a sequence of bytes.
- TimeTravelScheduler.TimeTravelScheduler.RunNext: the body of a task is the steps that follow; times are integers, and sorting
  is insertion into a sorted list, since the comparator leaves only one order.
- AsyncSchedulerProcessor.AsyncSchedulerProcessor.ProcessStart: counts the callbacks asked for; when they come is left open, and
  so are `waitForEmptyQueue`, the wording of the limit error and its rethrowing.
- Interval.TimerTicks: is about values, not about the closure's variables; what a handler does counts as later steps, and a
  negative interval, which the source rejects, is excluded.
- Replacing the global timers and `Date`, `runWithFakedTimers`, stack traces.
- TaskQueue.TaskQueue.FinishTask: a task is its number; its result and its error are not modelled.
- BatchedProcessor.BatchedProcessor.Flush: the waiting time and the batch function are not modelled; a batch returns any
  results at any time.
- JsonFile.JSONFile.WriteEnded: writing and serialising are abstract; a failed write leaves the disk as it was.  Reading the
  file, `readOrCreate` and cloning are left out.
- Lock.Lock.Release: a call by code that does not hold the lock counts as the holder's, because the source records no holder;
  the body that is then still running is not modelled, and `LockMap` makes no such call.
- Lock.LockMap.Enter: the body, its result and its error are not modelled; a client is one call.
