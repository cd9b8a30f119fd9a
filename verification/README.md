# Bankai verification

A Dafny model of the algorithms and protocols inside the Bankai terminal agent,
a Go program, with proofs of what they keep over every input, every run and every
interleaving.  Nothing here executes the program: the model follows the Go sources
named below branch by branch, and Dafny proves the properties of the model.

Code that works by changing things step by step is modelled as methods with loops,
arrays and object fields, each proved against a specification function or predicate.
Code that runs concurrently is modelled as a state machine with one step for each
critical section, and the lemmas quantify over all its runs.

| files | what they model |
|---|---|
| `Text`, `Sorting`, `Decimal`, `Sequences`, `Wrappers` | the parts of Go's library, and the laws of sequences, that the rest relies on |
| `Similarity`, `UnionFind`, `Dream` | clustering of duplicate memories by union-find with path halving |
| `RenameEdits` | applying the text edits of a language-server rename, backwards in place |
| `EditDistance`, `Keyterms` | the two-row Levenshtein table and the snapping of dictated words onto registered terms |
| `CronField`, `Calendar`, `CronNext`, `CronStore` | cron expressions, the next fire time on the Gregorian calendar, and the scheduler with its durable file |
| `Conversation`, `Transcript` | messages, and the append-only parent-linked transcript that is rebuilt by walking back |
| `EngineRuns`, `EngineCalls`, `Engine` | the agent loop as a function of what model, tools and goal store answer; what its model calls are; the engine object proved to follow it |
| `Codex` | assembling a reply from a stream of events, and translating a conversation into a request |
| `WebSocket`, `WsMessages` | RFC 6455 framing, masking and fragmentation (sections 5.2 to 5.5) |
| `SttSession`, `SttBlanks` | the live speech-to-text connection: transcripts, endpoints, close, timers, Finalize; what blank transcripts hide |
| `Glob` | the `**` matcher |
| `MemoryFile`, `MemoryRoundTrip`, `MemoryStore`, `MemorySync` | memory files, their directory and index, export and import |
| `TaskRegistry` | background tasks: create, stop, runner returns |

`dafny verify dfyconfig.toml` checks everything.

## Where the code does not do what it says

Each of these is a lemma; where there is a boundary, the lemma gives it exactly.

- Cron tasks: the header of `internal/cron/cron.go` expires recurring tasks after 30
  days, the code expires every task.  A one-shot set further ahead never fires
  (`CronStore.TooLateNeverFires`, `CronStore.CanFireIffWithinAge`).
- The next-run search looks at times before `from` plus 366 days.  A schedule that
  allows every weekday and names a moment of every year finds nothing iff it is asked
  exactly on a minute that fires, a leap day comes before the next anniversary of that
  minute, and it names no other moment, not even on 29 February
  (`CronNext.NothingIff`); tasks are rescheduled at tick times, which may fall there.
- A cron step wraps at 2^63: the loop then adds negative values, and can add minutes
  nobody asked for (`CronField.SteppedIffNoWrap`, `CronField.FieldMeaning`,
  `CronField.WrappedExample`).
- A duplicate cluster reports the largest similarity among the pairs met under its
  final root, since what was kept at a root is lost when another absorbs it.  This is
  the largest of the cluster iff a pair of that similarity was met when the cluster had,
  or thereby got, its final root (`UnionFind.ReportsLargestIff`,
  `Dream.ReportsMostSimilarIff`; `UnionFind.ReportedNeedNotBeLargest` is a table for
  which it is not).
- Rename edits may share a place: inserts with each other and with the start of a
  replacement.  The result is what the language server protocol asks for iff at every
  offset the order of application leaves the texts of the array order
  (`RenameEdits.MeetsProtocolIff`); inserts come out in reverse of that order
  (`RenameEdits.InsertsComeOutReversed`), which hangs on how the sort, which is not
  stable, breaks the tie (`RenameEdits.TieDecides`).
- Keyterms: the corrected text depends on the order the terms were registered in iff two
  of them are within reach of each other (`Keyterms.OrderIndependentIff`, for plain
  terms).
- A transcript of spaces only takes the place of the text before it.  That text is lost
  iff the blanks after it are followed by a cut (an endpoint, the close or a resolve) or
  by a text that does not continue it; before a cut the blank is reported as final in
  its place (`SttBlanks.BlanksHideNothingIff`, `SttBlanks.BlankFinals`).  All other
  texts are reported (`SttBlanks.ReportedUnlessHidden`).
- A reply that asks for tools but stops for another reason leaves calls without
  results; so does a wrap-up that asks for tools.  In no other case is pairing broken
  (`EngineRuns.RunLoopSound`), and once it is, every model call is made with unpaired
  messages until a compaction replaces them (`EngineRuns.UnpairedUntilCompacted`).
- The transcript does not keep blocks of unknown kinds, empty tool input (it becomes
  `{}`) or input that is not in the form Go's encoder writes (`Transcript.BlockRoundTrip`).
- A memory comes back from its file iff its description is one line without spaces or
  quotes at its edges, its type is one of the four and its body has no CRLF
  (`MemoryRoundTrip.RoundTripIff`).
- Deleting a missing memory is documented as no error, but on an empty store it is one:
  there is no index to remove (`MemorySync.DeleteFailsIffEmpty`).
- The comment on task creation promises a snapshot with status running; it shows that
  iff neither a stop nor the runner's return came first (`TaskRegistry.SnapshotIsRunningIff`).

## Model

| member | source | states |
|---|---|---|
| Similarity.ComputeJaccard | internal/memory/dream.go:16-32 | counts shared tokens and divides by inclusion-exclusion; the result is shared words over all words |
| Similarity.Tokenize | internal/memory/memory.go:215-226 | the token set is the distinct lower-cased alphanumeric words of three letters or more |
| Similarity.TokenIff | internal/memory/memory.go:215-226 | a token is a longest run of three or more letters and digits in the lower-cased text, and every such run is one |
| Similarity.JaccardRange | internal/memory/dream.go:16-32 | similarity is between 0 and 1; 1 exactly for equal non-empty word sets, 0 exactly for bodies with no common word |
| UnionFind.Find | internal/memory/dream.go:49-56 | path halving terminates, returns the root, and changes the root of no element |
| UnionFind.Union | internal/memory/dream.go:63-65 | linking two roots redirects exactly the one class to the other root |
| UnionFind.LinkPair | internal/memory/dream.go:60-71 | one pair step on the array and the `best` map is one step of the abstract scan |
| UnionFind.RootsAreComponents | internal/memory/dream.go:58-72 | for any edges, two indices end with one root iff a chain of edges joins them |
| UnionFind.ClustersAreComponents | internal/memory/dream.go:58-72 | for any symmetric similarity table and any threshold, two indices share a root iff a chain of pairs at or above the threshold joins them |
| UnionFind.ReportedSimilarity | internal/memory/dream.go:66-69 | what `best` holds for a cluster of two or more is the similarity of a pair inside it, at or above the threshold |
| UnionFind.ReportsLargestLanded | internal/memory/dream.go:58-72 | it is the largest similarity among the pairs whose class had the final root once the loop was done with them |
| UnionFind.ReportsLargestIff | internal/memory/dream.go:58-72 | it is the largest of the whole cluster iff some pair of that similarity is among these |
| UnionFind.ReportedNeedNotBeLargest | internal/memory/dream.go:63-69 | a concrete table whose one cluster reports 0.6 although it contains a pair at 0.9 |
| Dream.OneClusterIffChain | internal/memory/dream.go:38-72 | the same for memories: one cluster iff a chain of sufficiently similar bodies |
| Dream.ReportedIsARealPair | internal/memory/dream.go:66-84 | a reported similarity is the Jaccard value of two bodies of the cluster |
| Dream.ReportsMostSimilarIff | internal/memory/dream.go:57-84 | and the largest of the cluster iff a pair of that similarity was met when the cluster had, or thereby got, its final root |
| Dream.ClassIsComponent | internal/memory/dream.go:73-77 | a class lists exactly the connected component of its root, each member once, in index order |
| Dream.LinkPairs | internal/memory/dream.go:57-72 | the nested pair loop leaves array and map encoding exactly the pair-by-pair linking |
| Dream.GroupByRoot | internal/memory/dream.go:73-77 | the grouping loop files every name under its root, halving paths as it reads them |
| Dream.CollectClusters | internal/memory/dream.go:78-85 | whatever order the map is iterated in, the clusters are one for each class of two or more names |
| Dream.OneForEachComponent | internal/memory/dream.go:38-93 | the clusters are in one-to-one correspondence with the components of two or more under chains of sufficiently similar bodies: each has the names of exactly its component as a multiset, and every two joined memories are in one |
| Dream.Consolidate | internal/memory/dream.go:38-93 | nothing for fewer than two memories; otherwise one cluster for each connected component of two or more, with its names sorted and a similarity met in it at or above the threshold; the most similar come first, ties by names |
| RenameEdits.ComputeOffset | internal/lsp/manager.go:202-208 | the closure sums the line lengths before a position and adds its character |
| RenameEdits.ApplyEdits | internal/lsp/manager.go:188-219 | sorts the edits in place, latest start first, and splices them in that order, skipping those out of range |
| RenameEdits.LinesAreDocument | internal/lsp/manager.go:193 | SplitAfter cuts a text into lines that add up to it |
| Text.SplitAfterCuts | internal/lsp/manager.go:193 | the lines joined are the text; each but the last ends in its only line break, and the last has none |
| RenameEdits.OffsetPoints | internal/lsp/manager.go:202-208 | the offset of an in-line position points at the rest of that line in the text |
| RenameEdits.OffsetKeepsOrder | internal/lsp/manager.go:202-208 | on in-line positions, position order and offset order are the same |
| RenameEdits.SpliceInFront | internal/lsp/manager.go:209-217 | splicing a patch that lies before all applied ones is adding it to the simultaneous substitution |
| RenameEdits.BackwardEqualsSimultaneous | internal/lsp/manager.go:186-218 | for edits that do not overlap, latest start first, the backward splices equal the simultaneous substitution with what is left at each offset, and the range guard on the already edited string skips none of them |
| RenameEdits.MeetsProtocolIff | internal/lsp/manager.go:186-218 | for any valid edits, inserts and a replacement at one place included, and any sorted order of them, the result is the one asked for iff at every offset the order of application leaves the texts in array order |
| RenameEdits.OrderDoesNotMatter | internal/lsp/manager.go:186-218 | with no two edits at one place, whatever the order of the array handed in and however it was sorted, the result is the simultaneous substitution asked for |
| RenameEdits.InsertsComeOutReversed | internal/lsp/manager.go:209-217 | where only inserts share a place, their texts come out in reverse of the order of application |
| RenameEdits.TieDecides | internal/lsp/manager.go:195-217 | two inserts at one place are sorted in either order, and come out in the opposite one |
| EditDistance.Levenshtein | internal/voice/voice.go:142-162 | the two-row table ends with the recursive edit distance |
| EditDistance.FillRow | internal/voice/voice.go:150-158 | the inner loop turns the row above into the next row of distances |
| EditDistance.DistIsLeastEdits | internal/voice/voice.go:142-162 | the distance is the least number of single-rune inserts, deletes and substitutions of any edit script |
| EditDistance.DistZeroIffEqual | internal/voice/voice.go:142-162 | zero iff equal |
| EditDistance.DistSymmetric | internal/voice/voice.go:142-162 | symmetric |
| EditDistance.DistAtLeastLengthDifference | internal/voice/voice.go:142-162 | at least the difference in length |
| EditDistance.DistTriangle | internal/voice/voice.go:142-162 | the triangle inequality |
| Keyterms.RestoreTrailingPunct | internal/voice/voice.go:123-133 | appends the longest run of trailing punctuation of the original |
| Keyterms.SnapWord | internal/voice/voice.go:104-118 | the inner loop over the terms, with its budget and its guard |
| Keyterms.CorrectInPlace | internal/voice/voice.go:98-119 | overwrites each word by its correction and no other |
| Keyterms.Session.AddKeyterm | internal/voice/voice.go:39-52 | appends the trimmed term unless it is blank or known but for letter case; registered terms stay distinct |
| Keyterms.Session.ApplyKeyterms | internal/voice/voice.go:91-121 | the corrected text is the words corrected one by one, joined by single spaces; without terms the text is returned as it is |
| Keyterms.Session.Transcribe | internal/voice/voice.go:63-73 | returns the corrected text and appends exactly it to the buffer |
| Keyterms.LengthGuardIsRedundant | internal/voice/voice.go:110-114 | the length guard never rejects a word the distance test would accept |
| Keyterms.SnapIsFirstHit | internal/voice/voice.go:104-118 | a word changes iff some term is within its budget, and then to the first such term |
| Keyterms.WordCorrected | internal/voice/voice.go:98-133 | a word between punctuation goes to the first term within one edit, two for terms of eight characters or more, unless it is that term but for letter case; the punctuation after it is kept, that before it dropped |
| Keyterms.PunctuationStays | internal/voice/voice.go:98-102 | punctuation alone stays |
| Keyterms.OrderIndependent | internal/voice/voice.go:89-121 | terms pairwise further apart than their budgets together correct every text alike in every order |
| Keyterms.OrderIndependentBeyondFour | internal/voice/voice.go:89-121 | in particular terms pairwise more than four edits apart |
| Keyterms.OrderIndependentIff | internal/voice/voice.go:89-121 | for any list of plain terms that differ beyond letter case, every text is corrected alike in every order of them iff they are pairwise that far apart |
| Keyterms.CorrectTwice | internal/voice/voice.go:89-121 | with clean, settled terms correcting a corrected text changes nothing |
| Keyterms.CorrectTwiceBeyondTwo | internal/voice/voice.go:89-121 | in particular with terms pairwise more than two edits apart |
| CronField.ParseField | internal/cron/cron.go:53-96 | the parsed set, or nothing on malformed or out-of-range chunks |
| CronField.ParsesWhatItMeans | internal/cron/cron.go:56-87 | a chunk parses to a start, an end and a step iff its text means them: a star, a number or a range in bounds, with or without a positive step |
| CronField.FieldParsesIff | internal/cron/cron.go:53-96 | a field parses iff each of its comma-separated pieces means something |
| CronField.FieldReads | internal/cron/cron.go:53-96 | it then holds exactly the values some piece asks for iff no step wraps |
| CronField.NumberField | internal/cron/cron.go:78-83 | a numeral in range asks for exactly itself |
| CronField.StarField | internal/cron/cron.go:66-69 | a star asks for the whole range |
| CronField.SpanField | internal/cron/cron.go:70-77 | two numerals with a dash ask for what lies between them, both included |
| CronField.SteppedField | internal/cron/cron.go:57-65 | any of these with a slash and a numeral asks for every so many-th value from the start |
| CronField.Parse | internal/cron/cron.go:37-51 | five fields, minutes 0-59, hours 0-23, days 1-31, months 1-12, weekdays 0-6, in this order, or nothing |
| CronField.SteppedIffNoWrap | internal/cron/cron.go:88-90 | the stepping loop yields the documented values iff start plus step does not pass 2^63 - 1; otherwise it yields a negative value too |
| CronField.WrappedExample | internal/cron/cron.go:88-90 | minute 30 with the largest step also names minute 28 |
| CronField.FieldMeaning | internal/cron/cron.go:53-96 | a parsed field holds exactly the values its chunks document iff no chunk wraps |
| CronField.ParsesIffChunksDo | internal/cron/cron.go:53-96 | a field parses iff each of its comma-separated chunks does |
| Calendar.CivilOfDayNumber | internal/cron/cron.go:104 | the civil date of a day number is the date it was counted from |
| Calendar.AnniversaryGap | internal/cron/cron.go:102-104 | 366 days between anniversaries with a leap day between, else 365 |
| Calendar.DaysFollow | internal/cron/cron.go:102-104 | day numbers follow each other through all months and years, weekdays go round with them, and 1 January 2000 is a Saturday |
| CronNext.Next | internal/cron/cron.go:100-111 | the minute-by-minute search returns the specified minute |
| CronNext.FiresOnDate | internal/cron/cron.go:102-107 | an expression fires on a date and time of day iff it names the month, the day, the weekday, the hour and the minute |
| CronNext.NextIsLeast | internal/cron/cron.go:98-111 | the least matching whole minute after `from` and before `from` plus 366 days, and nothing iff there is none |
| CronNext.NeverNothing | internal/cron/cron.go:98-111 | with every weekday allowed and a moment of every year named, off the minute there is always a next fire time, and exactly on a minute unless that minute fires |
| CronNext.NothingIff | internal/cron/cron.go:98-111 | nothing is found iff the search starts exactly on a minute that fires, a leap day lies before its anniversary, and no other moment of common or leap years is named |
| CronStore.CronScheduleIsSound | internal/cron/cron.go:98-111 | the real expression search meets what the store relies on |
| CronStore.Store.Add | internal/cron/cron.go:190-212 | rejects bad or never-matching expressions and a full store, leaving everything as it was; else registers exactly this task under the next id and saves it if durable |
| CronStore.Store.Delete | internal/cron/cron.go:215-224 | removes exactly that task and rewrites the file, or answers false |
| CronStore.Store.FireDue | internal/cron/cron.go:276-306 | one tick, in any map order: runs the prompt of a task iff it is at most 30 days old and its next run is not after now; drops the older ones and the one-shots that ran, reschedules the recurring ones that ran, leaves all others, and saves if anything changed |
| CronStore.TickIsTicked | internal/cron/cron.go:276-306 | the same of the specified tick, told without its functions |
| CronStore.Store.LoadDurable | internal/cron/cron.go:153-168 | reload takes over the stored tasks and moves the id counter past every stored id |
| CronStore.Store.SaveDurable | internal/cron/cron.go:170-187 | the file becomes the durable tasks in id order, each once |
| CronStore.EmptyStoreIsGood | internal/cron/cron.go:142-151 | a new store without a file meets the invariant |
| CronStore.RunKeepsInv | internal/cron/cron.go:153-306 | from any state that meets the invariant, in every state of every run of Add, Delete, ticks and reloads the durable file equals the durable tasks |
| CronStore.LiveIdsAreNotReused | internal/cron/cron.go:204-207 | a new id is that of no live or stored task |
| CronStore.OneShotsFireOnce | internal/cron/cron.go:286-294 | a one-shot id fires again only if it was issued anew in between |
| CronStore.FiringsAdvance | internal/cron/cron.go:286-291 | successive firings of a recurring task consume strictly later minutes |
| CronStore.FiringsAreTimely | internal/cron/cron.go:276-297 | each firing consumes a minute its schedule matches, not in the future, and none is over 30 days after creation |
| CronStore.TooLateNeverFires | internal/cron/cron.go:281-294 | in no run is a task fired whose first run lies more than 30 days after its creation, before its id is issued anew |
| CronStore.CanFireIffWithinAge | internal/cron/cron.go:190-212 | some run fires the task an Add registers iff its first run is within 30 days of its creation, one-shots included |
| CronStore.IdNumberOfTaskId | internal/cron/cron.go:164-166 | the number read back from an id is the one it was made from |
| Transcript.BlockRoundTrip | internal/transcript/writer.go:111-132 | writing and decoding an assistant block gives it back iff it is text, thinking, or a tool call with canonical non-empty input |
| Transcript.ResultRoundTrip | internal/transcript/writer.go:91-102 | writing and decoding gives exactly the tool results back |
| Transcript.ContentRoundTrip | internal/transcript/reader.go:125-161 | an answer comes back as it was iff every block of it is one of those |
| Transcript.Writer.SetParent | internal/transcript/writer.go:72-76 | the next line goes under the given id |
| Transcript.Writer.WriteEnvelope | internal/transcript/writer.go:157-196 | appends one line with a fresh id under the previous one, which becomes the last id; the log stays grown |
| Transcript.Writer.WriteUser | internal/transcript/writer.go:79-87 | that line, with the text as plain content |
| Transcript.Writer.WriteToolResults | internal/transcript/writer.go:91-107 | that line, with one tool_result object for each result |
| Transcript.Writer.WriteAssistant | internal/transcript/writer.go:111-153 | that line, with one object for each text, thinking or tool_use block and none for others |
| Transcript.ScanLines | internal/transcript/reader.go:45-71 | the scan indexes exactly the kept lines and finds the last id and the first session id |
| Transcript.SessionIsFirst | internal/transcript/reader.go:60-62 | the session id is that of the first line that names one |
| Transcript.WalkBack | internal/transcript/reader.go:78-94 | the backward walk and the in-place reversal give the chain from the root, and terminate |
| Transcript.ReverseInPlace | internal/transcript/reader.go:91-94 | the swap loop reverses the array |
| Transcript.Load | internal/transcript/reader.go:38-104 | loading gives the messages of the chain to the last entry, its id and the session id |
| Transcript.ChainToIsChain | internal/transcript/reader.go:78-94 | what the walk finds leads child after child from an entry without a parent in the log to the leaf |
| Transcript.OnlyChain | internal/transcript/reader.go:78-94 | and there is no other such chain |
| Transcript.WriteLoads | internal/transcript/writer.go:157-196 | after one more write under any parent, forks included, loading gives the chain to that parent and the new message |
| Transcript.WriteExtends | internal/transcript/writer.go:72-76 | after SetParent to the loaded last id, one write extends the loaded messages by exactly one |
| Transcript.SkippedLine | internal/transcript/reader.go:60-71 | lines of other kinds and unreadable ones change nothing |
| Engine.Engine.Submit | internal/engine/engine.go:76-97 | compacts when too long, adds the hidden prompt of an active goal and the input, and runs the loop; the state goes where the run function says and the transcript loads to what was recorded |
| Engine.Engine.RunLoop | internal/engine/engine.go:99-194 | the unbounded loop follows the run function for every script of replies, tool outputs and failures |
| Engine.Engine.FinalTurn | internal/engine/engine.go:131-149 | the wrap-up turn after the budget is spent |
| Engine.Engine.Compact | internal/engine/engine.go:271-300 | an empty conversation, a failed call or a blank summary change no message; otherwise the summary replaces them all |
| Engine.Engine.MeasureContext | internal/engine/engine.go:65-73 | the size estimate that decides on compaction |
| Engine.Engine.ExtractMemories | internal/engine/engine.go:315-334 | one model call with the conversation and a prompt, which changes no message |
| Engine.Engine.SetObjectiveUpdated | internal/engine/engine.go:354-357 | appends a prompt the transcript is not told of |
| Engine.Engine.RunTools | internal/engine/engine.go:152-184 | one result for each tool_use block, in order: the k-th has the id of the k-th call and the text and error flag of the k-th output, the text whole up to 200000 characters and otherwise cut there with a note |
| Engine.Told | internal/transcript/writer.go:157-196 | a line written by the writer of the last one extends what the transcript loads to by its message |
| EngineRuns.ResultsAnswerCalls | internal/engine/engine.go:152-189 | the results of a reply consist of tool results that answer exactly its calls in order |
| EngineRuns.ResultsAreOf | internal/engine/engine.go:152-189 | the same of the specified results, told without their functions |
| EngineRuns.OpsAgree | internal/engine/engine.go:76-193 | over all uses without compaction, failed turns and wrap-ups included, the transcript loads to the messages without the hidden ones, as the transcript keeps them |
| EngineRuns.LoadsWhatWasSaid | internal/engine/engine.go:76-193 | it loads to exactly those messages iff every block answered is one the transcript keeps |
| EngineRuns.RunLoopSound | internal/engine/engine.go:99-193 | from paired messages a run makes every model call, and ends, with paired messages iff replies with tool calls stop for them and the wrap-up asks for none |
| EngineRuns.OpSound | internal/engine/engine.go:76-357 | every use of the engine keeps that |
| EngineRuns.OpsSound | internal/engine/engine.go:76-357 | over all uses, new or resumed and compacting or not, with such replies every model call is paired, and so is what the transcript loads to |
| EngineRuns.UnpairedUntilCompacted | internal/engine/engine.go:76-357 | from unpaired messages on, every model call of whatever uses is unpaired until one of them compacts |
| EngineCalls.RunIsOf | internal/engine/engine.go:99-194 | whatever the script, each model call of a run but the first has the messages of the one before, the reply to it and the results of its tools, each with its own output, or the prompt to wrap up; a reply to the last call is the last message; every reply counts one turn and its tokens |
| EngineCalls.CompactedCompacts | internal/engine/engine.go:271-300 | compacting calls the model once with the messages and its prompt; unless that fails or its texts, joined and trimmed, are empty, these with the prefix are all that is left |
| EngineCalls.ContextMeasured | internal/engine/engine.go:65-73 | the size estimate is the length of all texts, inputs and results of all messages together |
| EngineCalls.SubmitIs | internal/engine/engine.go:76-97 | Submit compacts iff a positive limit is exceeded, then adds the prompt of an active goal and the input, and then makes such a run |
| Codex.ParseStream | internal/provider/openai.go:227-327 | the reply is the thinking and the text of all deltas, each unless blank, and one call for each one added, with the deltas after its last final form, or all of them, up to the event that closes it; its stop reason and its last token counts |
| Codex.StreamParser.Take | internal/provider/openai.go:264-302 | one event updates the builders and flags as the step function says |
| Codex.StepOnTrack | internal/provider/openai.go:264-302 | each event keeps what is parsed and what is still to come equal to the reply specified on the whole stream |
| Codex.CallsAreAdded | internal/provider/openai.go:236-250 | one call for each function call added, in order |
| Codex.StopsForItsCalls | internal/provider/openai.go:304-327 | for any event sequence the stop reason is tool_use iff the reply contains a tool call, and its calls are those added |
| Codex.ToInput | internal/provider/openai.go:87-136 | message by message: for a user every tool output and then every text in one item, for an assistant every text and every call with its arguments, all in order, and nothing else |
| Codex.OutputsFollowCalls | internal/provider/openai.go:87-136 | for paired messages, however far into the request one reads, the outputs so far are the first of the calls so far, in the same order |
| Codex.AllCallsAnswered | internal/provider/openai.go:87-136 | for paired messages the outputs of the whole request are exactly its calls, in order |
| WebSocket.WsConn.WriteFrame | internal/voice/wsclient.go:133-174 | appends the wire form of a final frame under the mask drawn |
| WebSocket.HeaderByBytes | internal/voice/wsclient.go:134-157 | that form byte by byte: final bit and opcode, mask bit and length in one, three or nine bytes, highest first, and the mask |
| WebSocket.PayloadByBits | internal/voice/wsclient.go:159-162 | each bit of the payload is turned over by that of the mask byte in turn |
| WebSocket.BigEndianDigit | internal/voice/wsclient.go:141-151 | the bytes of an extended length are its digits to the base 256 |
| WebSocket.WsConn.ReadFrame | internal/voice/wsclient.go:212-251 | reads exactly the first frame, or reports a short read, or the panic of a length that does not fit |
| WebSocket.ReadsAnyFrame | internal/voice/wsclient.go:212-251 | a frame of whatever header bytes is read as they say, lengths in a longer form than needed and unmasked payloads included |
| WebSocket.CutOffIsShort | internal/voice/wsclient.go:212-251 | a frame that is cut off anywhere is a short read |
| WebSocket.MaskedTwice | internal/voice/wsclient.go:159-162 | masking twice under one mask is the identity |
| WebSocket.LengthRoundTrip | internal/voice/wsclient.go:138-151 | all three length forms are read back, with the mask bit |
| WebSocket.FrameRoundTrip | internal/voice/wsclient.go:212-251 | any frame under any mask or none is read back and leaves exactly the bytes after it |
| WebSocket.SequenceRoundTrip | internal/voice/wsclient.go:133-174 | so is any sequence of frames, with nothing left over |
| WebSocket.DecodesOnlyThose | internal/voice/wsclient.go:212-251 | and no other frames can be read off it |
| WebSocket.WsConn.ReadMessage | internal/voice/wsclient.go:184-210 | reads frames up to the first that completes a result; exactly the pings read are answered, each by one pong with its payload, in order |
| WebSocket.WsConn.AnswerPing | internal/voice/wsclient.go:195-196 | the pong decodes after everything written before it |
| WsMessages.MessageIsRead | internal/voice/wsclient.go:182-210 | any well-formed fragmented message with control frames in between is read as its fragments concatenated, under the opcode of the first, and nothing after it is touched |
| WsMessages.StreamIsRead | internal/voice/wsclient.go:182-210 | so is any stream of such messages, one after the other, each with its own pings |
| SttSession.StreamConn.HandleTranscript | internal/voice/stream_stt.go:193-224 | the critical section that disarms the no-data timer and promotes a text that the next does not continue |
| SttSession.StreamConn.TakeText | internal/voice/stream_stt.go:226-232 | the critical section that takes the pending text |
| SttSession.StreamConn.Gate | internal/voice/stream_stt.go:283-298 | the critical section that lets one Finalize through |
| SttSession.StreamConn.Close | internal/voice/stream_stt.go:345-351 | marks the connection finalized and closed |
| SttSession.RunKeepsInv | internal/voice/stream_stt.go:193-351 | the invariant of every interleaving of transcripts, endpoints, close, timers and Finalize calls |
| SttSession.FinalsAreRunEnds | internal/voice/stream_stt.go:193-267 | the texts taken as final are, in order, the last transcripts of the ended runs of prefix-comparable ones; each is reported once, none lost or doubled |
| SttSession.ComparableIff | internal/voice/stream_stt.go:205-214 | two texts go together iff, leading spaces aside, one begins with the other |
| SttSession.NothingLeftBehind | internal/voice/stream_stt.go:226-267 | an endpoint, the close and the first resolve leave no pending text |
| SttBlanks.ReportedOrLost | internal/voice/stream_stt.go:193-224 | for any history, the finals without its blank transcripts are the finals that are not blank and the texts lost |
| SttBlanks.BlanksHideNothingIff | internal/voice/stream_stt.go:193-224 | the two lists of finals are the same iff every block of blanks after a text is followed, if by anything, by a text that continues it one way or the other |
| SttBlanks.ReportedUnlessHidden | internal/voice/stream_stt.go:193-267 | over every interleaving, with no report outstanding: all finals of the history without blanks have been reported iff no text is hidden so |
| SttBlanks.BlankFinals | internal/voice/stream_stt.go:226-232 | a blank is itself a final iff it is the last thing before a cut |
| SttBlanks.OpenBlanksEndNothing | internal/voice/stream_stt.go:193-224 | blanks at the end of a history have ended no run and hidden nothing yet |
| SttBlanks.BlankHidesText | internal/voice/stream_stt.go:205-214 | concrete histories in which a blank before the next text, or before a cut, hides a text |
| SttSession.AtMostOnce | internal/voice/stream_stt.go:193-204 | at most one value is sent and its send finds the channel empty; the timer is disarmed and CloseStream written at most once |
| SttSession.LaterCallsReturnAtOnce | internal/voice/stream_stt.go:283-288 | a Finalize after another or after Close returns at once |
| SttSession.FirstCallPasses | internal/voice/stream_stt.go:283-298 | the first Finalize with no Close before it is the one that waits |
| SttSession.NoStepHarms | internal/voice/stream_stt.go:308-342 | once a value is on its way no step of any goroutine moves the waiting call away from it |
| SttSession.HelpfulStepStays | internal/voice/stream_stt.go:308-342 | until it is taken, the step that brings the call nearer stays the same one, unless another step helps |
| SttSession.FinalizeGetsItsValue | internal/voice/stream_stt.go:308-342 | in every run, once a value is on its way, the call has returned with one after ten helpful steps at the latest, seven after a timer; until then one is possible, and none is a timer |
| SttSession.ValueIsOnItsWay | internal/voice/stream_stt.go:226-267 | a value is on its way once a timer has fired, an endpoint after CloseStream has been reported, or the close of the socket |
| SttSession.EndpointBringsValue | internal/voice/stream_stt.go:226-239 | an endpoint that comes while a Finalize waits, once reported, brings it its value without a timer |
| Glob.MatchDoubleStar | internal/tools/glob.go:114-141 | the loop with recursion decides exactly the declarative meaning, and terminates |
| Glob.MatchGlob | internal/tools/glob.go:100-112 | which of path.Match on the whole, path.Match on the base name and the segment matcher decides |
| Text.BaseOfPath | internal/tools/glob.go:108-109 | the base name is what follows the last slash |
| Glob.ConcatLaw | internal/tools/glob.go:114-141 | a concatenated pattern matches exactly the names that can be cut into a part for each half |
| Glob.ConsecutiveStars | internal/tools/glob.go:117-120 | consecutive `**` equal one |
| Glob.StarsMayBeEmpty | internal/tools/glob.go:124-129 | P/`**`/Q matches whatever P/Q matches |
| Glob.AnyDepth | internal/tools/glob.go:114-141 | `**`/X matches iff X matches the last segment, at any depth |
| MemoryFile.Slugify | internal/memory/memory.go:62-79 | the loop with its pending-dash flag computes the slug |
| MemoryFile.SlugIsWords | internal/memory/memory.go:62-79 | the slug is the words of letters and digits of the lower-cased name, joined by single dashes |
| MemoryFile.SlugIsEmptyIff | internal/memory/memory.go:62-79 | it is empty iff the name has no letter and no digit |
| MemoryFile.SlugIsSlug | internal/memory/memory.go:62-79 | a slug has only lower-case letters, digits and single inner dashes |
| MemoryFile.SlugStaysIff | internal/memory/memory.go:62-79 | slugify leaves a name as it is iff it is such a slug |
| MemoryFile.SlugTwice | internal/memory/memory.go:62-79 | slugify is idempotent |
| MemoryFile.ParseFile | internal/memory/memory.go:228-263 | the line loop reads the frontmatter line by line, later keys over earlier |
| MemoryFile.FrontIsRead | internal/memory/memory.go:228-243 | a text fenced at its start is, up to the first closing fence, read by its lines; the rest, trimmed, is the body |
| MemoryFile.LastPairWins | internal/memory/memory.go:247-261 | of the lines that give a key a value the last one has it; a type only counts if it is one of the four |
| MemoryFile.NoPairSays | internal/memory/memory.go:247-261 | a key no line gives keeps its value |
| MemoryFile.IndexIsFirst | internal/memory/memory.go:235-239 | the closing fence is looked for at its first occurrence |
| MemoryFile.StaysIffNoMargins | internal/memory/memory.go:249-249 | trimming leaves a value as it is iff it has no space and no quote at its edges |
| MemoryRoundTrip.RenderedParses | internal/memory/memory.go:120-145 | what parse makes of any named memory with a one-line description and a known type |
| MemoryRoundTrip.RoundTripIff | internal/memory/memory.go:228-263 | parse undoes the rendering of Save iff the description is one line without edge spaces or quotes, the type is one of the four and the body has no CRLF |
| MemoryFile.RenderedLines | internal/memory/memory.go:139-140 | the lines of a memory file, one by one |
| MemoryRoundTrip.ParsedIsOneLine | internal/memory/memory.go:247-261 | no parsed description spans lines and no parsed type is unknown |
| MemoryStore.Store.List | internal/memory/memory.go:82-106 | the memories of all .md files but the index, each once, by name; nameless ones go by their file |
| MemoryStore.Store.WriteIndex | internal/memory/memory.go:154-170 | the index becomes a heading and one line for each memory listed, with its type where it has no description, or is removed when there are none; removing a missing one is an error |
| MemoryStore.Store.Save | internal/memory/memory.go:120-145 | a blank name, a secret in body or description, or a name without letters and digits is refused, in this order, and changes nothing; otherwise the file named by its slug has the rendered lines, no other memory changes, and the index is up to date |
| MemoryStore.Store.Delete | internal/memory/memory.go:148-151 | removes that file and refreshes the index; its error is that of the index |
| MemoryStore.Store.Export | internal/memory/sync.go:22-29 | the listed memories in wire form |
| MemoryStore.Store.Import | internal/memory/sync.go:35-49 | saves one by one; counts those not refused |
| MemoryStore.RefusalsByName | internal/memory/sync.go:38-43 | every refused name is among the errors, with the refusal of the last memory of that name |
| MemoryStore.RefusalsOnly | internal/memory/sync.go:38-43 | and no other name is |
| MemorySync.IndexedTwice | internal/memory/memory.go:154-170 | writing the index changes no memory, and twice is as good as once |
| MemorySync.CleanLists | internal/memory/memory.go:82-106 | a clean store lists exactly its memories, sorted |
| MemorySync.CleanOnce | internal/memory/memory.go:120-170 | a clean store is determined by its memories |
| MemorySync.SaveKeepsClean | internal/memory/memory.go:120-145 | saving a storable memory adds it in place of any of the same slug and keeps the store clean |
| MemorySync.DeleteKeepsClean | internal/memory/memory.go:147-151 | deleting removes the memory of that slug and no other |
| MemorySync.DeleteFailsIffEmpty | internal/memory/memory.go:147-170 | on a clean store Delete fails iff the store is empty |
| MemorySync.RunsStayClean | internal/memory/memory.go:120-170 | after any run of such saves and deletions the store is clean and holds what was saved last and not deleted since |
| MemorySync.EmptyIsClean | internal/memory/memory.go:56-57 | the empty store is clean |
| MemorySync.ImportRebuilds | internal/memory/sync.go:22-49 | for any file format that gives storable memories back, and any save that writes an exported memory as it is, saving an export one by one into an empty store rebuilds the store |
| MemorySync.ExportImport | internal/memory/sync.go:22-49 | so it does for the markdown files of any clean store in which nothing trips the secret scan |
| TaskRegistry.Registry.CreateTask | internal/task/task.go:84-103 | registers a running task under the next id, at the end of the order |
| TaskRegistry.Registry.StopTask | internal/task/task.go:153-168 | stops and cancels a running task; other tasks and finished ones stay; false iff unknown |
| TaskRegistry.Registry.RunnerReturned | internal/task/task.go:105-124 | sets failure or completion unless the task was stopped |
| TaskRegistry.Registry.List | internal/task/task.go:141-149 | the tasks in creation order |
| TaskRegistry.RunKeepsInv | internal/task/task.go:84-168 | the invariant of every interleaving |
| TaskRegistry.FinalStays | internal/task/task.go:110-112 | a task that has left running never changes again |
| TaskRegistry.LeavesRunningOnce | internal/task/task.go:105-168 | it leaves running at most once |
| TaskRegistry.CancelledBranchIsUnreachable | internal/task/task.go:113-119 | cancelled iff stopped, so an error always means failed; output only on completed tasks, an error only on failed ones |
| TaskRegistry.OrderIsCreationOrder | internal/task/task.go:88-102 | the order lists task_1, task_2 and so on, distinct, each known |
| TaskRegistry.FirstTouchDecides | internal/task/task.go:105-168 | the first stop or return fixes the final task |
| TaskRegistry.SnapshotIsRunningIff | internal/task/task.go:126-126 | the view Create returns shows running iff no stop and no return has come before it is taken |

## Left out

- Files, sockets, HTTP, TLS, OAuth, subprocesses and clocks: byte and text sequences, a directory as a map, a log as a sequence, and times given as numbers stand for them; writes succeed.
- JSON: values are typed. A tool input carries what decoding and encoding it again gives, which is taken to be stable; the re-encoding of quotes inside JSON strings is not modelled.
- Lines over 32 MB, at which loading a transcript fails.
- Regular expressions and `path.Match`: the secret scan and the match of one segment are any predicates.
- `Similarity.ComputeJaccard`: exact rationals, so rounding to float64 at a threshold is not modelled.
- Text is a sequence of characters. Where the code counts bytes (rename offsets, length guards, truncation) this is its behaviour on single-byte text; UTF-16 positions are not modelled.
- Lower-casing: only the characters whose lower-case form is an ASCII letter change, which is all the slug, frontmatter and word comparisons on ASCII text depend on.
- `EngineRuns.OpsAgree`: a run that compacts keeps its old transcript while the messages are replaced, so agreement is stated for runs that do not compact.
- `Keyterms.OrderIndependentIff`: the converse is stated for terms without white space or punctuation in them that differ beyond letter case; that far-apart terms correct alike in every order holds of all terms.
- `CronNext.NothingIff`: schedules that restrict weekdays, or name no moment of every year, may find nothing for other reasons; of these only the least match is stated.
- What `ExtractMemories` parses out of the reply it asks for.
- Goal accounting, permission prompts, hooks and language-server feedback: they appear as the prompts and tool outputs a script brings.
- Concurrent use of one engine, and `/rewind` and `/clear`, which cut the messages outside the engine.
- `Transcript.Load`: claimed for logs in which ids are unique and no entry names itself or a later one as its parent, which is what the writers produce; cyclic foreign logs make the program loop forever.
- Random ids and masks: ids are assumed fresh, masks are arbitrary.
- `WebSocket.WsConn.WriteFrame`: the two writes of a frame are one step, so frames of several goroutines do not interleave inside; the handshake, deadlines and read chunking are not modelled.
- Audio frames: whether one follows CloseStream is not claimed, since the lock is released before the write.
- Error callbacks of the speech connection, which touch none of the modelled state except to read it.
- A task's end time, which a late return overwrites, and the error of creating a task without a runner.
- `CronStore.Store.FireDue`: calls of the runner happen after the lock is released and are recorded as the prompts fired; time zones are fixed offsets, and the id counter does not overflow.
- `MemoryStore.Store.List`: memories with equal names, which only hand-edited files can have, may come in any order in the program; the model takes one order.
- The in-memory lookups (`Get`, `FindRelevant`, `Index`), the Anthropic stream, tool schemas, rate limits, prompts, themes, plugins and the rest of the terminal interface.
