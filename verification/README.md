# Session controller protocol: a Dafny model

This project models the part of the Session controller in which a browser client and a Host keep one picture of a
Session over streams that drop, reorder their sources and reconnect, together with the headless JSON projection, and
proves what holds of it for every input, run and interleaving. `dafny verify dfyconfig.toml` checks everything.

## What is modelled

* **Streaming tool-call arguments** (`CodeUnits`, `JsonString`, `FieldIndex`, `Fragments`, `PartialArguments`,
  `PrintedObjects`, `PrintedMembers`, `StreamedStrings`, `FieldNames`). `FieldIndex.Scan` is the meaning of a whole
  text, one code unit at a time. The class `PartialArguments` has the scanner's own fields, modes, fragment table,
  escape parity, nesting stack and reader cursors; every method is proved to give what that meaning gives for the
  concatenated source. The last four modules connect the meaning with the JSON grammar: for whole objects, for strings
  still arriving, and for any text.
* **Assistant stream replication** (`Transcript`, `HostStream`, `ClientStream`, `Follower`, `AttemptRuns`,
  `RowOwnership`): the Host fold, the client fold, the two as one step system, and what whole attempts leave behind.
* **The event window** (`EventWindow`): a rope of rows, materialised with an explicit stack.
* **Projections** (`ProjectionStore`, `ProjectionReplication`): the client cache and its racing sources against the
  Host's history.
* **History** (`Paging`, `HistoryLoader`): the Host's backward pages and the client loaders that await them.
* **Submissions** (`InboxReceipts`, `Submissions`, `SubmissionOutcomes`): the place of one message in the inbox
  through splices, projections and reconnects, and the ledger that every submission goes through.
* **The Session list** (`OrderedMerge`, `MergeOrder`, `Lineage`, `SessionList`, `SessionFields`, `SessionManager`,
  `Retention`).
* **Creation and reuse on the Host** (`Creation`, `CreationOutcomes`): requests as interleaved segments between
  awaits, beside whatever turns, writers and resumes the rest of the Host performs.
* **Walks, search and lines** (`JsonWalk`, `JsonMeaning`, `DeepFreeze`, `Search`, `BoundedLine`, `BoundedMeaning`).

Text is a sequence of UTF-16 code units (`CodeUnits`), except that `BoundedLine` speaks of code points, where a lone
surrogate is one. Fractional seqs are reals.

## Hypotheses

* One key table per Host generation in `ProjectionReplication`; `ProjectionStore.LateFrameAfterSeed` says when a late
  frame would otherwise revive a cleared key.
* The Host's in-sequence frames name its own active attempt, and attempt identities are minted once
  (`Follower.Trusted`). `Follower.FrameKeepsMirror` shows that the first is exactly what is needed.
* `Follower.WindowAscends` asks that the end of a settled attempt precedes any other entry or frame; the journal is
  contiguous and delivers the Host's own page.
* Inbox splices stay inside their list and a request is at most once in the inbox (`InboxReceipts.WellFormed`).
* Keys of one list, ids of one list and keys of one object are distinct.
* In `Creation`, only the owner of a Session's writer appends to its log, an Agent that a request is about to reuse is
  not closed under it, and a live Agent gets no parent after it was published. `Creation.CloseBoundary` shows that the
  second is exactly what is needed.

## Where the code is weaker than one might read it

* An end that names a published seq, or one of several pending settlements, strands the others without asking for a
  new baseline (`Follower.EndStrands`, with a run in `Follower.EndStrandsWitness`).
* A page may exceed its message budget when its cut moves back to a source (`Paging.PageOverBudget`, with a log in
  `Paging.PageOverBudgetWitness`).
* A jump disturbed by a window replacement may end before its target (`HistoryLoader.SessionHistory.PageDropped`, with
  a run in `HistoryLoader.JumpCutShort`).
* An end that names an already published seq leaves the rows of its attempt in the window until the next replacement
  (`RowOwnership.RowsHaveOwners`, with a run in `RowOwnership.StrayWitness`).
* An Agent that is closed while its reuse awaits a preset is handed out all the same if it runs that preset already
  (`Creation.CloseBoundary`, `Creation.ClosedHandOut`).
* A Session attached after the control stream was opened keeps stale values of keys that no source has brought up to
  date and that have not changed since (`ProjectionReplication.AttachedConverged`).
* The last-resort line exceeds the cap when the escaped `type` alone does (`BoundedLine.LineFits`, with an event under
  the default caps in `BoundedLine.LineTooLong`). The comment at `dsh/bundle/headless/src/json-stream.ts:122-126`
  promises the cap without that condition.
* Truncation also drops a genuine replacement character that ends exactly at the cut, and works on the well-formed
  text, in which a lone surrogate is a replacement character (`BoundedLine.TruncatedIsPrefix`).

## Model

| member | source | states |
|---|---|---|
| FieldIndex.ScanNext | dsh/api/session-controller/lib/client.js:983-999 | One more unit of text moves the meaning of a whole text by exactly one scanner step, so the meaning of a prefix is reached however the text arrives. |
| FieldIndex.ScanFrozen | dsh/api/session-controller/lib/client.js:1097-1101 | After a failure nothing that follows changes the index: mode, key order and ranges stay, and the count of consumed units stays behind the failing one. |
| FieldIndex.ScanWellFormed | dsh/api/session-controller/lib/client.js:1018-1208 | For every text, closed fields lie inside the consumed text, only the current field (or the one a failure hit) is open, and the key order lists every field once. |
| FieldIndex.EscapeByCounting | dsh/api/session-controller/lib/client.js:1010-1013 | The parity of the backslashes at the end of a run decides whether the next quote is escaped, and a run of nothing but backslashes inherits the parity from before: counting equals toggling unit by unit. |
| FieldIndex.ScanQuiet | dsh/api/session-controller/lib/client.js:1001-1017 | Skipping a run without a closing quote in one go gives the index that stepping through it unit by unit gives. |
| FieldIndex.ScanMarks | dsh/api/session-controller/lib/client.js:1006-1009 | For every text, a string field is flagged for decoding exactly if its body so far holds a backslash or a control character. |
| JsonString.ParseStringIsGrammar | dsh/api/session-controller/lib/client.js:1123-1130 | The whole-string parser accepts a raw body with a value if and only if the body is printed from valid pieces of the string grammar (RFC 8259, section 7) that mean this value; the grammar has its own table of the eight escapes and its own printing of a unit as four digits. |
| JsonString.HexRead | dsh/api/session-controller/lib/client.js:963-970 | Four hexadecimal digits printed for a unit, in any letter case, are read as that unit. |
| JsonString.DecodeResumes | dsh/api/session-controller/lib/client.js:943-980 | Decoding from any token boundary a cursor stopped at, after the text decoded before it, gives the decoding from the start. |
| JsonString.DecodeLocal | dsh/api/session-controller/lib/client.js:957-980 | Decoding a closed range depends on nothing behind its end. |
| JsonString.DecodeStops | dsh/api/session-controller/lib/client.js:971-975 | Decoding stops at the first bad escape, and at an escape that an open string has not finished, and nowhere else. |
| JsonString.ParseDecodes | dsh/api/session-controller/lib/client.js:856-866 | For a closed string without bad escape, resumable decoding and parsing the whole body give the same text. |
| Fragments.ChunkAt | dsh/api/session-controller/lib/client.js:911-920 | Binary search finds the fragment a position falls into. |
| Fragments.Slice | dsh/api/session-controller/lib/client.js:922-932 | A range assembled from first, middle and last fragment is the range of the concatenated text. |
| Fragments.SpelledBy | dsh/api/session-controller/lib/client.js:689-694 | The fragment-by-fragment comparison holds exactly if the text is the concatenation of the fragments. |
| PartialArguments.PartialArguments.Append | dsh/api/session-controller/lib/client.js:676-682 | A fragment extends the source and nothing else; a sealed view refuses it and stays as it is. |
| PartialArguments.PartialArguments.Settle | dsh/api/session-controller/lib/client.js:688-699 | The settled view is sealed over exactly the given text, so it answers like a view made from that text; the same view is kept exactly if its fragments spell the text. |
| PartialArguments.PartialArguments.StringBoundary | dsh/api/session-controller/lib/client.js:1001-1017 | From inside quotes the fast path stops at the first unescaped quote or the fragment end, with parity and decoding flag as stepping unit by unit would leave them. |
| PartialArguments.PartialArguments.ScanChunk | dsh/api/session-controller/lib/client.js:985-998 | Scanning one fragment advances the state to the index of the source up to its end, or to a failure inside it. |
| PartialArguments.PartialArguments.CatchUp | dsh/api/session-controller/lib/client.js:983-999 | After catching up, mode, key order, fields and position are those of the concatenated source, whatever the fragments and whatever was read between appends. |
| PartialArguments.PartialArguments.ReadToken | dsh/api/session-controller/lib/client.js:957-980 | The token at a position, read across fragment boundaries, is the token of the concatenated text. |
| PartialArguments.PartialArguments.ReadEscaped | dsh/api/session-controller/lib/client.js:943-980 | From any resumable position the escaped-string loop ends at the whole decoding, at its first bad escape, or where the requested number of units is reached. |
| PartialArguments.PartialArguments.ReadText | dsh/api/session-controller/lib/client.js:784-786 | The text of a field is a function of the source alone: the decoded string so far, or nothing when absent or no string. |
| PartialArguments.PartialArguments.ReadLength | dsh/api/session-controller/lib/client.js:833-848 | The length of a string field is the length of its decoded text, cached or not. |
| PartialArguments.PartialArguments.Exceeds | dsh/api/session-controller/lib/client.js:775-778 | Whether a string is longer than a limit is told exactly, although decoding stops behind the limit. |
| PartialArguments.PartialArguments.ReadPrefix | dsh/api/session-controller/lib/client.js:875-894 | The bounded prefix covers the first units of the decoded string up to the limit, whatever was read before. |
| PartialArguments.PartialArguments.Keys | dsh/api/session-controller/lib/client.js:822-824 | The discovered keys are those of the source in first-appearance order. |
| PartialArguments.PartialArguments.RangeOf | dsh/api/session-controller/lib/client.js:1133-1208 | A field's range is that of the source. |
| PartialArguments.PartialArguments.IsClosed | dsh/api/session-controller/lib/client.js:819-821 | Closed means sealed, or that the outer object of the source ended or failed. |
| PartialArguments.SameSourceSameState | dsh/api/session-controller/lib/client.js:643-661 | Fragmentation independence: two caught-up views over one source text have equal mode, order, fields, invalid position and nesting, however it was cut, appended and read. |
| PrintedMembers.ScannerReadsObject | dsh/api/session-controller/lib/client.js:1018-1208 | For every printed object (RFC 8259, section 4), scanning its text consumes all of it, ends closed, lists the distinct member names in first-appearance order, and gives each name the range of its last value. |
| PrintedMembers.ReadersMeetGrammar | dsh/api/session-controller/lib/client.js:784-874 | For every printed object and name, the text read is the meaning of the last member of that name if it is a string, and nothing otherwise; a value of another kind has exactly its printed text for range. |
| StreamedStrings.FrontIsShown | dsh/api/session-controller/lib/client.js:849-873 | Of a printed object that has arrived up to the middle of a string, a reader is shown the meaning of every whole piece of that string, the beginning of another piece being held back, and the complete members as they are. |
| StreamedStrings.TextGrows | dsh/api/session-controller/lib/client.js:849-873 | As more text arrives, the text shown of a string that is not begun anew only grows, and once the string has closed it stays. |
| FieldNames.FieldsAreMembers | dsh/api/session-controller/lib/client.js:1018-1208 | In any text, well-formed or not, every field found is a member: behind the opening brace or a comma the quoted name that means the key, a colon, and the value, which ends at its first unescaped quote, at the first unit that ends a literal, or with a closing bracket. |
| FieldNames.RefusedUnits | dsh/api/session-controller/lib/client.js:1018-1208 | In each mode, the units the scanner fails on are exactly those that cannot stand there. |
| HostStream.IndexCountsStream | dsh/api/session-controller/src/assistant-stream.ts:38-78 | Through any frames, gaps and restarts included, the next chunk index is the length of the held stream. |
| HostStream.GapHoldsNothing | dsh/api/session-controller/src/assistant-stream.ts:43-48 | After a skipped revision nothing is active until a start arrives. |
| HostStream.RestartForgets | dsh/api/session-controller/src/assistant-stream.ts:38-42 | After a start of revision 1 nothing that was folded before makes a difference. |
| HostStream.HoldsExactly | dsh/api/session-controller/src/assistant-stream.ts:38-78 | The attempt held after each kind of frame: a new empty one after a start in sequence or a restart, the held one with one chunk more after its next chunk, else none. |
| HostStream.SessionAssistantStreamAccumulator.Accept | dsh/api/session-controller/src/assistant-stream.ts:38-78 | The mutable accumulator moves as the Host fold does, and a clean cached baseline stays the baseline of the present state. |
| HostStream.SessionAssistantStreamAccumulator.Snapshot | dsh/api/session-controller/src/assistant-stream.ts:84-101 | The baseline returned is that of the present state, cached or rebuilt, and taking it changes no state. |
| ClientStream.ClientAssistantStream.Replace | dsh/api/session-controller/lib/client.js:2004-2039 | A replacement forgets pending and retained settlements, publishes the page's seqs and opens the baseline attempt with its shown members behind the cursor. |
| ClientStream.ClientAssistantStream.AcceptDurable | dsh/api/session-controller/lib/client.js:2045-2056 | A settlement of the open attempt waits unpublished, once; every other entry is published and retires a retained attempt whose step it ends. |
| ClientStream.ClientAssistantStream.AcceptFrame | dsh/api/session-controller/lib/client.js:2064-2130 | A frame opens, extends or closes the attempt, releases the one settlement it names, or asks for a new baseline. |
| Follower.FrameKeepsMirror | dsh/api/session-controller/lib/client.js:2064-2130 | After one frame client and Host hold the same attempt, or the client asks for a new baseline, if and only if an in-sequence frame does not name another attempt. |
| Follower.RunMirrors | dsh/api/session-controller/lib/client.js:2004-2130 | Through any run of such frames and commits, a client that has not asked for a new baseline holds the Host's attempt, next index and chunks. |
| Follower.ReconnectSimulation | dsh/api/session-controller/lib/client.js:430-470 | A client that opens from the Host's snapshot at any point and follows the rest ends with the attempt, next index and chunks of a client that saw every frame. |
| Follower.GapClearsBoth | dsh/api/session-controller/src/assistant-stream.ts:43-48 | A skipped revision makes the client reconnect, and the baseline it then gets holds no attempt. |
| Follower.Conservation | dsh/api/session-controller/lib/client.js:2045-2152 | Between replaces, accepted durable entries are at every time the disjoint union of published and pending, each published once, and an active and a retained attempt never coexist. |
| Follower.ReplacedConserves | dsh/api/session-controller/lib/client.js:2004-2039 | A replacement starts such a run: the page's seqs are published and nothing is pending. |
| Follower.EndStrands | dsh/api/session-controller/lib/client.js:2098-2129 | An end leaves settlements behind without asking for a new baseline if and only if it was committed at the expected index and names an already published seq while some wait, or one of several that wait, of the kind it says. |
| Follower.EndStrandsWitness | dsh/api/session-controller/lib/client.js:2110-2127 | Such a stranding happens: a concrete run of two settlements of one attempt, of which the end names the first. |
| Follower.StartNeverStrands | dsh/api/session-controller/lib/client.js:2065-2073 | After any run since a replacement, a start is accepted if and only if nothing is active or retained and every entry committed in the run was published and shown: what an end left behind is never passed over. |
| AttemptRuns.MessageShown | dsh/api/session-controller/lib/client.js:2040-2130 | A completed message appears behind the rows of its attempt, which are exactly its chunks in order, and which stay for now. |
| AttemptRuns.CompletedAttempt | dsh/api/session-controller/lib/client.js:2040-2151 | From the start to the end of its step, an attempt with a completed message leaves in the window the message and the end of the step, and the next attempt starts without a new baseline. |
| AttemptRuns.SettledAttempt | dsh/api/session-controller/lib/client.js:2040-2130 | Of an interrupted message or a failed attempt the window keeps just the entry that was committed. |
| AttemptRuns.AbandonedAttempt | dsh/api/session-controller/lib/client.js:2098-2103 | An abandoned attempt leaves the window as it was. |
| AttemptRuns.StepEndRetires | dsh/api/session-controller/lib/client.js:2136-2151 | The rows that were retained go exactly with the end of their attempt's step; any other entry is put behind them. |
| AttemptRuns.HeldBack | dsh/api/session-controller/lib/client.js:2045-2056 | A durable entry is held back if and only if it is an appended message or a failed attempt of the open attempt's turn and step, behind its start; every other one is shown at once. |
| AttemptRuns.BaselineAskedFor | dsh/api/session-controller/lib/client.js:2064-2130 | A frame makes the client ask for a new baseline if and only if it is out of sequence or does not fit what is active, retained or pending. |
| AttemptRuns.ShownIsPublished | dsh/api/session-controller/lib/client.js:2004-2152 | Through any run, the durable entries in the window are exactly those that count as published. |
| RowOwnership.RunStrays | dsh/api/session-controller/lib/client.js:2045-2152 | Rows that an end left behind stay: through any run, the attempts shown without being active or retained are those of before and the ones ends left. |
| RowOwnership.RowsHaveOwners | dsh/api/session-controller/lib/client.js:2098-2129 | From an opening on, every transient row shown is the active or the retained attempt's if and only if no end named an already published seq while rows of its attempt were shown. |
| RowOwnership.StrayWitness | dsh/api/session-controller/lib/client.js:2104-2110 | Such a row stays: an opening whose page already holds the settlement of its baseline's attempt. |
| Follower.WindowAscends | dsh/api/session-controller/lib/client.js:2039-2130 | Through every run of entries, frames and prepended older pages in which each end directly follows its settlement, the window stays strictly ascending, transient rows lying between the durable seqs. |
| Follower.OpenedOrdered | dsh/api/session-controller/lib/client.js:2018-2038 | A page in order opens to a window in order, its transient rows at cursor + 1 - 1/(n + 1). |
| Follower.FollowedSession.Accept | dsh/api/session-controller/lib/client.js:2703-2767 | The Session's fold and rope window move together as the follower model says, and a new baseline is asked for exactly when it decides so. |
| Follower.FollowedSession.PrependWindow | dsh/api/session-controller/lib/client.js:2769-2780 | An older page goes in front of the rows and leaves the assistant stream as it is. |
| EventWindow.Materialize | dsh/api/session-controller/lib/client.js:1710-1727 | The explicit-stack traversal of a rope gives its rows in order. |
| EventWindow.MutableSessionEventSource.ReplaceAll | dsh/api/session-controller/lib/client.js:1768-1774 | The window becomes the given list; the snapshot carries that list, the flag, the next revision and the change. |
| EventWindow.MutableSessionEventSource.PrependPage | dsh/api/session-controller/lib/client.js:1780-1786 | The window becomes the page followed by what it was. |
| EventWindow.MutableSessionEventSource.AppendRow | dsh/api/session-controller/lib/client.js:1791-1798 | The window becomes what it was followed by the row. |
| EventWindow.MutableSessionEventSource.Settle | dsh/api/session-controller/lib/client.js:1804-1817 | The window loses exactly the attempt's transient rows and gains its settlement in place by position. |
| EventWindow.InsertedAscends | dsh/api/session-controller/lib/client.js:1804-1817 | Putting a settlement in place keeps an ascending window ascending and adds exactly that row. |
| EventWindow.SettledAscends | dsh/api/session-controller/lib/client.js:1804-1817 | Settling any attempt keeps an ascending window ascending. |
| ProjectionStore.ProjectionValueStore.Apply | dsh/api/session-controller/lib/client.js:1598-1607 | A value lands exactly if no sequenced row with its seq or a later one holds the key; other keys stay. |
| ProjectionStore.ProjectionValueStore.ApplyCached | dsh/api/session-controller/lib/client.js:1616-1625 | Checkpoint values fill exactly the keys no sequenced row holds. |
| ProjectionStore.ProjectionValueStore.Seed | dsh/api/session-controller/lib/client.js:1636-1650 | A baseline drops cached rows, lands its values under the seq rule and clears the keys it omits unless they are newer. |
| ProjectionStore.ProjectionValueStore.Clear | dsh/api/session-controller/lib/client.js:1652-1657 | Everything of one Host generation goes. |
| ProjectionStore.LateFrameAfterSeed | dsh/api/session-controller/lib/client.js:1598-1650 | A key that a baseline cleared is created again by a late frame of a lower seq exactly if the baseline omitted it and no newer row holds it. |
| ProjectionStore.LandsExactly | dsh/api/session-controller/lib/client.js:1598-1625 | A carried value lands if and only if no sequenced row as new stands, a checkpoint's if and only if no sequenced row does; other keys stay. |
| ProjectionStore.SeedsExactly | dsh/api/session-controller/lib/client.js:1636-1650 | After a baseline no checkpoint's value is left, and of the omitted keys only those newer than it. |
| ProjectionStore.OrderDoesNotMatter | dsh/api/session-controller/lib/client.js:1598-1607 | The order in which values of different seqs arrive does not matter. |
| ProjectionReplication.ControlQueue.Push | dsh/api/session-controller/src/control.ts:87-93 | Frames queue in order until the stream ended; later ones are ignored. |
| ProjectionReplication.ControlQueue.Next | dsh/api/session-controller/src/control.ts:103-120 | Frames leave the queue in the order they were pushed, also after the end. |
| ProjectionReplication.StepSound | dsh/api/session-controller/lib/client.js:1598-1650 | Whatever source writes next, every sequenced row holds the Host's value at its seq, and every later change of a key since the control stream carries the Session is still on its way. |
| ProjectionReplication.RowsOnlyAdvance | dsh/api/session-controller/lib/client.js:1598-1650 | A surviving sequenced row's seq never decreases, and no cached value replaces it. |
| ProjectionReplication.RunSound | dsh/api/session-controller/src/control.ts:42-79 | This holds through any interleaving of Host events, control baselines and frames, late attachments, history seeds, sequenced and cached list blocks. |
| ProjectionReplication.Converged | dsh/api/session-controller/lib/client.js:3466-3518 | With nothing left in a control stream that began with a baseline of the Session, the sequenced rows are exactly the Host's projections. |
| ProjectionReplication.AttachedConverged | dsh/api/session-controller/src/control.ts:24-33 | Of a Session attached after the control stream was opened, a drained stream leaves a key as the Host has it if and only if its row is no older than the attachment, or shows what the key was then. |
| ProjectionReplication.ProjectionsConverge | dsh/api/session-controller/src/control.ts:42-120 | From an empty store, any run that leaves an open control stream drained ends with the store equal to the Host's projections, if the stream began with a baseline of the Session; if the Session was attached to it later, this holds of exactly the keys that `AttachedConverged` names. |
| Paging.Paginate | dsh/api/session-controller/src/history.ts:132-167 | The page is the contiguous range behind the one cut the two stop rules allow, and more history is announced exactly if the cut is not 0. |
| Paging.CutUnique | dsh/api/session-controller/src/history.ts:139-163 | The cut of a page is determined: 0 without a stop, else the last stopping event's turn start or its earliest source; and a page before a positive end is not empty. |
| Paging.PagesTile | dsh/api/session-controller/src/history.ts:132-167 | Pages read one before the other end, are never empty, and joined oldest first are exactly the prefix. |
| Paging.PageStopped | dsh/api/session-controller/src/history.ts:139-163 | A page that does not begin at the beginning holds its budget of messages, all sources of the one that fills it included, or begins at a turn start with messages and turns enough. |
| Paging.PageReachesBeginning | dsh/api/session-controller/src/history.ts:139-163 | A page reaches the beginning if it has fewer messages than its budget and no turn start has enough behind it. |
| Paging.PageOverBudget | dsh/api/session-controller/src/history.ts:154-163 | A page holds more messages than its budget if and only if the last stop is a message that fills the budget and cites a source with another message between the two. |
| Paging.PageOverBudgetWitness | dsh/api/session-controller/src/history.ts:154-163 | Such a page exists: one for a single message that holds two. |
| HistoryLoader.SessionHistory.AppendLive | dsh/api/session-controller/lib/client.js:2782-2790 | A live event extends log and window, also while pages are held back. |
| HistoryLoader.SessionHistory.LoadThrough | dsh/api/session-controller/lib/client.js:2521-2563 | A jump starts from the window's first seq, a running one is retargeted to the lesser seq, and otherwise nothing changes. |
| HistoryLoader.SessionHistory.LoadOlder | dsh/api/session-controller/lib/client.js:2502-2519 | One older page is asked for exactly if there is more history and no load is running. |
| HistoryLoader.SessionHistory.PageArrived | dsh/api/session-controller/lib/client.js:2541-2561 | The window stays a contiguous piece of the log, window replacements during the jump included; a jump holds pages back, goes on strictly backwards, and ends only when every seq asked for is covered or no history is left. |
| HistoryLoader.SessionHistory.InstallWindow | dsh/api/session-controller/lib/client.js:2718-2726 | A replaced window is the page; a running jump forgets its pages and counts from the new base. |
| HistoryLoader.SessionHistory.PageDropped | dsh/api/session-controller/lib/client.js:2541-2561 | A jump whose page was dropped by a replacement goes on from the new base exactly if that misses the target and is before the page asked for; it ends short of a seq it was asked for exactly if it misses the target and is not. |
| HistoryLoader.SessionHistory.PageFailed | dsh/api/session-controller/lib/client.js:2552-2561 | A failed read ends the load with the pages already held, which stay contiguous with the window. |
| HistoryLoader.JumpUndisturbed | dsh/api/session-controller/lib/client.js:2521-2563 | A jump that nothing disturbs ends, having reached its seq or the beginning of the log. |
| HistoryLoader.JumpCutShort | dsh/api/session-controller/lib/client.js:2541-2561 | Such an early end happens: a jump from a window at 2, replaced by one at 2, ends with its target 0 uncovered and more history. |
| InboxReceipts.EventKnows | dsh/api/session-controller/lib/client.js:2791-2829 | A receipt that tells the truth about the inbox still does after any further event is followed, insertions, removals and shifts in both lists included. |
| InboxReceipts.InboxKnows | dsh/api/session-controller/lib/client.js:2852-2862 | A projected inbox, older or newer than the followed events, never falsifies a receipt. |
| InboxReceipts.WindowKnows | dsh/api/session-controller/lib/client.js:2732-2737 | After a replaced window, following its events and then its inbox gives a truthful receipt from nothing. |
| InboxReceipts.ReceiptIsPosition | dsh/api/session-controller/lib/client.js:2791-2829 | Through any run of splices, projections of any age and window replacements, a followed receipt names a list and index if and only if the request's message is at that place. |
| Submissions.FateFollowsReceipt | dsh/api/session-controller/lib/client.js:2795-2808 | An open submission's receipt follows each event, it ends exactly on a canceled removal or when lost at a turn edge, and its first receipt accepts it. |
| Submissions.FateFollowsWindow | dsh/api/session-controller/lib/client.js:2718-2738 | An open submission that survives a replaced window has the receipt that following the window gives; one the baseline already covered does not survive. |
| Submissions.SubmissionLedger.BeginSubmission | dsh/api/session-controller/lib/client.js:2299-2323 | One echo and one settlement appear under the new identity; nothing is published or told. |
| Submissions.SubmissionLedger.AcceptPrompt | dsh/api/session-controller/lib/client.js:2390-2402 | The first proof of acceptance publishes the echo and tells the submitter; a later one changes nothing. |
| Submissions.SubmissionLedger.FinishSubmission | dsh/api/session-controller/lib/client.js:2891-2900 | The one removal point: echo and settlement go together and the owner is told once; the other echoes keep their order. |
| Submissions.SubmissionLedger.RetireFailedSubmission | dsh/api/session-controller/lib/client.js:2881-2886 | A submission that is neither retiring nor admitted fails at once; any other is untouched, and so is every other submission. |
| Submissions.SubmissionLedger.ScheduleObservedRetirement | dsh/api/session-controller/lib/client.js:2869-2879 | An observed submission latches once and waits for one frame. |
| Submissions.SubmissionLedger.RunFrame | dsh/api/session-controller/lib/client.js:2873-2878 | A frame always finds the settlement it was scheduled for, and retires it once. |
| Submissions.SubmissionLedger.ObserveInsertions | dsh/api/session-controller/lib/client.js:2816-2830 | Each submission learns the last place its message appeared at, unless it knows a later one, and is accepted by it. |
| Submissions.SubmissionLedger.FollowSplice | dsh/api/session-controller/lib/client.js:2793-2806 | Every receipt moves over the splice of its list; a canceled removal fails exactly the submissions it removed. |
| Submissions.SubmissionLedger.ObserveEvent | dsh/api/session-controller/lib/client.js:2791-2815 | An event does to every submission exactly what it means for that submission alone, and tells of a failure exactly the submitters whose submission it ended. |
| Submissions.SubmissionLedger.ObserveInbox | dsh/api/session-controller/lib/client.js:2852-2862 | A projected inbox places, retires queued echoes and settles admitted ones, each submission on its own. |
| Submissions.SubmissionLedger.InstallWindow | dsh/api/session-controller/lib/client.js:2718-2738 | A replaced window does to every submission what the baseline, the events and the inbox mean for it alone, tells of a failure exactly those it ended, and echoes keep their order. |
| SubmissionOutcomes.FailsExactly | dsh/api/session-controller/lib/client.js:2793-2830 | After any run of events, projections and windows since its submission, an open prompt fails at an event if and only if that cancels its message where it is in the inbox, or is a turn edge after its message, once seen, was removed to be processed. |
| SubmissionOutcomes.AdmittedExactly | dsh/api/session-controller/lib/client.js:2807-2815 | A prompt is admitted by the user message of its request and by nothing else, and then never fails. |
| SubmissionOutcomes.RetiredExactly | dsh/api/session-controller/lib/client.js:2843-2850 | An event retires a prompt as observed if and only if it is its user message and the inbox is as new as the removal; a window retires what it covers. |
| SubmissionOutcomes.InboxRetires | dsh/api/session-controller/lib/client.js:2851-2862 | A projected inbox retires the queued prompts it shows and the admitted ones it catches up with, and no others. |
| SubmissionOutcomes.AcceptedExactly | dsh/api/session-controller/lib/client.js:2816-2830 | An event accepts a prompt if and only if it inserts its message and no later sight of it is known. |
| OrderedMerge.MergeOrderedBaseline | dsh/api/session-controller/lib/client.js:561-585 | The splicing loop gives the merged order: survivors as shown before, each behind the new rows that directly precede it in the baseline, the rest at the end; its rows are the baseline's, once each. |
| OrderedMerge.MergeRows | dsh/api/session-controller/lib/client.js:561-585 | The merged order holds exactly the baseline's rows, once each. |
| OrderedMerge.SurvivorsKeepOrder | dsh/api/session-controller/lib/client.js:564-566 | The rows that were shown before keep their established relative order. |
| OrderedMerge.MergeIsBaseline | dsh/api/session-controller/lib/client.js:567-583 | The merge is the baseline if and only if the survivors' established order is the baseline's. |
| OrderedMerge.MergeIdempotent | dsh/api/session-controller/lib/client.js:561-585 | Merging the result with the same baseline again changes nothing. |
| MergeOrder.NewRowsTogether | dsh/api/session-controller/lib/client.js:567-583 | New rows that follow one another in the baseline do so in the merge, directly in front of the known row they precede there, or at the end. |
| MergeOrder.ShownKeepOrder | dsh/api/session-controller/lib/client.js:564-566 | Two rows that were shown and are still in the baseline are shown in the order they had. |
| Lineage.FlattenLineage | dsh/api/session-controller/lib/client.js:1406-1436 | The recursive walk with its visited set computes the flattening. |
| Lineage.FlattenOnce | dsh/api/session-controller/lib/client.js:1420-1434 | Every summary is shown exactly once, whatever its parent links, cycles included. |
| Lineage.FlattenPlaced | dsh/api/session-controller/lib/client.js:1427-1431 | Every indented row is linked to its own parent, which is the nearest earlier row one level up with nothing above that level between. |
| Lineage.FlattenDepths | dsh/api/session-controller/lib/client.js:1420-1433 | A summary whose parents lead to a root in n steps is at depth n. |
| Lineage.FlattenInOrder | dsh/api/session-controller/lib/client.js:1411-1433 | Siblings, and the true roots, appear in input order. |
| Lineage.ShownAtTop | dsh/api/session-controller/lib/client.js:1411-1419 | A Session that is no subagent, or whose parent is not listed, is shown at the top. |
| Lineage.ShownBelowParent | dsh/api/session-controller/lib/client.js:1411-1433 | A subagent whose listed parent leads to a root is shown one level below it. |
| JsonWalk.WalkJsonValue | dsh/api/session-controller/lib/client.js:1254-1346 | The explicit-stack walk ends on every finite graph, shared and cyclic ones included, and returns what the recursive walk with ancestors returns. |
| JsonMeaning.WalkIsUnfolding | dsh/api/session-controller/lib/client.js:1254-1354 | A value is accepted with a copy if and only if that copy is its finite JSON unfolding. |
| JsonMeaning.UnfoldsExactly | dsh/api/session-controller/lib/client.js:1265-1334 | Leaves unfold to themselves, an array to its elements if it has neither holes nor other properties, an object to its keys and values if JSON keeps them all; nothing else unfolds. |
| JsonMeaning.RefusesExactly | dsh/api/session-controller/lib/client.js:1272-1285 | A value is refused exactly if it reaches a leaf or node JSON cannot represent, or a cycle. |
| JsonMeaning.HolesRefused | dsh/api/session-controller/lib/client.js:1280-1334 | A hole in an array is refused even when an extra property makes the key count right; a lossless node passes both checks. |
| DeepFreeze.Freeze | dsh/api/session-controller/lib/client.js:1360-1396 | On any graph, cycles included, exactly the nodes reachable without passing an abort signal become frozen; others keep their state. |
| SessionList.ApplyOneRow | dsh/api/session-controller/lib/client.js:3638-3675 | A mutation changes the row it names as it would on its own, keeps every other row, and keeps one row per id. |
| SessionList.ReplayRows | dsh/api/session-controller/lib/client.js:3278-3278 | Replaying recorded mutations over a pulled list gives every row its own mutations in order. |
| SessionList.BlankNeverRises | dsh/api/session-controller/lib/client.js:3645-3674 | While a row is not removed, no mutation makes it blank again. |
| SessionFields.FieldsFollow | dsh/api/session-controller/lib/client.js:3638-3675 | Through any changes that do not remove a Session, it runs and has an Agent as was said last, was active when that was latest, keeps the first directory, parent and origin known, and is blank as long as nothing said otherwise. |
| SessionFields.RowsComeAndGo | dsh/api/session-controller/lib/client.js:3638-3664 | A row appears as its first summary says and goes with a removal. |
| SessionFields.RowsKeepPlace | dsh/api/session-controller/lib/client.js:3638-3664 | A new row comes first, a removed one leaves its place, and no other change moves a row. |
| SessionManager.SessionManager.RecordMutation | dsh/api/session-controller/lib/client.js:3432-3437 | A mutation takes effect at once and is kept for the pull in flight, in order. |
| SessionManager.SessionManager.RefreshList | dsh/api/session-controller/lib/client.js:3261-3268 | A running pull is joined; else a new one starts from the list as shown, also after disposal. |
| SessionManager.SessionManager.CompletePull | dsh/api/session-controller/lib/client.js:3269-3305 | The current pull gives the merged baseline with every mutation since it began replayed in order, and engages exactly the retained Sessions it reports as running that were not removed since; a superseded one changes nothing. |
| SessionManager.SessionManager.FailPull | dsh/api/session-controller/lib/client.js:3292-3304 | A failed pull ends only if it is the current one, and changes no row. |
| SessionManager.SessionManager.HandleConnected | dsh/api/session-controller/lib/client.js:3586-3590 | A new Host generation starts a fresh pull from the present list, whatever was in flight. |
| SessionManager.SessionManager.HandleSessionAdded | dsh/api/session-controller/lib/client.js:3491-3496 | An added running Session counts as engaged. |
| SessionManager.SessionManager.HandleSessionStatus | dsh/api/session-controller/lib/client.js:3549-3559 | A running Session counts as engaged from then on while it is retained. |
| SessionManager.SessionManager.HandleSessionActivity | dsh/api/session-controller/lib/client.js:3565-3571 | Activity advances the row's time and nothing else. |
| SessionManager.SessionManager.AddPlaceholder | dsh/api/session-controller/lib/client.js:3348-3370 | A created or forked Session is shown at once; an existing row only gains missing metadata. |
| SessionManager.SessionManager.OnEngaged | dsh/api/session-controller/lib/client.js:3136-3147 | An accepted prompt engages a retained Session once and lowers its row. |
| SessionManager.SessionManager.HandleSessionRemoved | dsh/api/session-controller/lib/client.js:3523-3535 | A removal drops the row, or only ends the run when an address, a catalog or the row shows a durable subagent; it forgets an engagement exactly if nothing retains the Session any more. |
| SessionManager.SessionManager.Drop | dsh/api/session-controller/lib/client.js:3061-3068 | Dropping the resident instance withdraws it, its address and an engagement that nothing else retains; dropping one that was replaced changes nothing. |
| SessionManager.SessionManager.Get | dsh/api/session-controller/lib/client.js:3108-3127 | An id has one instance at a time, made on first use. |
| SessionManager.SessionManager.Dispose | dsh/api/session-controller/lib/client.js:3073-3081 | Disposal supersedes the pull in flight and forgets residents and engagements; the rows stay. |
| SessionManager.SessionManager.NeverBlankAgain | dsh/api/session-controller/lib/client.js:3150-3152 | A Session seen running or accepted, and retained ever since, is not shown blank. |
| Retention.ClientSessions.RetentionCounts | dsh/api/session-controller/lib/client.js:4075-4090 | A live scope's count, the sum of its per-source counts and each of them are the numbers of its unreleased references, and the count is positive. |
| Retention.ClientSessions.RetainScope | dsh/api/session-controller/lib/client.js:4075-4103 | A retained scope gains one reference; without a live scope a new generation starts with just that one. |
| Retention.ClientSessions.Release | dsh/api/session-controller/lib/client.js:4085-4099 | A release gives up one reference once; the scope goes exactly with its last one, and a release of an ended generation changes no scope. |
| Retention.ClientSessions.RetireScope | dsh/api/session-controller/lib/client.js:4127-4136 | A scope that is ended from outside is gone once; no other generation is affected. |
| Creation.RunsAreSafe | dsh/api/session-controller/src/agent.ts:331-392 | Through any interleaving at the awaits, requests naming one identity start in arrival order, each after the last settled; every success has the requested directory; and no preset is selected after a turn started. |
| Creation.StepValid | dsh/api/session-controller/src/agent.ts:239-429 | Every segment between awaits, and everything the rest of the Host may do, keeps the queue order and what each suspended request relies on. |
| Creation.ReuseDecision | dsh/api/session-controller/src/agent.ts:394-425 | In the step that hands a stored Session to a request it is blank, of the requested directory and owned by no subagent, before and afterwards; it then runs the composed preset and has a live Agent without owner. |
| Creation.SelectionsOnBlank | dsh/api/session-controller/src/agent.ts:415-425 | A Session's log grows by a preset selection only while it is blank. |
| CreationOutcomes.RequestAlone | dsh/api/session-controller/src/agent.ts:331-432 | A request that nothing disturbs ends within seven segments, as the Session it names demands: stored, blank, placed and free or live it is reused under the resolved preset; not stored it is created; started, misplaced or held it is replaced by a new one; a subagent's, of another directory, or with a preset but no roster it is an error. |
| CreationOutcomes.CreateOutcome | dsh/api/session-controller/src/agent.ts:447-463 | Creation succeeds if and only if the identity is not stored yet, and then stores a Session with the requested directory, the composed preset, an empty log and a live Agent without owner. |
| CreationOutcomes.FailedForCause | dsh/api/session-controller/src/agent.ts:343-432 | Through any run, a request has failed if and only if it met one of the causes: a failed await, a subagent's Session, another directory, a preset without a roster, a taken identity. |
| CreationOutcomes.FallsBackExactly | dsh/api/session-controller/src/agent.ts:364-391 | A named request turns to a new identity if and only if its Session has started, is misplaced, or is written by another owner. |
| Creation.NeverStuck | dsh/api/session-controller/src/agent.ts:343-392 | Every suspended request finds the Session it counts on. |
| Creation.CloseBoundary | dsh/api/session-controller/src/agent.ts:343-413 | Closing a live Agent keeps what every suspended request relies on if and only if no request is about to reuse that Agent. |
| Creation.ClosedHandOut | dsh/api/session-controller/src/agent.ts:347-406 | A request whose Agent is closed before its preset is composed hands the Session out all the same, without a live Agent, if no change of preset is due. |
| Search.TruncateUnicodeCodePoints | dsh/api/session-controller/src/list.ts:66-75 | The loop gives the front of the text with at most the allowed number of code points. |
| Search.TruncatedIsLongest | dsh/api/session-controller/src/list.ts:66-75 | Truncation keeps the whole text if it is short enough, else a prefix cut between code points with exactly the allowed number. |
| Search.CountIsUnitsLessPairs | dsh/api/session-controller/src/list.ts:66-75 | A text has as many code points as units, each surrogate pair counting once. |
| Search.TruncatedSplitsNoPair | dsh/api/session-controller/src/list.ts:66-75 | Truncation never takes a surrogate pair apart. |
| Search.CollectedAll | dsh/api/session-controller/src/list.ts:269-282 | Collected Sessions are distinct, visible, and exactly those some page offered an eligible hit for. |
| Search.CollectedOffered | dsh/api/session-controller/src/list.ts:269-282 | Every collected item is that of an offered hit, its snippet cut to 240 code points. |
| Search.SearchSessions | dsh/api/session-controller/src/list.ts:202-295 | For every provider behaviour there are at most 100 calls, and visible Sessions and replies determine the outcome. The search fails if and only if the calls run out or the first call that does not go on is at fault: a page size refused behind a page or at 1, a stale cursor without one, another error, an oversized page, a cursor given before. Else that call brought a page that suffices, and the answer is the first 20 Sessions collected since the last stale-cursor restart. |
| Search.AnswerUnique | dsh/api/session-controller/src/list.ts:224-295 | Two answers to the same replies end at the same call and are the same. |
| Search.AnswerIsAll | dsh/api/session-controller/src/list.ts:255-295 | An answer without more to come lists exactly the eligible Sessions offered since the last restart, and the provider had no further page; one with more to come lists 20. |
| Search.HonestProviderAnswered | dsh/api/session-controller/src/list.ts:224-295 | A provider that keeps to the page size, gives no cursor twice and ends within the allowed calls is always answered. |
| BoundedLine.TruncatedIsPrefix | dsh/bundle/headless/src/json-stream.ts:51-56 | Truncated text is a prefix of the well-formed text within the byte cap, cut between code points; only a replacement character ending exactly there goes too. |
| BoundedLine.WholeIsMost | dsh/bundle/headless/src/json-stream.ts:51-56 | No longer prefix of whole code points fits the byte cap. |
| BoundedLine.BoundState.BoundValue | dsh/bundle/headless/src/json-stream.ts:58-99 | The recursive bounding with its shared flag gives the bounded value, and raises the flag exactly if something was cut. |
| BoundedLine.BoundIsCapped | dsh/bundle/headless/src/json-stream.ts:58-99 | In a bounded value every string and key is within the cap, but for the depth marker, and containers nest at most 64 deep. |
| BoundedLine.UncutSame | dsh/bundle/headless/src/json-stream.ts:58-99 | A value nothing was cut in comes back unmodified. |
| BoundedMeaning.BoundShortens | dsh/bundle/headless/src/json-stream.ts:58-99 | Bounding keeps every scalar and the shape of every container, cuts strings and keys to their longest fronts, lets the last of colliding keys win, and puts a mark in place of what is nested deeper than 64. |
| BoundedMeaning.FlagMeansChange | dsh/bundle/headless/src/json-stream.ts:58-99 | A value is changed by bounding if and only if the flag is raised for it. |
| BoundedLine.BoundJsonLine | dsh/bundle/headless/src/json-stream.ts:132-149 | The line is the serialization of the bounded event, of its scalars, or of its type, each with the flag when anything was dropped. |
| BoundedMeaning.LineForms | dsh/bundle/headless/src/json-stream.ts:132-149 | A line is the bounded event if that fits, else all its scalar members and the flag if those fit, else its type and the flag. |
| BoundedMeaning.PrintsAsJson | dsh/bundle/headless/src/json-stream.ts:137-148 | Every value is printed as the grammar of RFC 8259 has it, without white space. |
| BoundedMeaning.EscapedSpells | dsh/bundle/headless/src/json-stream.ts:137-148 | A string is spelled by pieces that denote its code points, none of them a line break or another control character. |
| BoundedLine.LineFits | dsh/bundle/headless/src/json-stream.ts:137-148 | A line with its newline stays within the cap if and only if the bounded event does or `type` alone with the flag does. |
| BoundedLine.LineTooLong | dsh/bundle/headless/src/json-stream.ts:17-20 | Under the default caps a line does exceed its cap: a `type` of 8192 control characters needs no cutting, and its escapes take six times as many bytes. |
| BoundedLine.LastResortShorter | dsh/bundle/headless/src/json-stream.ts:141-148 | The last resort is never longer than the scalars it is taken from. |
| BoundedLine.LineCapped | dsh/bundle/headless/src/json-stream.ts:132-149 | In each of the three forms a line keeps the caps on strings, keys and depth, its flag included. |
| BoundedLine.UnflaggedUnmodified | dsh/bundle/headless/src/json-stream.ts:132-149 | A line without `truncated` is the unmodified event. |


## Left out

- Parsed non-string values, `complete`, the content-error part of `invalid`, change detection between refreshes and views over parsed objects: `value`, `completeNow`, `remember`, `refresh` and `fromObject` are not modelled; the ranges they read from are.
- The current entry object of the scanner is named by its key; the aliasing of an entry held by the reader table is not modelled.
- The stream codec: an assistant stream is the list of members pushed into it; compaction and the safe-integer bound of its expansion are not part of this model.
- Follower.WindowAscends: says nothing of runs in which another entry or frame comes between a settlement and its end, because there transient rows keep positions below later durable ones; an older page is taken to lie before the window, as the Host's paging gives it.
- A follower that asked for a new baseline does nothing until it is opened again; the scheduling of that restart is not modelled.
- ProjectionReplication.ProjectionsConverge: does not cover a key table that changes within one generation, because the code does not converge there.
- Opening and resuming a history source (`openGeneration`, errors of the journal): the loaders are modelled within one generation; pages held by a jump whose generation ended are discarded by the code and not represented.
- InboxReceipts.ReceiptIsPosition: follows a submission until it is retiring or admitted, because a retiring one is no longer moved over insertions.
- Attachments, echo text, submission callbacks that call back into the ledger, and the notifier.
- The prompt call itself, first-prompt state and blank bit of one Session; the list-level engagement they lead to is modelled.
- SessionManager.SessionManager.NeverBlankAgain: counts what was seen while the Session was retained; an engagement noted for an id that nothing retains may be forgotten.
- Projection metadata that also lowers blankness, titles and the identity-stable entry cache of the list snapshot.
- Scope contexts, fibers, retain observers and the wait for an opening; a scope is its record and its references.
- Promise scheduling: a request's segments run at arbitrary times; that a settled predecessor is eventually noticed, and that a reclaim after a held writer ends, is not claimed.
- Creation.NeverStuck: a stored Session stays stored, since nothing in the modelled Host code deletes one; a removal from outside is not represented.
- The resume deduplication of `resolve`, image admission chains and model selection of the Agent controller.
- JsonWalk.WalkJsonValue: on accessors, proxies and foreign realms, a property read has no effect and a node's kind is given; the copy of a container is attached when its frame closes rather than when it opens.
- Abort signals, authorization failures and error texts of the search.
- BoundedLine: decoding a cut buffer is taken to give the whole code points and one replacement character for a split one; integer-like keys are not reordered.
- Step usage sums, `projectJsonRun` and the final event of the headless projection.
- Schemas, catalogs, file and media references, commands, archived-session gating, event-envelope validators.
