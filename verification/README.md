# awesometree, modelled and proved in Dafny

This project models the parts of awesometree whose correctness does not show from reading one function:
the text editor behind its input fields, the threads that measure workspace sizes, the supervisors that
restart processes, the workspace store and its allocators, agent lookup in memory and in SQL, capability
tokens, and a few codecs and loops. Each is a model of what the code does, branch by branch, and a set of
theorems about all inputs, all runs or all interleavings.

`dafny verify dfyconfig.toml` checks everything.

How the model is built:

- Code that updates fields is a class with those fields. Its methods state the new state as a function of
  the old one, and the theorems are about those functions and about runs of them.
- Threads and tasks are step protocols: a state, the steps each thread or task can take, and theorems over
  every sequence of steps. Where several branches of a wait are ready, each is a step.
- Foreign calls (files, processes, HTTP, the window manager, the clock, random ids) are outcomes handed in.
- A text is a sequence of Unicode scalar values; byte and UTF-16 offsets are sums of character widths.

| files | part |
|---|---|
| `UnicodeText`, `Utf16Offsets`, `WordMotion`, `Editor`, `TextInput` | the input field: offsets, word motion, the abstract editor, and the stored form that refines it |
| `SizeScan`, `CleanupView` | the size-scan threads and the window that shows their results |
| `RestartLoop`, `Supervisors` | the restart protocol, the supervisor object, and reconciliation for ACP and bezalel |
| `AgentLifecycle` | one agent from spawn to its last event, and the supervisor's shared channel |
| `Allocation`, `State`, `Lifecycle` | least-free search, the workspace store, up / provision / down / destroy |
| `ArpStore`, `AgentResolution` | the SQL tables, and the two agent resolvers against each other |
| `Auth` | tokens, attenuation, and the token service's own check |
| `Utf8Bytes`, `Utf8Lossy`, `Utf16Units`, `ChunkedBody` | UTF-8 as bytes, read strictly and lossily, UTF-16 as units, and the chunked-body decoder |
| `StructConversion`, `ContextBundle`, `Picker` | JSON and protobuf Struct, the context bundle, the fuzzy filter |

## What the proofs turned up

These hold of the code as it is; each is a theorem with an exact condition or a concrete run.

- Reconciliation can leave an eligible workspace without a process: when a workspace goes down and up again
  before its old task has ended, the pass sees the old entry and starts nothing
  (`RestartLoop.EligibleLostToPendingStop`). This is the only way, however the pass and the tasks interleave
  (`RestartLoop.SyncThenDrain`), and the next pass repairs it (`RestartLoop.SecondPassSettles`).
- A token of Session permission without a session, which the token service mints, reaches no agent; the token
  an agent spawned with it is given does reach agents, those of its new session (`TokenService.SpawningCanWiden`).
  Along every other chain of derivations nothing widens (`Auth.ChainNeverWidens`, `Auth.HandingOnWidens`).
- The ACP supervisor writes its port into the store after each spawn, also for a workspace that has gone down
  meanwhile; two active workspaces can then end up on one port (`Lifecycle.LateAcpWriteDuplicatesPort`,
  exact condition in `Lifecycle.AcpWriteKeepsInv`).
- The SQL resolver orders by id, the in-memory one by position in the workspace's list. With two live agents
  of one name and readiness in a workspace they can disagree under every map order
  (`AgentResolution.QueryCanDisagree`); they do unless the best candidate is also the first of its kind in its
  workspace's list (`AgentResolution.QueryAllowedExactly`).
- Provisioning a workspace that is not active gives an inactive workspace a port
  (`Lifecycle.ProvisionKeepsInv`). Every caller activates first.
- Completing a task with the status 'working' makes it active again (`ArpStore.ActiveTasksFromHistory`).
- A size line with a chunk extension silently ends the body, where section 7.1.1 of RFC 9112 asks a recipient
  to ignore extensions it does not know. Each chunk is decoded by itself, so a character cut by a chunk, as
  section 7.1 allows, comes out as replacement characters (`ChunkedBody.SplitCharacterIsLost`). A text without
  U+FFFD is read whole exactly when neither happens (`ChunkedBody.WholeBodyExactly`), and without extensions any
  text is exactly when no character is cut (`ChunkedBody.ChunkedRoundTrip`). Input that ends after a chunk,
  without the last one, passes for a whole body (`ChunkedBody.ReadsThatFail`).
- While something is being composed, a deletion or a cut takes out what is composed, not the character before
  the cursor or the selection (`Editor.DeletionsTakeTheirSide`). A cut still copies the selection, so pasting
  doubles it and the composed text is lost (`Editor.CutLosesComposition`, `Editor.CutThenPasteRestores`).
- Composing with a new selection asked for adds the old end of the replaced range to that selection's end, and
  counts from the start of the whole text. Even one letter composed over another with the caret after it leaves a
  selection that ends past the text (`TextInput.CaretAfterCompositionLeavesText`). With one-byte characters the
  end is where it was asked for exactly when nothing was replaced (`TextInput.SelectionLands`), and inside the
  text exactly when enough bytes follow (`TextInput.CaretFits`); with wide ones before it even the start can be
  wrong (`TextInput.WideTextShiftsSelection`).
- Agent ids end in 32 random bits and are not checked for being taken. A second agent of one id takes over the
  entry, so stops no longer reach the first, and whichever ends first removes the entry of both
  (`AgentLifecycle.TakenIdHidesLife`).
- An edit given a UTF-16 range in the wrong order keeps all offsets valid but repeats the text between its ends;
  reading the text of such a range fails (`TextInput.TextForRange`).
- The comments on agent lookup speak of preferring ready over busy; the code prefers ready over every other
  live status, and the model follows the code.

## Model

| member | source | states |
|---|---|---|
| Utf8Bytes.SplitIsContinuation | src/text_input.rs:436-438 | the widths summed into offsets are those of the UTF-8 bytes, and an offset is not a slicing boundary exactly when a continuation byte stands there (section 3 of RFC 3629) |
| Utf16Units.DecodeOfUnits | src/text_input.rs:323-347 | characters written as UTF-16 units, in surrogate pairs where needed, decode to themselves (section 2.1 of RFC 2781) |
| Utf16Units.SplitIsTrailing | src/text_input.rs:328-332 | the widths summed into unit offsets are those of the UTF-16 units, and an offset is inside a character exactly when a trailing surrogate stands there |
| Utf16Units.PairSplitAtTrailing | src/text_input.rs:323-334 | the offsets that round up in a round trip are exactly those before a trailing surrogate |
| UnicodeText.IndexIsLeast | src/text_input.rs:323-347 | where both conversion loops stop: the first position whose offset reaches the one asked for |
| UnicodeText.BoundariesAreOffsets | src/text_input.rs:436-438 | the byte offsets a slice may be taken at are exactly the offsets of character positions |
| Utf16Offsets.OffsetFromUtf16 | src/text_input.rs:323-334 | the loop computes the byte offset of the first position that takes at least that many units |
| Utf16Offsets.OffsetToUtf16 | src/text_input.rs:336-347 | the loop computes the unit offset of the first position that takes at least that many bytes |
| Utf16Offsets.FromToIsIdentity | src/text_input.rs:349-355 | a byte boundary survives the trip to UTF-16 and back |
| Utf16Offsets.FromLandsOnBoundary | src/text_input.rs:353-355 | a converted unit offset is always a byte boundary inside the text |
| Utf16Offsets.ToFromRoundsUp | src/text_input.rs:323-347 | an in-range unit offset comes back as itself, or one more exactly when it splits a surrogate pair |
| Utf16Offsets.ConversionsMonotone | src/text_input.rs:323-355 | both conversions preserve order |
| Utf16Offsets.ConversionsSaturate | src/text_input.rs:323-347 | past the end both conversions give the end |
| WordMotion.NextWordIsLeast | src/text_input.rs:791-808 | the position after a word motion right is the least word start after the offset, else the end |
| WordMotion.PrevWordIsGreatest | src/text_input.rs:772-789 | the position after a word motion left is the greatest word start before the offset, else 0 |
| WordMotion.PrevWord | src/text_input.rs:772-789 | word motion left strictly progresses, except at 0 |
| WordMotion.NextWord | src/text_input.rs:791-808 | word motion right strictly progresses, except at the end |
| WordMotion.PrevOfNextWord | src/text_input.rs:772-808 | from a word start, right then left returns to it |
| WordMotion.NextOfPrevWord | src/text_input.rs:772-808 | from a word start after 0, left then right returns to it |
| WordMotion.PreviousWordBoundary | src/text_input.rs:772-789 | the two backward loops over bytes find that greatest word start, on a boundary |
| WordMotion.NextWordBoundary | src/text_input.rs:791-808 | the two forward loops over bytes find that least word start, on a boundary |
| WordMotion.MaximalRunUnique | src/text_input.rs:810-828 | the range found by scanning both ways is the one maximal non-space run touching the offset |
| WordMotion.WordsStartRuns | src/text_input.rs:772-828 | the word starts of the motions are exactly the starts of those runs |
| UnicodeText.WhitespaceIs | src/text_input.rs:776-823 | the 25 characters taken for white space |
| WordMotion.WordRangeAt | src/text_input.rs:810-828 | both loops compute the ends of that run, ordered and on boundaries |
| Editor.PrevBelowIsGreatest | src/text_input.rs:357-363 | the previous cut found is the nearest one before the cursor |
| Editor.NextAboveIsLeast | src/text_input.rs:365-370 | the next cut found is the nearest one after the cursor |
| Editor.Apply | src/text_input.rs:106-321 | every action keeps anchor, cursor and composed range inside the text |
| Editor.MotionsGoTheirWay | src/text_input.rs:118-184 | a motion changes only the cursor, collapses the selection, goes to the named end of a selection and otherwise strictly its own way |
| Editor.MotionsStopAtNearest | src/text_input.rs:118-184 | from a bare cursor a motion stops at the nearest cut or word start on its side, else at that end of the text |
| Editor.ExtensionsFollowMotions | src/text_input.rs:150-184 | an extension puts the cursor where the motion of its name puts a bare one: on its named side, strictly unless at that end, with no cut or word start passed over; SelectToHome and SelectToEnd at 0 and the end; nothing else changes |
| Editor.WholesAreSelected | src/text_input.rs:166-169 | select-all and a triple click select the whole text, a double click exactly the word under the mouse, cursor behind |
| Editor.MouseDrags | src/text_input.rs:220-255 | a press puts the cursor under the mouse, the anchor too unless shift is held; moving extends until the release |
| Editor.CopyTakesSelection | src/text_input.rs:263-269 | a copy changes the clipboard alone, to the selection if there is one |
| Editor.ValueIsSet | src/text_input.rs:106-112 | a new value leaves a bare cursor behind it and nothing composed; pasting nothing changes nothing |
| Editor.RangesAreReplaced | src/text_input.rs:424-472 | an edit of the characters between two positions, named by UTF-16 offsets, puts the new text there and the cursor behind it, composed or not |
| Editor.TargetsAreReplaced | src/text_input.rs:424-472 | without a range what is composed is edited, else the selection, by pasting, typing and composing alike |
| Editor.DeletionsTakeTheirSide | src/text_input.rs:187-217 | while something is composed, a deletion takes out exactly that; else the selection, or what lies between a bare cursor and where the motion of its name goes; nothing else in any case |
| Editor.ExtendingKeepsAnchor | src/text_input.rs:150-184 | any run of selection-extending actions changes nothing but the cursor end |
| Editor.CutThenPaste | src/text_input.rs:257-278 | cut then paste puts the copied selection, line breaks made spaces, where the cut took its text: the composed range if there is one, else the selection |
| Editor.CutThenPasteRestores | src/text_input.rs:257-278 | the text comes back exactly when what the cut took out reads as what it copied with line breaks made spaces |
| Editor.CutLosesComposition | src/text_input.rs:271-278 | a concrete state with a selection and something composed: cut then paste loses what was composed and doubles the selection |
| Editor.InsertThenDeleteRestores | src/text_input.rs:424-444 | with a bare cursor and nothing composed, an insertion is undone by replacing its UTF-16 range with nothing |
| Editor.CompositionLeavesNoTrace | src/text_input.rs:446-472 | what is shown while composing is replaced without trace by what is composed or committed next |
| TextInput.TextForRange | src/text_input.rs:386-396 | reading a UTF-16 range fails exactly when its ends map to bytes in the wrong order, and else gives the characters between them |
| TextInput.TextInput.Abs | src/text_input.rs:310-321 | a stored range plus a reversed flag stand for an anchor and a cursor, always a proper editor state |
| TextInput.TextInput.MoveTo | src/text_input.rs:280-283 | sets anchor and cursor |
| TextInput.TextInput.SelectTo | src/text_input.rs:310-321 | keeps the anchor and moves only the cursor, whichever way the range is stored |
| TextInput.TextInput.TargetRange | src/text_input.rs:431-435 | an edit replaces the given range, else the composed one, else the selection |
| TextInput.TextInput.ReplaceTextInRange | src/text_input.rs:424-444 | replaces that range of characters in any UTF-16 range, well ordered or not; ends the composition |
| TextInput.TextInput.ReplaceAndMarkTextInRange | src/text_input.rs:446-467 | the same, and composes exactly the new text, with no new selection asked for |
| TextInput.TextInput.ReplaceAndMarkSelecting | src/text_input.rs:446-476 | with a new selection asked for: the bytes it ends up at, and that the fields stay valid exactly when both of its ends, counted on by the old ends of the replaced range, fall on boundaries of the text |
| TextInput.OneByteFits | src/text_input.rs:468-472 | with one-byte characters that is so exactly when the count does not go past the end of the text |
| TextInput.CaretFits | src/text_input.rs:468-472 | so the caret may be asked for after the new text exactly when at least as many bytes follow it as were replaced |
| TextInput.SelectionLands | src/text_input.rs:468-472 | with the new text at the front, or all characters of one byte, a selection starts where it was asked for and ends there exactly when nothing was replaced |
| TextInput.WideTextShiftsSelection | src/text_input.rs:468-472 | a concrete text whose wide character puts even the start of the selection past the end |
| TextInput.CaretAfterCompositionLeavesText | src/text_input.rs:468-472 | a concrete composition, one letter over another with the caret after it, whose selection ends past the text |
| TextInput.TextInput.PreviousBoundary | src/text_input.rs:357-363 | searching cut offsets in bytes is searching cut positions |
| TextInput.TextInput.NextBoundary | src/text_input.rs:365-370 | searching cut offsets in bytes is searching cut positions |
| TextInput.TextInput.Left | src/text_input.rs:118-124 | acts on bytes as the editor does on characters; keeps the fields valid |
| TextInput.TextInput.Right | src/text_input.rs:126-132 | acts on bytes as the editor does on characters; keeps the fields valid |
| TextInput.TextInput.WordLeft | src/text_input.rs:134-140 | acts on bytes as the editor does on characters; keeps the fields valid |
| TextInput.TextInput.WordRight | src/text_input.rs:142-148 | acts on bytes as the editor does on characters; keeps the fields valid |
| TextInput.TextInput.SelectLeft | src/text_input.rs:150-152 | acts on bytes as the editor does on characters; keeps the fields valid |
| TextInput.TextInput.SelectRight | src/text_input.rs:154-156 | acts on bytes as the editor does on characters; keeps the fields valid |
| TextInput.TextInput.SelectWordLeft | src/text_input.rs:158-160 | acts on bytes as the editor does on characters; keeps the fields valid |
| TextInput.TextInput.SelectWordRight | src/text_input.rs:162-164 | acts on bytes as the editor does on characters; keeps the fields valid |
| TextInput.TextInput.SelectAll | src/text_input.rs:166-169 | acts on bytes as the editor does on characters; keeps the fields valid |
| TextInput.TextInput.Home | src/text_input.rs:171-173 | acts on bytes as the editor does on characters; keeps the fields valid |
| TextInput.TextInput.End | src/text_input.rs:175-177 | acts on bytes as the editor does on characters; keeps the fields valid |
| TextInput.TextInput.SelectToHome | src/text_input.rs:179-181 | acts on bytes as the editor does on characters; keeps the fields valid |
| TextInput.TextInput.SelectToEnd | src/text_input.rs:183-185 | acts on bytes as the editor does on characters; keeps the fields valid |
| TextInput.TextInput.Backspace | src/text_input.rs:187-192 | acts on bytes as the editor does on characters; keeps the fields valid |
| TextInput.TextInput.Delete | src/text_input.rs:194-199 | acts on bytes as the editor does on characters; keeps the fields valid |
| TextInput.TextInput.DeleteWordLeft | src/text_input.rs:201-206 | acts on bytes as the editor does on characters; keeps the fields valid |
| TextInput.TextInput.DeleteWordRight | src/text_input.rs:208-218 | acts on bytes as the editor does on characters; keeps the fields valid |
| TextInput.TextInput.OnMouseDown | src/text_input.rs:220-245 | acts on bytes as the editor does on characters; keeps the fields valid |
| TextInput.TextInput.OnMouseUp | src/text_input.rs:247-249 | acts on bytes as the editor does on characters; keeps the fields valid |
| TextInput.TextInput.OnMouseMove | src/text_input.rs:251-255 | acts on bytes as the editor does on characters; keeps the fields valid |
| TextInput.TextInput.Paste | src/text_input.rs:257-261 | acts on bytes as the editor does on characters; keeps the fields valid |
| TextInput.TextInput.Copy | src/text_input.rs:263-269 | acts on bytes as the editor does on characters; keeps the fields valid |
| TextInput.TextInput.Cut | src/text_input.rs:271-278 | acts on bytes as the editor does on characters; keeps the fields valid |
| TextInput.TextInput.SetValue | src/text_input.rs:106-112 | acts on bytes as the editor does on characters; keeps the fields valid |
| TextInput.TextInput.UnmarkText | src/text_input.rs:420-422 | acts on bytes as the editor does on characters; keeps the fields valid |
| TextInput.TextInput.Replay | src/text_input.rs:106-476 | any run of actions keeps every offset ordered, in range and on a boundary, and ends where the same run of the editor ends |
| SizeScan.StepKeepsCount | src/cleanup_ui.rs:120-137 | in every interleaving the counter is the number of threads between increment and decrement, at most three |
| SizeScan.StepKeepsLock | src/cleanup_ui.rs:120-137 | one thread at a time is inside the mutex |
| SizeScan.StepKeepsWake | src/cleanup_ui.rs:121-137 | while a thread sleeps, counted and in-flight threads are at least three |
| SizeScan.StepKeepsResults | src/cleanup_ui.rs:129-130 | a job's result is logged once its thread has pushed, and once only |
| SizeScan.BoundAndNoLostWakeup | src/cleanup_ui.rs:111-144 | in every reachable state at most three scan; mutex free and a sleeper present, running and woken threads are at least three |
| SizeScan.SomeThreadCanStep | src/cleanup_ui.rs:119-143 | no deadlock: until all are done some thread can step without a spurious wake-up |
| SizeScan.ScanLength | src/cleanup_ui.rs:119-143 | threads take at most twelve steps a job, and two more for each spurious wake-up |
| SizeScan.ScanCompletes | src/cleanup_ui.rs:111-144 | a run that can go no further has finished all threads, with every job's result logged exactly once |
| SizeScan.SleepersMayWake | src/cleanup_ui.rs:122-124 | a sleeping thread may wake for no reason and then has to look at the counter again |
| CleanupView.CleanupView.StartSizeScan | src/cleanup_ui.rs:82-104 | one job for each entry whose directory exists; the others stop spinning |
| CleanupView.CleanupView.DrainResults | src/cleanup_ui.rs:171-179 | every waiting result goes to the first entry of its name, in order; the log is emptied |
| CleanupView.StartOk | src/cleanup_ui.rs:53-104 | a scan begins with exactly the entries spinning that have a job |
| CleanupView.StepKeepsInv | src/cleanup_ui.rs:149-179 | through threads, polls and deletions: an entry spins until its job's result is drained, and then shows that result |
| CleanupView.OnlyDeletionRemoves | src/cleanup_ui.rs:149-293 | a deletion takes exactly the named entries off the list; threads and polls take none |
| CleanupView.PollingStopsWhenDrained | src/cleanup_ui.rs:154-165 | the polling condition holds exactly while some listed job's result has not been drained |
| CleanupView.ScanEndsSpinning | src/cleanup_ui.rs:149-179 | in every run, once the threads are done the next poll leaves no spinner and every measured size shown |
| RestartLoop.EndingLoop | src/acp_supervisor.rs:59-102 | one event of a signalled loop: at most one spawn and eight events are left, and each uses one up |
| RestartLoop.LoopGoesOn | src/acp_supervisor.rs:59-102 | a loop can go on until it is left; not told to stop, it spawns again after an exit or a failed spawn and the delay; a stop taken while waiting leaves at once, one taken while running ends the child first |
| RestartLoop.OutcomesAreOpen | src/acp_supervisor.rs:59-102 | spawns may work or fail, children exit while they live, and of several ready branches any may be taken |
| RestartLoop.RunKeepsInv | src/acp_supervisor.rs:30-113 | that correspondence is kept from every state that has it, over every run |
| RestartLoop.ReachableOk | src/acp_supervisor.rs:30-113 | from an empty supervisor, over every run, map entries and live tasks match one to one and a task has at most one live child |
| RestartLoop.StopTerminates | src/acp_supervisor.rs:59-113 | after a stop, from every state of the loop and every choice of ready branch: at most one further spawn, at most eight moves, never stuck, and the entry goes with the task |
| RestartLoop.StopAllDoomsAll | src/acp_supervisor.rs:115-121 | stopping all dooms every task |
| RestartLoop.DrainExists | src/bezalel_supervisor.rs:66-109 | from every state there is a run in which all signalled tasks end and nothing else does |
| RestartLoop.SyncThenDrain | src/acp_supervisor.rs:213-267 | whatever tasks do before, between and after the calls of a pass: once all signalled tasks are gone, what runs is to be kept, and all that is eligible runs exactly when no eligible workspace had a task on its way out as the pass began |
| RestartLoop.SecondPassSettles | src/acp_supervisor.rs:213-279 | the pass after that, interleaved with tasks in any way, leaves all that is eligible running, and a third pass starts and stops nothing and keeps every entry |
| RestartLoop.SyncIsStable | src/acp_supervisor.rs:227-266 | a pass over a settled supervisor starts and stops nothing, and every entry stays while its task restarts |
| RestartLoop.PassExists | src/acp_supervisor.rs:213-267 | from every state there is a run that makes a pass and drains it |
| RestartLoop.EligibleLostToPendingStop | src/acp_supervisor.rs:235-256 | a concrete run: stop, pass, drain leaves an eligible workspace without a process |
| Supervisor.Supervisor.Start | src/acp_supervisor.rs:30-49 | starts a task only when there is no entry |
| Supervisor.Supervisor.Stop | src/acp_supervisor.rs:108-113 | stores one permit on the entry's signal, if there is an entry |
| Supervisor.Supervisor.StopAll | src/acp_supervisor.rs:115-121 | stores a permit on every entry's signal and changes nothing else |
| Supervisor.Supervisor.RunningWorkspaces | src/acp_supervisor.rs:127-129 | lists exactly the keys of the map |
| Supervisor.Supervisor.Step | src/acp_supervisor.rs:59-102 | one event of one task's loop, as the protocol has it |
| Supervisor.Supervisor.Finish | src/acp_supervisor.rs:104-104 | removes the task and its entry |
| AcpSupervisor.SyncWorkspaces | src/acp_supervisor.rs:213-267 | both loops, in any map order and with any task moves between their steps, make one pass for active workspaces with a directory, an enabled project and a port |
| AcpSupervisor.SyncReconciles | src/acp_supervisor.rs:213-267 | after a pass in any interleaving and its drain: running implies active; all eligible run exactly when none had a task ending |
| AcpSupervisor.PassIsExact | src/acp_supervisor.rs:235-265 | a pass starts exactly the active workspaces without an entry that have a directory, a port and a loaded project with ACP enabled, and stops exactly the running ones that are not active |
| AcpSupervisor.BroughtUpIsStarted | src/acp_supervisor.rs:235-256 | a workspace just brought up is started exactly when it has a directory and a port and its project has ACP enabled |
| AcpSupervisor.TakenDownIsStopped | src/acp_supervisor.rs:258-266 | a workspace taken down is never started, and stopped if it runs |
| AcpSupervisor.UpIsNotStopped | src/acp_supervisor.rs:258-266 | a workspace that is up is never stopped |
| BezalelSupervisor.SyncWorkspaces | src/bezalel_supervisor.rs:211-255 | the same for active headless workspaces with a directory, a port and a token |
| BezalelSupervisor.SyncReconciles | src/bezalel_supervisor.rs:211-255 | after a pass in any interleaving and its drain: running implies active and headless; all eligible run exactly when none had a task ending |
| BezalelSupervisor.PassIsExact | src/bezalel_supervisor.rs:225-254 | a pass starts exactly the active headless workspaces without an entry that have a directory, a port and a token, and stops exactly the running ones that are not active or not headless |
| BezalelSupervisor.BroughtUpIsStarted | src/bezalel_supervisor.rs:225-245 | a workspace brought up headless while a port is free is started exactly when it has a directory; one first brought up otherwise is not |
| BezalelSupervisor.NotHeadlessIsStopped | src/bezalel_supervisor.rs:246-254 | a workspace taken down, or then up but not headless, is never started, and stopped if it runs |
| State.Store.SetActive | src/state.rs:166-179 | creates or overwrites the entry's activation fields and keeps the others |
| State.Store.SetInactive | src/state.rs:181-193 | resets everything but project and agents, if the entry exists |
| State.Store.SetBezalel | src/state.rs:196-202 | marks headless and records port and token, if the entry exists |
| State.Store.Remove | src/state.rs:204-206 | drops the entry |
| State.Store.AllocateTagIndex | src/state.rs:236-253 | the loop returns the entry's tag or the least free one |
| State.Store.AllocateAcpPort | src/state.rs:255-276 | the loop returns the entry's port or the least free one in range |
| State.Store.AllocateBezalelPort | src/state.rs:288-308 | the loop returns the entry's port or the least free available one in range |
| State.Store.AllocateAgentPort | src/state.rs:321-340 | the loop returns the least free available port |
| State.FreshTag | src/state.rs:242-252 | a fresh tag is the least one from ten no active workspace holds, and at most ten plus their number |
| State.FreshAcpPort | src/state.rs:261-275 | a fresh ACP port is the least one not held; there is none only when all hundred are, by at least a hundred active workspaces |
| State.FreshBezalelPort | src/state.rs:294-307 | a fresh bezalel port is the least one neither held nor unavailable; failure means the range is exhausted |
| State.FreshAgentPort | src/state.rs:322-339 | an agent port is the least one neither held, as ACP or agent port of an active workspace, nor unavailable; failure means the range is exhausted |
| Lifecycle.Manager.Up | src/workspace.rs:59-105 | a failed worktree changes nothing; else tag, port, activation and provisioning are composed in order, and saved if saving works |
| Lifecycle.Manager.ProvisionBezalel | src/workspace.rs:250-263 | records the port, with the token kept or fresh, and returns both; nothing when the range is exhausted |
| Lifecycle.Manager.Down | src/workspace.rs:107-145 | deactivates in memory always, on disk if saving works; errors do not undo it |
| Lifecycle.Manager.Destroy | src/workspace.rs:219-225 | deactivates, saves, removes, saves; reports any failure |
| Lifecycle.Manager.Replay | src/workspace.rs:59-225 | the manager's methods and the other writers of the file, performed in any order with any failure of each, go through exactly the runs the next theorem speaks of |
| Lifecycle.Manager.AcpWrite | src/acp_supervisor.rs:166-179 | the ACP supervisor's write to the file: the port always, the URL only if there was none |
| Lifecycle.Manager.ServeUp | src/server.rs:369-384 | a request handler brings a workspace up in a store of its own and saves it |
| Lifecycle.Manager.ServeRemove | src/server.rs:417-428 | a request handler removes a workspace in a store of its own and saves it |
| Lifecycle.NumbersStayApart | src/workspace.rs:59-225 | over every run of load, up, provision, down and destroy, of request handlers, and of supervisor writes that fit, with any failures: active workspaces hold distinct tags from ten, distinct ACP ports and distinct bezalel ports in range; inactive ones hold none, in memory and on disk |
| Lifecycle.NumbersAreInRange | src/state.rs:105-109 | in numbers: tags from 10, ACP ports 9100 to 9199, bezalel ports 9200 to 9299, none while inactive |
| Lifecycle.FirstNumbers | src/state.rs:236-308 | the first workspace gets tag 10 and ports 9100 and, if available, 9200 |
| Lifecycle.ProvisionKeepsInv | src/workspace.rs:250-263 | provisioning keeps that exactly for a workspace that is unknown or active, or when there is no port |
| Lifecycle.UpKeepsInv | src/workspace.rs:71-104 | bringing up keeps it and leaves the workspace active |
| Lifecycle.UpIsAsAsked | src/workspace.rs:59-105 | bringing up gives the project, directory and URL asked for, keeps tag, port, agents and session if there were any, and leaves other workspaces alone |
| Lifecycle.HeadlessGetsBezalel | src/workspace.rs:100-102 | a headless request with a free port gives port and token, those of before or new ones; any other request changes neither |
| Lifecycle.DownKeepsLittle | src/state.rs:181-193 | a workspace taken down keeps its project and agents and nothing else |
| Lifecycle.DownForgets | src/workspace.rs:107-118 | down and up again comes to bringing it up for the first time, but for its agents |
| Lifecycle.EffectInMemory | src/workspace.rs:59-225 | what each operation achieves in memory, whatever it manages to save |
| Lifecycle.EffectOnDisk | src/workspace.rs:59-225 | what reaches the disk: the store in memory when saved, else what was there, or half of a destruction |
| Lifecycle.AcpWriteKeepsInv | src/acp_supervisor.rs:166-179 | the supervisor's own write keeps it exactly when the workspace is gone, or up with the port in range and to itself |
| Lifecycle.AcpWriteTouchesLittle | src/acp_supervisor.rs:166-175 | that write sets the port, the URL only if there was none, and nothing else |
| Lifecycle.OwnPortFits | src/acp_supervisor.rs:166-179 | which holds as long as the workspace still has the port its process was started on |
| Lifecycle.LateAcpWriteDuplicatesPort | src/acp_supervisor.rs:166-179 | a concrete run in which that write, made after a workspace went down, leads to two active workspaces on one port |
| AgentResolution.FindAgent | src/state.rs:342-351 | the nested loops return the first agent with that id in visiting order |
| AgentResolution.FindAgentByName | src/state.rs:355-378 | the nested loops compute the fold that replaces its best only by a ready agent over one that is not |
| AgentResolution.FindAgentByWsName | src/state.rs:382-408 | the same within one workspace |
| AgentResolution.ResolveAgentFlexible | src/state.rs:416-437 | by id, then by workspace and name around the first slash, then by name |
| AgentResolution.FirstExists | src/arp_store.rs:309-329 | the ordered queries have a first row whenever they have one |
| AgentResolution.NameLookupOutcomes | src/state.rs:355-378 | the results of a name lookup over all hash-map orders: the pick of any workspace, ready if any pick is |
| AgentResolution.SameStage | src/arp_store.rs:291-307 | both resolvers answer at the same stage, whatever the order |
| AgentResolution.NoneAgrees | src/arp_store.rs:291-329 | for equal agents the query finds nothing exactly when the fold does, under any order |
| AgentResolution.QueryAllowedExactly | src/arp_store.rs:291-329 | the query's result is one the fold gives under some order exactly when an id answered, or the best candidate (ready first, then least id) is the first of its name and readiness listed in its workspace |
| AgentResolution.QueryRefinesFold | src/arp_store.rs:291-329 | with workspaces listing agents by id, every query result is the fold's under some order |
| AgentResolution.QueryCanDisagree | src/arp_store.rs:309-329 | a concrete store where the query picks an agent the fold never does |
| AgentResolution.ResultsAreLive | src/state.rs:416-437 | neither resolver returns a stopped or stopping agent, a live id match wins, and both are ready together |
| AgentResolution.ReadyIsPreferred | src/arp_store.rs:309-329 | a name lookup is ready whenever a ready agent of that name exists |
| AgentResolution.SplitIsJoin | src/state.rs:424-430 | an identifier splits exactly when it is a workspace without a slash and a name joined by one, neither empty |
| AgentResolution.StatusIsStoredByName | src/state.rs:51-61 | each status has its own text in the table |
| AgentResolution.WorkspaceAndName | src/state.rs:416-437 | workspace/name finds a live agent of that name there if there is one, by both resolvers, and is else taken for a name as a whole |
| AgentResolution.LessAtDifference | src/arp_store.rs:309-329 | the queries order ids by the first characters that differ, prefixes first |
| ArpStore.ArpStore.Execute | src/arp_store.rs:152-203 | a statement takes effect or fails on its keys, and keeps the tables intact |
| ArpStore.StatementKeepsIntact | src/arp_store.rs:54-89 | every agent's workspace and every task's agent exist after any statement |
| ArpStore.DestroyIsExact | src/arp_store.rs:199-203 | destroying a workspace removes exactly its row, its agents and their tasks |
| ArpStore.HistoryTellsTasks | src/arp_store.rs:152-354 | after any history the tables are intact and agree with the statements that took effect |
| ArpStore.ActiveTasksFromHistory | src/arp_store.rs:331-354 | a task is active exactly when it was tracked, not cleared or cascaded since, and not completed since with a status other than 'working', unless set back to it |
| ArpStore.WorkspacesFromHistory | src/arp_store.rs:152-203 | a workspace row is there when its latest creation is later than its latest destruction, for the project it was created for, as its latest creation, activation or deactivation left it |
| ArpStore.AgentsFromHistory | src/arp_store.rs:239-289 | an agent row is there when added and not removed or cascaded since, as last added, with status and pid last written |
| ArpStore.TasksFromHistory | src/arp_store.rs:331-354 | a task row has the context it was last tracked with and the status last written |
| ArpStore.FailingStatements | src/arp_store.rs:54-89 | a statement fails exactly on a taken key or a missing parent, and then changes nothing |
| ArpStore.ArpStore.AllocateTagIndex | src/arp_store.rs:205-212 | the loop returns the least free tag |
| ArpStore.ArpStore.AllocateAgentPort | src/arp_store.rs:218-237 | the loop returns the least free available port, or fails |
| ArpStore.FreshTag | src/arp_store.rs:205-212 | the tag is the least one from ten that no active workspace holds, and at most ten plus their number |
| ArpStore.FreshPort | src/arp_store.rs:218-237 | the port is the least available one held by no active workspace and no agent at all; failure means the range is exhausted |
| AgentLifecycle.LifeIsWellFormed | src/agent_supervisor.rs:86-250 | over every life: at most thirty probes, and the entry leaves the map with a complete trace whose last event is its only terminal one |
| AgentLifecycle.StepKeepsTrace | src/agent_supervisor.rs:124-249 | at every step the events sent so far are those of the step's place in the life |
| AgentLifecycle.StopIsNeverLost | src/agent_supervisor.rs:258-270 | a stop sent while the entry exists: at most one more probe, at most nine more steps, never stuck until gone |
| AgentLifecycle.GraceIsTheLastAskedFor | src/agent_supervisor.rs:237-239 | the process gets the grace period of the latest stop that named one, else five seconds |
| AgentLifecycle.PromptIsSentOnce | src/agent_supervisor.rs:190-212 | a prompt is sent at most once, only to an agent spawned with one, and to each of those past its start; Busy is out exactly when sending worked |
| AgentLifecycle.EndTellsCause | src/agent_supervisor.rs:214-248 | an agent that became ready ends with Error exactly when its process's exit was taken, after that exit, and else with Stopped, after a request |
| AgentLifecycle.TaskCanStep | src/agent_supervisor.rs:131-250 | a task can always step until it is gone; a serving one waits for an exit or a stop and takes either |
| AgentLifecycle.OutcomesAreOpen | src/agent_supervisor.rs:131-250 | stops and exits may come at any time, tries may work or fail, and of several ready branches any may be taken |
| AgentLifecycle.LifeIsShort | src/agent_supervisor.rs:131-250 | no life takes more than 127 steps of its own, so none hangs except in serving |
| AgentLifecycle.WaitForHealth | src/agent_supervisor.rs:341-391 | healthy exactly when one of the first thirty turns is a good probe and all before it bad ones; else interrupted or exhausted |
| AgentLifecycle.TaskWaitsForHealth | src/agent_supervisor.rs:160-215 | in every run the task passes or fails its health check as that loop does on the turns it took, with as many failures counted |
| AgentLifecycle.AgentSupervisor.Spawn | src/agent_supervisor.rs:86-129 | adds or takes over the entry of its id and sends Starting; every life stays listed exactly when the id was not in the map |
| AgentLifecycle.AgentSupervisor.StopWithGrace | src/agent_supervisor.rs:262-270 | sets the override and the permit of the one life its id's entry stands for |
| AgentLifecycle.AgentSupervisor.StopAll | src/agent_supervisor.rs:272-278 | signals the life of every entry, keeps every override, and touches no other life |
| AgentLifecycle.AgentSupervisor.Advance | src/agent_supervisor.rs:131-250 | on the shared channel every life's events stay a proper trace, complete once it is over, even with equal ids; its end removes its id's entry |
| AgentLifecycle.AgentSupervisor.Replay | src/agent_supervisor.rs:86-278 | any run of spawns, stops and steps goes as the next theorems have it |
| AgentLifecycle.EntriesOutliveTraces | src/agent_supervisor.rs:86-250 | over every such run each life's events are a proper trace; with fresh ids a life without an entry has sent its whole trace |
| AgentLifecycle.StopReachesItsLife | src/agent_supervisor.rs:258-270 | with fresh ids a stop naming the id of a running life reaches it whatever is called afterwards: at most nine more steps and one probe, never stuck, and gone only with its trace complete |
| AgentLifecycle.TakenIdHidesLife | src/agent_supervisor.rs:87-117 | after a spawn on a taken id a stop passes the older life by, and the end of the newer one leaves it running without an entry |
| AgentLifecycle.StopsAreExact | src/agent_supervisor.rs:262-278 | a stop for an id reaches the life listed under it and no other, a stop of all every listed life, keeping the grace asked for |
| Auth.SubsetIsInclusion | src/auth.rs:404-416 | the executable test holds exactly when every project name the child includes the parent includes |
| Auth.TokenStore.CreateScopedToken | src/auth.rs:198-223 | stores a token without session or parent |
| Auth.TokenStore.CreateChildToken | src/auth.rs:227-268 | refuses a higher rank first and a wider scope second; else stores a child with exactly the projects and permission asked for, the parent's where none were, that reaches nothing its parent does not |
| Auth.ChildIsAsAsked | src/auth.rs:227-268 | a child includes exactly the projects asked for and reaches an agent exactly when they hold its project and, at Session permission, its session is the parent's |
| Auth.TokenStore.EnsureSession | src/auth.rs:357-370 | keeps a session; a new one is given to the token and to its stored copy |
| Auth.ChildAttenuates | src/auth.rs:227-268 | a child has no higher rank, no project more, and its parent's session, expiry and subject |
| Auth.ChainAttenuates | src/grpc/agent.rs:76-80 | along any chain of children, bare or handed on with a session: no higher rank, no project more, same expiry and subject, and a session once there stays; bare children gain none |
| Auth.TokenStore.HandOn | src/grpc/agent.rs:75-80 | the token a spawned agent is given: a child that is never refused, given a session if it had none, in the store as well |
| Auth.SessionBeforeOrAfter | src/mcp/tools_agent.rs:223-233 | giving the parent the session before deriving, as the other spawn route does, derives the same tokens |
| Auth.ChainNeverWidens | src/auth.rs:377-401 | what the last token of such a chain reaches by scope and session the first reaches too, exactly unless the first is a Session token without a session, the last has one, and a project is left |
| Auth.BareChainNeverWidens | src/auth.rs:227-268 | along bare children it always is so |
| Auth.HandingOnWidens | src/grpc/agent.rs:76-80 | one handed-on token reaches nothing its parent does not exactly when the parent is no Session token without a session, or no project is left |
| TokenService.SpawningCanWiden | src/grpc/agent.rs:76-80 | a concrete token the service mints that reaches no agent, while the token handed on from it does |
| Auth.ChildSucceedsExactly | src/auth.rs:235-248 | a child is refused only for its rank or for some project |
| TokenService.ServiceAgreesWithSubset | src/grpc/token.rs:22-83 | an admin caller gets a token exactly for the scopes the subset test accepts, nobody else gets one, and the second permission check never fails |
| TokenService.ServiceGrantsAsAsked | src/grpc/token.rs:27-51 | what is granted is exactly the projects and permission asked for, the caller's where nothing was asked |
| TokenService.FirstOutsideIsFirst | src/grpc/token.rs:73-80 | the project named in the refusal is the first one the caller lacks |
| Utf8Bytes.DecodeOfEncode | core/src/client.rs:262-262 | bytes that encode a text decode to it (section 3 of RFC 3629) |
| Utf8Lossy.EncodeOfDecode | core/src/client.rs:262-262 | no bytes but a text's own decode to it |
| Utf8Lossy.LossyOfText | core/src/client.rs:262-262 | lossy reading gives the text of bytes that are one |
| Utf8Lossy.LossyMarksLoss | core/src/client.rs:262-262 | and leaves a replacement character for bytes that are not |
| Utf8Lossy.LossyIsLong | core/src/client.rs:262-262 | bytes that start inside a character are read as more characters than begin in them |
| Utf8Lossy.PieceBeginsCharacter | core/src/client.rs:262-262 | a replaced piece of several bytes begins some character |
| Utf8Lossy.PieceIsLongest | core/src/client.rs:262-262 | and no longer one does, so each replacement takes as much as could still have become a character |
| ChunkedBody.Reader.ReadLine | core/src/client.rs:247-251 | a line up to its line feed, or an error when it is not text |
| ChunkedBody.Reader.ReadExact | core/src/client.rs:256-261 | exactly that many bytes, or an error |
| ChunkedBody.ReadChunked | core/src/client.rs:243-267 | the loop computes the decoding of the bytes and ends on every input, in a panic for a size no buffer can have |
| ChunkedBody.ChunksAreRead | core/src/client.rs:245-265 | well-formed chunks of any bytes are read one by one, each decoded by itself, up to the first one with an extension, which ends the body |
| ChunkedBody.ChunkedRoundTrip | core/src/client.rs:243-267 | a text sent in chunks without extensions, cut at any bytes, lengths written in hexadecimal with either case and any leading zeros, is read back exactly when no chunk starts inside a character, whatever the last chunk's extension and the trailer (section 7.1 of RFC 9112) |
| ChunkedBody.WholeBodyExactly | core/src/client.rs:252-262 | a text without U+FFFD is read back exactly when no chunk carries an extension and none starts inside a character; the read succeeds in any case |
| ChunkedBody.SplitCharacterIsLost | core/src/client.rs:262-262 | a concrete body, one two-byte letter sent a byte a chunk, read as two replacement characters |
| ChunkedBody.ReplacementByChance | core/src/client.rs:252-262 | a concrete body that shows why U+FFFD is set apart: its only character is cut, its rest dropped, and the replacement is the character itself |
| ChunkedBody.ReadUpToExtension | core/src/client.rs:252-262 | in general what is read are the chunks before the first extension, each decoded by itself (section 7.1.1 of RFC 9112) |
| ChunkedBody.WrittenIsSize | core/src/client.rs:252-252 | a size line, digits of either case with any leading zeros and perhaps a plus sign, gives the number written; one past 64 bits counts as zero |
| ChunkedBody.SixteenDigitsFit | core/src/client.rs:252-256 | sixteen digits always fit a machine word and fill it; half of that is the largest buffer |
| ChunkedBody.EveryNumberIsWritten | core/src/client.rs:252-252 | every number can be so written |
| ChunkedBody.ReadsThatFail | core/src/client.rs:256-265 | a chunk cut short is an error and a size no buffer can have a panic; input ending after a chunk passes for a whole body |
| ChunkedBody.LineMustBeText | core/src/client.rs:247-251 | a size line that is not UTF-8 fails the read |
| StructConversion.ProstStructToJson | src/grpc/http_bridge.rs:608-614 | the loop converts every field under its key |
| StructConversion.StructRoundTrip | src/grpc/convert.rs:180-192 | exactly JSON objects convert, and come back with every number replaced by its double, at every depth, and nothing dropped |
| StructConversion.ValueRoundTrip | src/grpc/convert.rs:195-217 | the same for any value |
| StructConversion.SecondTripIsIdentity | src/grpc/http_bridge.rs:608-628 | a second round trip changes nothing |
| StructConversion.CanonicalIffPreserved | src/grpc/http_bridge.rs:616-628 | starting from a Struct value, the trip through JSON preserves it exactly when it is canonical |
| StructConversion.KindsAreKept | src/grpc/convert.rs:195-217 | a JSON value becomes the Struct value of its kind with the same contents, element by element |
| ContextBundle.AssembleContextBundle | src/interop.rs:328-409 | both loops together go through the candidates in order |
| ContextBundle.BundleIsLongestPrefix | src/interop.rs:328-409 | the bundle is the longest prefix of the unlimited one within the budget, then one marker exactly when something was cut; its keys are distinct; a malformed pattern fails it unless the budget ran out first |
| ContextBundle.UnlimitedKeysDistinct | src/interop.rs:361-375 | without a budget every key occurs once |
| ContextBundle.UnlimitedHasAll | src/interop.rs:352-401 | and exactly the keys some readable candidate has occur |
| ContextBundle.UnlimitedIsFirstOffers | src/interop.rs:352-401 | each entry is the first readable candidate of its key, and they come in the candidates' order |
| ContextBundle.BundleHasWhatIsConfigured | src/interop.rs:346-384 | told from the configuration: a key is in exactly when a matched file of the repository or a context file offers it, the repository's first |
| ContextBundle.DecimalReadsBack | src/interop.rs:369-372 | the number in the notice is the budget |
| ContextBundle.NoticeReads | src/interop.rs:368-372 | the marker entry's key and words |
| Picker.FuzzyMatch | src/picker.rs:941-950 | the greedy pass accepts exactly when a strictly increasing embedding exists |
| Picker.EmbedsIffEmbedding | src/picker.rs:941-950 | deciding from the ends and choosing positions freely come to the same |
| Picker.PickerView.Filter | src/picker.rs:250-265 | the list is exactly the ascending indices of matching items, with the selection on the first |

## Left out

- TextInput.TextInput.Replay: runs leave out composing with an explicit new selection (`TextInput.TextInput.ReplaceAndMarkSelecting`), after which the fields may no longer be valid.
- TextInput.TextInput.ReplaceAndMarkSelecting: asks for ranges whose start is not after their end.
- Grapheme segmentation and line layout: any ascending choice of cuts and any character position under the mouse are allowed, anew at each action; a layout older than the text is not.
- Painting, focus, events to observers, key bindings, the tray, QR codes, notifications, the Android client, HTTP, gRPC and MCP handlers: transport and display.
- Git, the window manager and process spawning: outcomes only.
- Signing, encoding and expiry checks of tokens, and tokens minted by `create_token` beyond their scope and permission.
- The overflow of 64-bit byte counts and of 32-bit tag numbers: sizes and tags are unbounded here.
- RestartLoop.StopTerminates: takes checking for an entry and inserting one as a single step of `start`; two calls interleaved between its two locked regions are not modelled. A fresh delay is taken not to be ready when first polled.
- AgentLifecycle.LifeIsWellFormed: speaks of the events sent; the status written to the store by other routes is not modelled.
- Lifecycle.NumbersStayApart: supervisor writes that do not fit are left out of runs (`Lifecycle.LateAcpWriteDuplicatesPort`); each operation is one step; two processes interleaving their load and save are not modelled, nor are agent ports, which the ACP allocator does not look at.
- SizeScan.ScanCompletes: a thread that panics while scanning is not modelled; sizes of directories are handed in.
- CleanupView.CleanupView.StartSizeScan: entry names are distinct, as keys of a map are; projects and their directories are reduced to whether an entry's directory exists.
- ArpStore.ArpStore.Execute: columns no statement here depends on (URLs, session ids, template, host, times) are left out; the rest of SQLite's error handling is too.
- ArpStore.ArpStore.AllocateTagIndex: the SQL queries are sets here, and the 16-bit casts of ports read back are identities.
- StructConversion.ValueRoundTrip: a double is its real value, so signed zero is not told apart, and rounding an integer is handed in.
- ChunkedBody.ReadChunked: a failed read is taken to use up what was there; a buffer within the limit of a vector is taken to be granted.
- Picker.PickerView.Filter: lower-casing is handed in; scrolling is not modelled.
- ContextBundle.AssembleContextBundle: expanding patterns and reading files are outcomes; launch prompts, templates and project merging are not modelled.
- Listing, sorting and counting helpers of the store, form-field cycling, colours, size formatting and `resolve_dir`: each is settled by its own few lines.
