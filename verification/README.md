# zvmh in Dafny

zvmh is an agent daemon. Client sessions talk to a server that runs one agent turn per client on
its own thread; an agent keeps a system context up to date, calls a model provider and runs tools
that read and patch files; a terminal client shows the conversation. This project models the parts
of it whose correctness is not obvious from reading one function, and proves what those parts are
for. `dafny verify dfyconfig.toml` checks all of it.

**Turns** (`SessionProtocol`, `SwarmsServer`, `ServerProtocol`, `RemoteSession`, `TurnCodes`,
`LateCancel`, `AgentTurn`, `TurnRecord`).
`SessionProtocol` is one connection: the reader thread and the turn threads it starts, one atomic
step for each section under `mu_`, each send and each change of the cancel flag. `SwarmsServer` is
the state `mu_` protects, as a class whose methods are those sections. `ServerProtocol` interleaves
any number of connections over that state and carries the invariants through every run.
`RemoteSession` puts the client's turn rendezvous at the other end of one connection, `TurnCodes`
follows the code of a turn from the agent to the client, and `LateCancel` continues the runs from a
cancel that is sent too late. `AgentTurn` is the tool loop inside a turn, for arbitrary provider
events, tool outcomes and cancellation times, and `TurnRecord` says what messages it leaves.

**System context** (`SystemContext`, `ContextSession`, `ContextText`, `ContextRegistry`,
`Ordering`). Every text the agent emits is described as notes (a baseline, an update from a stated
old value, a removal); replaying the notes is compared with the snapshot the agent keeps, and
`ContextText` compares the text itself with what the sources rendered.

**Text engines** (`Bytes`, `Utf8`, `LineReader`, `ReadPage`, `ReadChunks`, `ReadSteady`, `Hunks`,
`HunkGroups`, `ApplyPatch`, `PatchParser`, `PatchSections`). The UTF-8 recogniser and sanitiser against section 4 of RFC 3629, the
frame splitter, the paged file reader and what chunk boundaries do to it, and the patch tool from
its text to the disk.

**Terminal** (`Glyphs`, `WrapLine`, `WrapWords`, `PromptEditor`). Greedy wrapping of styled lines and the prompt
editor's state machine.

**Conflicts** (`Conflicts`). Who has seen which contents of a file, who is told of a change, and
what the poller notices.

Code that changes state step by step is a class or a loop proved against a specification function;
the lemmas are about those functions. Where the code does not do what its own comments or its
design suggest, the code is modelled as it is, and the exact condition is a lemma:

- a solo server can shut down with a client connected or a turn running, although
  src/server/server.h:38-40 says otherwise: the end of a turn decides without looking at other
  agents (`TurnEndTest`), and a client can come between a decision and its store. `ClosesEarlyIff`
  says when, over every run; `ClosesUnderABusyAgent` and `ClosesOnANewcomer` are runs of either
  kind;
- a client that waits for every answer can still be told "still running a turn", exactly in the gap
  of `RefusedInTheGap` (`PoliteClientRefused` is a run);
- a call can return `kCancelled` without a cancel of its own, then always for a cancel of an earlier
  call sent after its prompt (`CancelledIsOwnOrLate`), and any such cancel still unsent while the
  next turn runs can do it (`LateCancelCanHit`; `LateCancelHitsTheNextTurn` is a run);
- a call stays waiting on a connection known to be gone exactly when it is armed after the loss
  (`LostIsReleasedIff`; `CallIsStranded` is a run);
- after an update the prompt carries the update alone, which is the whole snapshot exactly when it
  mentions every key (`DeltaAloneIff`; `DeltaOmitsUnchanged` is a run in which it does not);
- a truncated UTF-8 tail takes the ASCII bytes inside it along (`AsciiSurvivesIff`,
  `SwallowedLetter`);
- the paged reader can name a next line that does not exist, exactly when the last line of the file
  vanishes after others (`PagingIff`, `MarkerPastTheEnd`); valid UTF-8 never does that
  (`NeverVanishes`);
- a valid printable file can be accepted in some chunks and rejected in others, exactly when a
  newline-terminated line has a continuation byte at index 2001 or later
  (`EveryChunkingAcceptedIff`, `LongLineDependsOnChunks`), and what is read of it can depend on the
  chunks exactly when one of those lines is not steady (`ChunksDoNotShowIff`);
- a carriage return at a line end does not survive a patch (`RejoinIff`), an added file loses an
  empty last line (`AddedFileHasLinesIff`), and an updated file has the edited lines exactly under
  the three conditions of `UpdatedHasLinesIff`;
- when a removal throws, the operations applied before it are named nowhere, although
  src/tool/apply_patch.h:15 says that the error names them (`ErrorNamesThemIff`,
  `ThrowNamesNothing`);
- a line of a patch that reads as a directive after trimming ends its section (`PrintParseIff`), and
  the error for a section with an empty path is never given (`HeadersHavePaths`);
- "select all" on an empty prompt makes the second character typed replace the first
  (`TypeOverSelection`), and Home pressed again at a soft break moves up a row (`HomeTwice`);
- a read by another agent can hide a change from one that has the old contents (`PollTellsIff`,
  `ReadHidesChange`).

Frames carry two numbers that are not on the wire and that no modelled code looks at: the client's
call that sent a frame, and the prompt that a frame from the server is about. They let the
properties name which answer belongs to which prompt.

## Model

| member | source | states |
|---|---|---|
| SessionProtocol.StepKeepsInv | src/server/server.cpp:325-386 | Every step of the reader thread or of a turn thread keeps the invariant of a connection: slots outlive their turns, one uncleared turn at most, each prompt answered once or still pending or lost, losses only after a failed send, a cancelled answer only for a cancel frame that followed its prompt, and the frames about a prompt in order. |
| SessionProtocol.InitInv | src/server/server.cpp:450-506 | The invariant holds when a connection is registered. |
| SessionProtocol.LifecycleKept | src/server/server.cpp:325-386 | The thread phases, the presence of the client and the busy flag of its slot stay consistent: a slot without a client is busy, a busy slot has exactly one turn that has not cleared it. |
| SessionProtocol.AnsweredKept | src/server/wire_sink.h:51-61 | Counting `turn_done` frames, every step keeps "one for each non-empty prompt that is neither pending nor lost, none for anything else". |
| SessionProtocol.LossIsFailureKept | src/server/wire_sink.h:51-61 | A `turn_done` is lost, and a sink goes dead, only after a send to that client has failed. |
| SessionProtocol.CancelOrderKept | src/server/server.cpp:513-521 | A turn that reports cancellation, and a `turn_done` that carries it, has a cancel frame after its prompt in the order frames were taken. |
| SessionProtocol.FrameOrderKept | src/server/wire_sink.h:26-61 | Every step keeps the frames about one prompt in the order text, usage, `turn_done`, with nothing after it, and the reader takes no frame after a bye. |
| SessionProtocol.AccountedKept | src/server/server.cpp:344-369 | Over the steps so far, every code in a `turn_done` or on its way into one stays the outcome of its prompt: what the agent returned, or 1 for a turn without provider or a prompt taken while busy. |
| SwarmsServer.Server.HelloRegister | src/server/server.cpp:232-240 | Registers the client and appends it to its repo; the peers listed are all clients in key order, the new one included; nothing else changes. |
| SwarmsServer.Server.RemoveClientLocked | src/server/server.cpp:207-226 | Removes the client from the clients, from its repo (dropping an empty repo) and from every path's readers, and its slot when that is idle; an unknown id changes nothing. |
| SwarmsServer.Server.SchedulePrompt | src/server/server.cpp:325-341 | Decides between no slot, rejection and start from the slot's busy flag, and sets busy exactly when it starts. |
| SwarmsServer.Server.CancelFrame | src/server/server.cpp:513-521 | Raises the cancel flag of a busy agent and changes nothing else. |
| SwarmsServer.Server.EndTurn | src/server/server.cpp:371-380 | Clears busy, or erases the slot when its client has gone, and decides to shut down exactly when the server is solo and has no clients. |
| SwarmsServer.Server.CheckIdle | src/server/server.cpp:426-440 | Decides to shut down exactly when the server is solo, has no clients and no busy slot. |
| SwarmsServer.Server.RouteMessage | src/server/server.cpp:396-418 | The targets are those of the routing function, for "all", "repo" and a single id, and none for an unknown sender. |
| SwarmsServer.HelloKeepsGrouped | src/server/server.cpp:232-240 | Registering a fresh id keeps `repo_members_` the duplicate-free grouping of the clients by repo. |
| SwarmsServer.RemoveKeepsGrouped | src/server/server.cpp:207-226 | So does removing a client. |
| SwarmsServer.RepoRouting | src/server/server.cpp:409-418 | With that grouping, "repo" reaches exactly the other clients of the sender's repo, once each. |
| SwarmsServer.AllRouting | src/server/server.cpp:405-408 | "all" reaches exactly the other clients, once each. |
| SwarmsServer.RoutedIff | src/server/server.cpp:396-418 | Whatever the address, a message reaches exactly the clients it is meant for, once each: all others, the others of the sender's repo, or the one named; an unknown sender reaches nobody. |
| SwarmsServer.RemovalIsClean | src/server/server.cpp:207-226 | After a removal the id is in no map but, with a running turn, the slots; everything of other clients and paths is as before. |
| ServerProtocol.RunInv | src/server/server.cpp:325-424 | Every state of every interleaving of any number of connections satisfies the connection invariants, agrees with the shared maps, keeps the repo grouping and never loses a shutdown. |
| ServerProtocol.AnsweredExactlyOnce | src/server/server.cpp:325-386 | In every reachable state, while sends to a client succeed, each non-empty prompt its handler took has exactly one `turn_done` or is still to get it, and no other frame has one. |
| ServerProtocol.FramesInOrder | src/server/server.cpp:344-386 | In every reachable state the frames about one prompt went out as text, then the usage, then `turn_done`, and nothing after it; a bye is the last frame taken from a client. |
| ServerProtocol.SlotsOutliveTurns | src/server/server.cpp:371-378 | In every reachable state, the slot of a turn that has not cleared busy is still there and busy, and there is at most one such turn per id. |
| ServerProtocol.OrphanSlotsAreBusy | src/server/server.cpp:222-225 | In every reachable state, a slot whose client has gone is busy and has a turn that is going to erase it. |
| ServerProtocol.SoloShutdownNeverLost | src/server/server.cpp:426-444 | Once a client has registered with a solo server, every reachable state with no clients, no busy slot and no thread between its removal or decision and its store has `closing_` set. |
| ServerProtocol.OnlySoloShutsDown | src/server/server.cpp:379-384 | A server that is not solo never sets `closing_` itself. |
| ServerProtocol.RepoReachesPeers | src/server/server.cpp:396-418 | In every reachable state, routing to "repo" equals filtering all clients by the sender's repo. |
| ServerProtocol.PendingIsNeverStuck | src/server/server.cpp:325-386 | In every reachable state the thread of a pending prompt has an enabled step that brings its answer nearer, and no move of any connection puts it off: under fair scheduling every prompt is answered or its answer is lost. |
| ServerProtocol.TurnEndTest | src/server/server.cpp:371-384 | In every reachable state, the decision made when a turn clears busy is the documented one, no client connected and no turn running afterwards, exactly when it is not the case that beforehand all clients are gone and a turn of another id has not cleared busy. |
| ServerProtocol.StoreHasDecision | src/server/server.cpp:379-384 | Every store of `closing_` in a run acts on an earlier decision of its own thread. |
| ServerProtocol.ClosesEarlyIff | src/server/server.cpp:371-444 | Over every run of a solo server, a decision and its store leave `closing_` set with a client connected or a turn running exactly when someone registered in between and is still there or has a turn running, or the decision was made at the end of a turn while a turn of another id ran that runs still. |
| ServerProtocol.ClosesUnderABusyAgent | src/server/server.cpp:371-384 | A reachable state of a solo server in which `closing_` is set while an agent is still busy. |
| ServerProtocol.ClosesOnANewcomer | src/server/server.cpp:426-444 | A reachable state of a solo server in which `closing_` was set by the full idle test while a client is connected and its agent busy. |
| RemoteSession.RemoteAgent.CheckConnected | src/remote/remote_agent.cpp:146-150 | A call goes on exactly when the connection is up at this point. |
| RemoteSession.RemoteAgent.Arm | src/remote/remote_agent.cpp:152-158 | Arms the rendezvous, whatever has become of the connection since the test. |
| RemoteSession.RemoteAgent.CancelTurn | src/remote/remote_agent.cpp:134-144 | Marks an active turn cancelled, and asks for a cancel frame exactly when a turn is active on a live connection. |
| RemoteSession.RemoteAgent.HandleFrame | src/remote/remote_agent.cpp:276-294 | A `turn_done` releases the waiting call with its code; a stream frame is shown exactly while a turn is active and not cancelled. |
| RemoteSession.RemoteAgent.HandleShutdown | src/remote/remote_agent.cpp:268-274 | A shutdown or bye frame disconnects and releases the waiting call. |
| RemoteSession.RunInv | src/remote/remote_agent.cpp:134-173 | Every state of every run of a client against the server satisfies the rendezvous invariant: what was asked is what has been seen answered, plus the one open prompt. |
| RemoteSession.AnswersFollowPrompts | src/remote/remote_agent.cpp:146-173 | The k-th `turn_done` answers the k-th prompt, at most one prompt is outstanding, and none is when a prompt is about to be sent. |
| RemoteSession.ResultsAreTheirOwn | src/remote/remote_agent.cpp:165-173 | The k-th `run_turn` returns what the server said about that call's own prompt, or 1 when it never heard; what the server says is `TurnCodes.ResultIsTheTurns`. |
| TurnCodes.AnswersCarryTheOutcome | src/server/server.cpp:344-369 | In every run each `turn_done` carries a code that the agent's turn for its prompt returned earlier in the run, or 1 when that turn had no provider or the prompt was taken while busy; no turn of that prompt returned another code. |
| TurnCodes.ResultIsTheTurns | src/remote/remote_agent.cpp:146-173 | The k-th `run_turn` returns the code of the agent's turn for that call's own prompt, 1 when there was no provider or the prompt was refused, and 1 when it never heard. |
| TurnCodes.SentIsTheLog | src/server/wire_sink.h:26-61 | In every run the frames sent are exactly those that the steps with a working send and a live sink delivered, in order. |
| TurnCodes.NothingAfterFailure | src/server/wire_sink.h:26-61 | Once a send of a turn's text has failed, no further frame about its prompt is sent. |
| RemoteSession.MutedIff | src/remote/remote_agent.cpp:134-158 | In every run, while a turn is active its text is muted exactly when `cancel_turn` was called during this call. |
| RemoteSession.RefusedInTheGap | src/server/server.cpp:330-347 | For such a client, a prompt is refused as still running exactly when the turn before it has answered and not yet cleared busy. |
| RemoteSession.PoliteClientRefused | src/server/server.cpp:365-377 | A run in which a client that keeps every rule has its second prompt refused. |
| RemoteSession.CancelStaysWithItsTurn | src/agent.cpp:322-325 | When `cancel_turn` finishes before the next `run_turn` starts, a call returns `kCancelled` only if a cancel was sent for that same call. |
| RemoteSession.CancelledIsOwnOrLate | src/remote/remote_agent.cpp:134-173 | Whatever the client does, a call returns `kCancelled` only for a cancel of its own or for a cancel of an earlier call that is on the wire after its prompt. |
| RemoteSession.LateCancelHitsTheNextTurn | src/remote/remote_agent.cpp:134-144 | Without that discipline it fails: a run in which a cancel decided in call 1 makes call 2 return `kCancelled`. |
| LateCancel.LateCancelCanHit | src/remote/remote_agent.cpp:134-144 | From every reachable state in which a cancel of an earlier call is unsent and the turn of a later call runs, some continuation returns `kCancelled` for that later call without a cancel of its own. |
| RemoteSession.LostIsReleasedIff | src/remote/remote_agent.cpp:146-173 | In every state of a run a lost connection leaves no call armed or waiting, exactly when no call of the run is armed after the loss. |
| RemoteSession.CallIsStranded | src/remote/remote_agent.cpp:146-173 | A run in which the shutdown falls between the test of `connected_` and the arming, and the call waits on. |
| AgentTurn.TurnBridge.OnEvent | src/agent.cpp:296-310 | Each event changes the text, the calls and the index as the specification of one event says. |
| AgentTurn.CollectsTheCalls | src/agent.cpp:296-310 | The calls collected are those started, in order, with their ids and names, each with the input deltas that carry its index after its start and before the next start that takes the index over. |
| AgentTurn.Agent.RunTurn | src/agent.cpp:319-445 | The return code, the messages and the histories handed to `complete` are those of the turn specification, for any provider, tools and cancellation time; `TurnRecord.TurnLeavesItsRecord` says what they hold. |
| TurnRecord.TextIsSpoken | src/agent.cpp:296-299 | The text of a response is the concatenation of its text deltas. |
| TurnRecord.TurnLeavesItsRecord | src/agent.cpp:319-445 | A turn that is cancelled, or whose last step throws, leaves the history as it was; any other leaves the old history, the prompt's text, and for each step the text spoken (no block when empty), the calls started with id, name and the input fed to them ("{}" when that does not parse), and one reply per call with the tool's result or its error text. With code 0 the last step called nothing, with code 1 all ten steps did. Each `complete` saw the record of the steps before, unless cancelled. |
| AgentTurn.TurnKeepsHistoryWhole | src/agent.cpp:319-445 | Either the history is exactly as before the turn, or it is the old history, the prompt and rounds in which every tool use is answered once, by id and in order, before the next assistant message; a cancelled turn is of the first kind, a turn with code 0 of the second. |
| AgentTurn.FailureRestoresOrExhausts | src/agent.cpp:434-444 | A turn that throws restores the history; code 1 with a longer history means ten full rounds. |
| AgentTurn.CompleteSeesClosedRounds | src/agent.cpp:347-356 | Every `complete` call, at most ten, sees such a history unless cancellation has already been requested. |
| AgentTurn.CancelledIff | src/agent.cpp:355-443 | A turn returns `kCancelled` exactly when the flag was up the last time it looked, and it looks after the first response at the earliest. |
| SystemContext.Combine | src/system/systemcontext.h:234-247 | Concatenates the sources, and throws exactly when a key occurs twice. |
| SystemContext.InitializeObservation | src/system/systemcontext.h:280-290 | The baseline texts and the snapshot are those of the notes of a first observation, or the first rendering error. |
| SystemContext.Initialize | src/system/systemcontext.h:292-300 | Blocked, with the unavailable keys, exactly when a source is unavailable; otherwise a generation. |
| SystemContext.ReconcileObservation | src/system/systemcontext.h:306-374 | Its loops give the outcome of the notes specification: replace, unchanged, an update with its text and snapshot, or the first rendering error; an absent removal text is never read. |
| SystemContext.ReplaceObservation | src/system/systemcontext.h:376-385 | Blocked exactly when an admitted source is unavailable, otherwise a new generation. |
| SystemContext.Reconcile | src/system/systemcontext.h:387-396 | The tag Replace never escapes, and Unchanged returns the previous snapshot. |
| SystemContext.NotesReplay | src/system/systemcontext.h:306-374 | Each note is apt for what was told before it (a baseline is news, an update starts from the value last told, a removal quotes the stored text), and replaying the notes on the previous snapshot gives the new one. |
| SystemContext.EntryNotesApt | src/system/systemcontext.h:334-357 | The notes about registered sources are apt one after the other. |
| SystemContext.RemovalsReplay | src/system/systemcontext.h:359-362 | The removal notes are apt and take away exactly the keys no longer registered. |
| SystemContext.AdmittedStays | src/system/systemcontext.h:306-396 | An admitted source leaves the snapshot only when it is no longer registered, and nothing unregistered stays in it. |
| SystemContext.ReconcileTwice | src/system/systemcontext.h:387-396 | Reconciling again on the same observation is silent exactly when every text just rendered settles; a blocked replacement stays blocked. |
| SystemContext.MakeSettlesIff | src/system/systemcontext.h:184-232 | A made source settles exactly when decoding what it encodes gives an equivalent value. |
| SystemContext.MakeRenders | src/system/systemcontext.h:196-228 | A made source renders its texts from the values it compares, never empty, and an update only between values that are not equivalent. |
| SystemContext.RenderParts | src/system/systemcontext.h:249-256 | Each part stands at its place, the sum of the lengths before it and two per gap, with a blank line in each gap, and the text is no longer than that. |
| ContextText.UpdateTells | src/system/systemcontext.h:306-374 | The text of an update holds, at those places, one text for each source that is new or has changed, as that source rendered it, then the stored removal text of each key that is gone, and nothing else. |
| ContextText.SilentIff | src/system/systemcontext.h:334-374 | Without a replacement, a reconciliation is silent exactly when no source is new or changed and no key is gone. |
| ContextText.ReplacementTells | src/system/systemcontext.h:376-396 | The text of a new generation holds the baseline of every available source, in order, and nothing else. |
| ContextText.InitialTells | src/system/systemcontext.h:280-290 | So does the first one. |
| ContextText.ReplacedIff | src/system/systemcontext.h:306-396 | A reconciliation starts afresh exactly when a stored value no longer decodes or a key is gone without removal text, and is then blocked exactly when an admitted source is unavailable. |
| ContextText.FirstThrowIsPassedOn | src/system/systemcontext.h:334-357 | An observation fails exactly when a rendering it needs throws, with the first such exception. |
| ContextText.MadeThrowsIff | src/system/systemcontext.h:258-263 | A made source throws exactly when the baseline or update it is asked for is empty, and the message names the source and which of the two. |
| ContextText.TurnTells | src/agent.cpp:158-201 | The text in force after a turn that told something holds exactly what it told. |
| ContextText.TellsWhen | src/agent.cpp:158-201 | A turn tells everything exactly when it is the first and no source is unavailable, or out of step and no admitted source is, and all baselines render; it tells an update exactly when there is something to say and it renders. |
| ContextSession.AgentContext.BuildSystemPrompt | src/agent.cpp:158-201 | The context fields after a turn, the prompt built from them, the keys warned about and the exceptions let through, for any observation. |
| ContextSession.ToldIsSnapshot | src/agent.cpp:158-201 | Over every run of turns, replaying the emitted texts yields the agent's snapshot, and whatever the next turn says is apt for it. |
| ContextSession.DeltaAloneIff | src/agent.cpp:180-184 | A prompt after an update tells a model without memory the whole snapshot exactly when the update mentions every key. |
| ContextSession.DeltaOmitsUnchanged | src/agent.cpp:180-184 | Two sources are told and one changes: for all keys and values the prompt of that turn is that one update, and the other key is in the snapshot and not mentioned. |
| ContextRegistry.SystemContextRegistry.RegisterContext | src/system/registry.h:48-55 | Accepts exactly a valid key that is not registered, and appends it. |
| ContextRegistry.SystemContextRegistry.Unregister | src/system/registry.h:56-60 | The handle's clean-up removes the registrations of that key and keeps the others in order. |
| ContextRegistry.SystemContextRegistry.Load | src/system/registry.h:63-71 | Runs the loaders in key order and combines what they give, or throws what the first failing one throws. |
| ContextRegistry.LoadIgnoresOrder | src/system/registry.h:63-71 | The same registrations made in another order load the same context. |
| Utf8.Utf8Valid | src/utf8.h:7-30 | Accepts exactly the octets of section 4 of RFC 3629. |
| Utf8.OctetsIsWellFormed | src/utf8.h:7-30 | The grammar of section 4 of RFC 3629 and the left-to-right parse describe the same language. |
| Utf8.Utf8Sanitize | src/utf8.h:33-80 | The loop computes the sanitising function. |
| Utf8.SanitizeYieldsOctets | src/utf8.h:33-80 | The output is always valid, and valid input comes back unchanged. |
| Utf8.SanitizeMends | src/utf8.h:33-80 | The input falls into characters, single bytes where no character begins, and at most one cut-off tail; the output keeps the characters and has one U+FFFD for each other piece, in order. |
| Utf8.AsciiSurvivesIff | src/utf8.h:56-59 | All ASCII bytes survive, in order, exactly when no truncated tail holds one. |
| Utf8.SwallowedLetter | src/utf8.h:56-59 | A concrete input that loses a letter. |
| Utf8.TruncateTo | src/tool/read.h:165-170 | The loop cuts back to the last byte that is not a continuation byte. |
| Utf8.TruncateValid | src/tool/read.h:165-170 | On valid text the result is a valid prefix within the limit and at most 3 bytes short of it. |
| LineReader.LineReader.NextLine | src/server/protocol.h:269-314 | The frames handed out and the bytes left spell what was received; a frame is shorter than the cap and one chunk; a rejection means more than the cap is waiting without a newline; every other result has its event. |
| LineReader.LineReader.ReadAll | src/server/protocol.h:269-314 | For every chunking, the frames are the lines of the bytes received, all of them unless the reader was told to stop. |
| LineReader.ReadWithinCap | src/server/protocol.h:269-314 | A stream whose frames are at most 4 MiB is never rejected, whatever the chunks. |
| ReadPage.BinaryDetect | src/tool/read.h:154-162 | Binary exactly with a NUL byte or more than three tenths of control bytes. |
| ReadPage.BinaryIff | src/tool/read.h:154-162 | That count is the number of bytes below 9 or from 14 to 31. |
| ReadPage.ShownAs | src/tool/read.h:211-223 | A line of at most 2000 bytes that was not cut is shown as it is, any other as its beginning up to 2000 bytes, parting no character, and the notice. |
| ReadPage.Reader.Append | src/tool/read.h:211-223 | Skips, appends or refuses a line as the page specification says, setting `next` when it refuses. |
| ReadPage.Reader.Consume | src/tool/read.h:227-251 | One segment completes a line, extends or cuts the open one, or is rejected. |
| ReadPage.Reader.ConsumeChunk | src/tool/read.h:253-268 | A chunk is its segments, one after the other, until the page is done or an error. |
| ReadPage.ReadFile | src/tool/read.h:203-293 | Reading chunk by chunk gives the result of the whole list of segments. |
| ReadPage.ReadGivesPage | src/tool/read.h:203-293 | From a file whose lines are all accepted, and whose last one does not vanish unless it is the only one, the page is the most lines from the offset that fit both limits, joined to at most 50 KiB and never none; the marker names the line after them, and is absent exactly when no line remains; an offset past the end is out of range. |
| ReadPage.PagingIff | src/tool/read.h:203-293 | For a file whose lines are all accepted, reading gives the page of its lines, for every offset and limit, exactly when its last line does not vanish or is its only one. |
| ReadPage.MarkersVisitEveryLine | src/tool/read.h:289-293 | Reading such a file from an offset, and then again from each `next` that `read_file` returns, with any limits, shows every line from there on, once and in order. |
| ReadPage.PageIsSmall | src/tool/read.h:211-223 | A page has at most `limit` lines and, with the newlines between them, at most 50 KiB. |
| ReadPage.CrlfReadsAlike | src/tool/read.h:227-238 | A line ended by a carriage return and a newline reads like one ended by a newline alone. |
| ReadPage.ChunksDoNotMatter | src/tool/read.h:227-288 | For valid UTF-8 without control bytes and with lines of at most 2000 bytes, any chunking gives the page of the lines of the whole file. |
| ReadPage.ItemsAreLines | src/tool/read.h:227-251 | The lines the reader sees in such a file are its lines, without their trailing carriage returns. |
| ReadPage.ValidFileGivesPage | src/tool/read.h:203-293 | The page property for every accepted file that is valid UTF-8, overlong lines included. |
| ReadPage.NeverVanishes | src/tool/read.h:240-250 | In valid UTF-8 no open line is ever cut to nothing. |
| ReadPage.MarkerPastTheEnd | src/tool/read.h:240-250 | A file, read as one chunk, whose marker names a line that is then out of range. |
| ReadChunks.AcceptedIffSpared | src/tool/read.h:227-288 | Given its chunks, a valid printable file is accepted exactly when no chunk with a newline begins inside a character after more than 2000 bytes of its line. |
| ReadChunks.EveryChunkingAcceptedIff | src/tool/read.h:227-288 | Every way to cut a valid printable file into chunks is accepted exactly when no newline-terminated line has a continuation byte at index 2001 or later. |
| ReadChunks.LongLineDependsOnChunks | src/tool/read.h:227-251 | Every valid file whose only line is more than 2000 letters and one longer character: read as one chunk it gives the cut line, with the chunks parted inside that character it is rejected. |
| ReadSteady.ChunksDoNotShowIff | src/tool/read.h:203-293 | For a valid printable file, what `read_file` returns is the same for all chunkings, at every offset and limit, exactly when each newline-terminated line is steady. |
| ReadSteady.PartingShows | src/tool/read.h:227-251 | A file with an unsteady line can be parted in two so that it is rejected or a line of it is shown differently. |
| Hunks.SplitText | src/tool/apply_patch.h:139-156 | The loop splits at newlines, dropping a carriage return before each and at the end. |
| Hunks.RejoinIff | src/tool/apply_patch.h:139-165 | Splitting and joining restores a text exactly when no carriage return ends a line. |
| Hunks.SplitJoined | src/tool/apply_patch.h:139-165 | Splitting a joined text gives back its lines when they hold no line ends and the last is not empty. |
| Hunks.FindOccurrences | src/tool/apply_patch.h:282-294 | The loops list the match positions. |
| Hunks.OccurrencesAreAll | src/tool/apply_patch.h:282-294 | The list holds every match position, overlapping ones included, once and in order. |
| Hunks.ReadGroups | src/tool/apply_patch.h:298-312 | The raw lines fall into groups at "@@" lines; a malformed line or no group at all is an error. |
| HunkGroups.RawLineIs | src/tool/apply_patch.h:298-312 | A raw line is a separator, or a mark and its text, or, when empty, an empty line of context. |
| HunkGroups.MalformedIff | src/tool/apply_patch.h:298-312 | A section is malformed exactly when some line is neither, and the error names the first. |
| HunkGroups.GroupsAreRuns | src/tool/apply_patch.h:298-312 | The groups are exactly the runs of lines between separators, line by line, with or without a separator before the first. |
| HunkGroups.BlocksAre | src/tool/apply_patch.h:315-322 | The old block is the context and removed lines of a group, the new block the context and added ones, in order. |
| Hunks.PrintedGroupsReadIff | src/tool/apply_patch.h:298-312 | Groups printed with a separator before each read back exactly when there are some and none is empty. |
| Hunks.ApplyUpdates | src/tool/apply_patch.h:296-335 | The updated text or the first error is that of the specification. |
| Hunks.GroupReplacesUniqueMatch | src/tool/apply_patch.h:316-331 | A group succeeds exactly when its old block is not empty and there in one place only, and then that place holds the new block. |
| Hunks.GroupFailsBecause | src/tool/apply_patch.h:316-331 | A group fails for having nothing to look for, for no match, or for several, each exactly then. |
| Hunks.UpdatesConserveLines | src/tool/apply_patch.h:315-331 | The lines before and the lines added are the lines after and the lines removed, as multisets. |
| Hunks.InverseUndoesIff | src/tool/apply_patch.h:315-331 | Swapping marks and reversing the groups restores the lines exactly when each new block was non-empty and unique where it was put. |
| Hunks.UpdatedHasLinesIff | src/tool/apply_patch.h:296-335 | After every successful update the file splits into exactly the edited lines if and only if none of them ends in a carriage return, the original does not end in a newline when none is left, and it does when the last one is empty. |
| ApplyPatch.AddedFileHasLinesIff | src/tool/apply_patch.h:271-280 | An added file is empty or ends in a newline, and has the lines of its section exactly when the last one is not empty. |
| ApplyPatch.AddedFileShowsSectionIff | src/tool/apply_patch.h:271-280 | An added file reads back line by line as its section without the first character of each line, exactly when the last line has more than that character. |
| ApplyPatch.Workspace.PlanPatch | src/tool/apply_patch.h:69-104 | The planning loop gives the plan, or the first refusal, of the specification, and touches no file. |
| ApplyPatch.PlanIsEditing | src/tool/apply_patch.h:69-104 | Planning is editing the disk hunk by hunk: refused at the same hunk for the same reason, else leading to the same disk; after each hunk `current_content` reads every path as the disk after the operations so far. |
| ApplyPatch.PlanPrefix | src/tool/apply_patch.h:73-104 | The first i operations of a plan are the plan of the first i hunks. |
| ApplyPatch.Workspace.Execute | src/tool/apply_patch.h:59-120 | A refused or empty patch leaves the disk alone; otherwise the operations before the first failure are carried out and listed. |
| ApplyPatch.AppliedIsEditing | src/tool/apply_patch.h:106-119 | A patch that goes through leaves the disk as editing it hunk by hunk would. |
| ApplyPatch.ListedPrefixIsApplied | src/tool/apply_patch.h:106-117 | One that fails part way leaves every path but the failing one as editing by exactly the listed hunks would. |
| ApplyPatch.ErrorNamesThemIff | src/tool/apply_patch.h:106-117 | A run that stops at operation k leaves every path but k's as editing by the first k hunks would, and its error names exactly those hunks if and only if operation k does not throw; when it throws, the disk is exactly that of the first k hunks and no error names them. |
| ApplyPatch.ThrowNamesNothing | src/tool/apply_patch.h:106-117 | An added file, then a removal that throws: the file is there and no report names it. |
| PatchParser.ParsePatch | src/tool/apply_patch.h:188-239 | The parsing loop gives the hunks, or the first error, of the specification. |
| PatchSections.ParsedIsSections | src/tool/apply_patch.h:188-239 | For any text that parses, each hunk is the lines from a heading to the next directive or the end, outside the sections there are only blank lines and begin or end markers, and the lines of new files are marked. |
| PatchSections.RefusedForALine | src/tool/apply_patch.h:188-239 | Any other text is refused for a line that is there: a directive that is no heading, a line outside every section, or an unmarked line of a new file. |
| PatchSections.TrimIs | src/tool/apply_patch.h:167-172 | Trimming takes away exactly the spaces, tabs, carriage returns and newlines at both ends. |
| PatchParser.PrintParseIff | src/tool/apply_patch.h:188-239 | A patch printed line by line parses back to its hunks exactly when every path is non-empty without a trailing blank, no line reads as a directive and added lines are marked. |
| PatchParser.PrintedTextParses | src/tool/apply_patch.h:188-239 | The same for the text of such a patch. |
| PatchParser.HeadersHavePaths | src/tool/apply_patch.h:221-231 | A section header that survives trimming has a path, so the error for an empty one is never given. |
| WrapLine.Wrapper.AddWord | src/tui/tui.cpp:181-240 | A word joins the row, starts a new one or is broken up, as the specification says. |
| WrapLine.WrapSpans | src/tui/tui.cpp:137-278 | The rows are those of the wrapping specification with the line's gutter, or one empty line; `WrapWords` says what stands where in them. |
| WrapWords.WordsAreRuns | src/tui/tui.cpp:242-270 | The words are exactly the maximal runs of cells that are neither a space nor a tab, from left to right. |
| WrapWords.RowsKeepTheRuns | src/tui/tui.cpp:137-278 | For every input the visible cells stand in the rows in their order. Neighbours in the line are neighbours in a row, unless a row ends inside a run wider than a row; between others there is exactly one space, in the style of what follows, or the end of a row. |
| WrapWords.CellsKeepInk | src/tui/tui.cpp:250-258 | The cells of a line are its bytes in their styles, in order. |
| WrapWords.CellsAreChars | src/tui/tui.cpp:250-258 | Each cell of valid text is one character. |
| WrapWords.LinesShowRows | src/tui/tui.cpp:153-179 | Each row becomes one line with the gutter of the input and the bytes and styles of its cells. |
| WrapLine.RowsFit | src/tui/tui.cpp:181-240 | For every input each row is non-empty and within the safe limit, or a single two-column glyph at limit 1. |
| WrapWords.RowsFitScreen | src/tui/tui.cpp:141-146 | From three columns on every row leaves the last column free; without a known width a line counts as 100 columns. |
| WrapLine.GlyphsKeepOrder | src/tui/tui.cpp:137-278 | For every input the styled glyphs that are not blank come out in the order they went in. |
| WrapLine.FewestRows | src/tui/tui.cpp:181-240 | When no word is wider than a row, the rows are the words joined by spaces, and no split of the words into rows within the limit has fewer. |
| WrapLine.GreedyStaysAhead | src/tui/tui.cpp:181-240 | Any split of the words has more rows than the greedy one, or as many with a last row at least as full. |
| WrapLine.MergingKeepsInk | src/tui/tui.cpp:153-170 | Merging glyphs into spans changes no byte and no style, and leaves no two neighbouring spans alike. |
| PromptEditor.Wrap | src/tui/prompt_editor.h:154-185 | The loop computes the wrapping function. |
| PromptEditor.RowsTile | src/tui/prompt_editor.h:154-185 | On valid text the rows tile the content with only newlines between hard rows; each is as wide as it says, within the limit or a single glyph, and breaks only where the next glyph would not fit. |
| PromptEditor.CursorPosition | src/tui/prompt_editor.h:187-203 | Finds the first row that holds the cursor and its column there, or reports the last row. |
| PromptEditor.CursorHasRow | src/tui/prompt_editor.h:187-203 | On valid text every cursor in range is found on a row. |
| PromptEditor.Component.OnEvent | src/tui/prompt_editor.h:342-408 | Each event has the effect that `EveryEvent` states, and keeps the editor valid. |
| PromptEditor.EveryEvent | src/tui/prompt_editor.h:217-408 | Per event, in terms of glyph boundaries and rows: text goes in at the cursor or over the selection; Backspace and Delete take the glyph before or after the cursor, or the selection; Left and Right move by one glyph; Up and Down go to the row above or below the one that holds the cursor, at the nearest column not past the old one, or nowhere; Home and End go to the ends of that row; a click goes to its row and column. |
| PromptEditor.AfterValid | src/tui/prompt_editor.h:223-308 | Every event keeps the text valid UTF-8 and the cursor in range on a glyph boundary. |
| PromptEditor.EditingStaysValid | src/tui/prompt_editor.h:342-408 | So does every sequence of events, and the cursor always has a row. |
| PromptEditor.RightThenLeft | src/tui/prompt_editor.h:250-263 | Right then Left comes back exactly when there is a glyph to the right, or no text at all. |
| PromptEditor.LeftThenRight | src/tui/prompt_editor.h:250-263 | Left then Right comes back exactly when there is a glyph to the left, or no text at all. |
| PromptEditor.TypeThenBackspace | src/tui/prompt_editor.h:233-240 | Backspace takes back a typed character. |
| PromptEditor.BackspaceIsLeftDelete | src/tui/prompt_editor.h:233-248 | Backspace is Left and then Delete. |
| PromptEditor.TypeOverSelection | src/tui/prompt_editor.h:349-386 | Typing over "select all" replaces the text, except that on an empty text the second character replaces the first. |
| PromptEditor.MovesToColumn | src/tui/prompt_editor.h:265-300 | Up, Down and a click land on the row asked for, as near to the column as its glyphs allow without passing it. |
| PromptEditor.HomeTwice | src/tui/prompt_editor.h:302-308 | Home pressed again stays put exactly when the row begins the text or follows a newline. |
| Conflicts.ConflictTracker.RegisterRead | src/server/server.cpp:96-103 | Records the hash for the reader and takes the file as the poller's new view. |
| Conflicts.ConflictTracker.UpdateConflictState | src/server/server.cpp:168-180 | Every reader of the path now has the new hash, those to be told are listed, and the poller's view is refreshed. |
| Conflicts.NoticesGoToStaleReaders | src/server/server.cpp:168-193 | Notices go, once each, to exactly the readers other than the author whose known contents differ. |
| Conflicts.RecordedIsLastKnown | src/server/server.cpp:150-193 | At every point of every run, the recorded hash of an agent for a file is the last one it read, wrote as a reader, or was sent a notice for. |
| Conflicts.NoticesAreNews | src/server/server.cpp:168-180 | A notice never goes to the author of the change and always differs from what its receiver last knew. |
| Conflicts.ChangeSettles | src/server/server.cpp:168-180 | After a change every reader of the path knows its contents. |
| Conflicts.ConflictTracker.PollScan | src/server/server.cpp:588-617 | One round of the poller gives the new views and the paths to announce. |
| Conflicts.PollerAnnouncesIff | src/server/server.cpp:592-616 | A path is announced exactly when it was and is readable, its time or size has changed and its contents differ from those last looked at. |
| Conflicts.LookIsCurrentIff | src/server/server.cpp:592-612 | Looking at a file again brings the poller's view up to date unless its contents have changed under the same time and size. |
| Conflicts.ViewIsLastLook | src/server/server.cpp:96-103 | As long as changes show in time or size, at every point of every run the poller's view of a file is the file as last read, written or polled. |
| Conflicts.PollAfterWriteIsQuiet | src/server/server.cpp:574-622 | A poll after a reported write, with the file as the write left it, does not announce it. |
| Conflicts.SecondPollIsQuiet | src/server/server.cpp:574-622 | A second poll of an unchanged disk announces nothing. |
| Conflicts.PollTellsIff | src/server/server.cpp:574-622 | A reader with old contents is told by a poll exactly when the poller's own view is old too. |
| Conflicts.ReadHidesChange | src/server/server.cpp:529-536 | A run in which another agent's read hides a change from the poller. |

## Left out

- Sockets, `poll`, `fork`, signals, stat, hashing and clocks are inputs: event scripts, file states, or the success of a send.
- HTTP, JSON and SSE decoding: a frame or a provider event is already a value, and `complete` may deliver any events and may throw.
- `clear`, `model_set` and `auth_set` while a turn runs: the server does not test `busy` for them, and the model assumes they do not come during a turn.
- Two connections with the same id: ids are four random hex digits, and `ServerProtocol` assumes each is fresh.
- `hello` frames that are refused, `send_state`, `ping`, `agents` and inbox delivery do not take part in the turn protocol.
- Exceptions that are not `std::exception` in a turn, and the swarm notices put in front of a prompt: `AgentTurn` starts from the finished prompt, and a cancelled turn does not bring the notices back.
- SessionProtocol.StepKeepsInv: the agent's code inside a turn is one step with an arbitrary code, cancelled only while the flag is up; `AgentTurn` proves that about the code itself.
- RemoteSession.RunInv: a lost connection without a shutdown or bye frame leaves the call waiting for ever; the model has no step that would end it, as the code has none.
- LineReader.LineReader.NextLine: time-outs and the elapsed time are not modelled, so a call may also stay blocked at the end of its script.
- The client's second `LineReader`, which starts without the bytes its first one had buffered: the framing properties are per reader.
- ReadPage.ReadFile: the unpaged branch, binary file names and magic bytes, and directories.
- ReadPage.ChunksDoNotMatter: says nothing of lines over 2000 bytes; `ReadSteady.ChunksDoNotShowIff` covers them.
- ReadChunks.EveryChunkingAcceptedIff: the chunks are arbitrary, where the source asks for 64 KiB at a time; `AcceptedIffSpared` is about any given chunks.
- ApplyPatch.Workspace.Execute: paths are keys, without aliases, links or directories, and nobody else changes the disk meanwhile.
- Conflicts.PollAfterWriteIsQuiet: speaks only of the poll directly after the write.
- `send_to` looks up a client's descriptor under `mu_` and sends under `send_mu_`; a descriptor closed and reused in between is not modelled.
- `deliver_inbox` drops a notice for an agent without a slot; a notice counts as delivered when it is handed over.
- Conflicts.ConflictTracker.PollScan: stat and hash of a file are read at one moment.
- PromptEditor.Component.OnEvent: characters typed are whole UTF-8 characters, the owner of the text keeps it valid, and rendering and terminal escape sequences are not modelled.
- WrapLine.FewestRows: nothing is said about the number of rows when a word is wider than a row.
- FTXUI rendering, Markdown, HTML, the live region, command text, credentials and the thin tools (bash, glob, grep, ls, write, edit, skill, websearch, webfetch, msg, peers).
