# NetLane verification

A Dafny model of the parts of NetLane that keep state across failures, with proofs of what
they are for: the conversation bridge to the assistant process, the elevated routing session,
the change of the default connection with its recovery journal, the two routing engines and
the service that drives them, the live capture with its in-memory file, the icon cache, the
line readers, the civil-date labels, the citation check and the investigation package.

`dafny verify dfyconfig.toml` checks everything. Nothing here runs the program.

## How it is organised

Each module follows one component. Where the program changes things step by step, the model is
a class or a method with the same branches, proved against functions whose properties are then
proved for all inputs and all runs. Where several threads or processes interleave, the model is
a state machine whose steps are the atomic pieces of each of them, and the theorems are about
every sequence of steps.

- `BridgeModel`, `BridgeSafety`, `BridgeLife`, `BridgeTheorems`, `BridgeAnswers`, `Bridge`: one input of `serve`
  is one step. `Bridge.Serve` is the loop over mutable tables and is proved to produce a run of
  the step function, stopped at any write that fails. `BridgeLife.See` describes, without the
  bridge's tables, what anyone may observe of one conversation; every run refines it, and the
  theorems are read off it. `BridgeAnswers` says what the bridge owes to each input, without
  the functions that compute it.
- `ElevatedSession`: window, controller thread and agent process as one interleaved machine;
  `SessionStops` says how a session ends, and `RoutingLease` sets it beside agents of other windows.
- `DefaultCommit`: the four messages of a default-connection change. `DefaultConnection` holds
  the planning, verification and journal functions, `PlanChecks` what they are for, `WriteAhead` the computer that executes
  them, with a record of every point at which it could have stopped, and `OrphanedHelper` the
  interleavings of the next window with a helper whose own window has died.
- `PolicySession`, `WfpEngine`, `RoutingEngine`, `RoutingWorker`: a filtering session whose every
  call may fail, and its clients.
- `PcapImage`, `CaptureWindow`, `LiveCapture`: the capture file and its sequential reader, the
  packet table in both modes, and the thread that feeds it.
- `IconCache`, `Framing`, `Calendar`, `Citations`, `BundlePlan`, `BundleSave`: one component each.

Counters such as `failures`, `faults`, `losses` and `cancellations` count what the outside refused,
so that a contract can say that a call fails for no other reason, and that it succeeds when there
is none.

A value chosen with `:= *` stands for what the outside decides: whether a call succeeds, what
the server sends, how bytes are cut into chunks, whether a user cancels.

## What the proofs found

Some expectations hold only under a condition. Each has a concrete counterexample or an exact
condition:

- A capture image is read back by the sequential reader exactly when every record is non-empty,
  no longer than its original length and at most one mebibyte long (`PcapImage.RoundTrip`); the
  packet table accepts longer records (`CaptureWindow.LongRecordIsNotRead`).
- No accepted prompt of the bridge is lost exactly as long as no turn is begun on a thread that has
  an active one (`BridgeTheorems.PromptsAreKeptExactly`). A server that never repeats a thread
  identifier still held keeps to that; `RepeatedThreadLosesAPrompt` is a run of five inputs in which
  a repeated one loses a prompt.
- In any run a prompt can end twice, in one way: Done while its turn/start is unanswered, and Failed when the
  answer is an error (`BridgeTheorems.EndsAtMostOnce`, with the run `PromptEndsTwice`).
- A Start accepted before the controller thread fails to build its runtime leaves the session shown
  as busy for ever; in no other case is `busy` left behind (`ElevatedSession.BusyMeansWork`,
  `BusyLeftBehind`).
- Window and helper can end in disagreement in two ways: the window failed or died after
  acknowledging, or a revert failed without any acknowledgement (`DefaultCommit.Unreported`,
  `DisagreementIsPossible`, `FailedRevertIsPossible`).
- A helper whose window has died may still be inside a write, or revert. A Restore that then finds
  every original in place launches no helper, so nothing excludes the old one, and it clears the
  journal; the write lands afterwards with nothing recorded (`OrphanedHelper.OriginalIsLost`).
  `OrphanedHelper.ClearingIsSafeExactly` gives the exact condition.
- A computer that stops inside a write which reached one of the two stores only is left with a journal
  that remembers the original and cannot be used: the half-written setting is in no record and is
  taken for a change made outside (`PlanChecks.TornWriteBlocksRestoration`). `RestorableExactly` says
  when a journal can be used, and `PreparedStaysKnown` that whole writes never get in its way.
- The journal remembers the setting in force before a change exactly when it holds no earlier
  original for that interface, or holds this one (`WriteAhead.PreparedRecordsPresentIff`).
- The counter of discarded packets covers batches refused by a full queue, not batches sent when
  nobody listens any more, and in the long mode not the copies held back when the recorder stops;
  `LiveCapture.UncountedExactly` and `UncountedCopiesExactly` say when the count is complete.
- A capture that reaches its byte bound can keep a packet delivered after a refused one, so that the
  saved file has a hole (`CaptureWindow.SavedWithAHole`); `KeptIsPrefixExactly` says when it has none.
- A cleanup shown as confirmed speaks of this window's agent only: an agent that the lease refused is
  confirmed while another still has its engine open (`RoutingLease.ConfirmedBesideAnother`).

## Model

| member | source | states |
|---|---|---|
| BridgeSafety.ResolveIdempotent | crates/netlane-ai/src/bridge.rs:752-771 | resolving a model twice changes nothing, so what was selected is never refused later |
| BridgeSafety.StepKeeps | crates/netlane-ai/src/bridge.rs:520-668 | every arm keeps the invariant: one request and one turn per conversation, threads recorded under their conversation, nothing in flight without an account, login only while signed out |
| BridgeSafety.RunKeeps | crates/netlane-ai/src/bridge.rs:476-668 | the invariant and the bound of eight conversations hold after every run, whatever the server answers |
| BridgeSafety.InFlightBound | crates/netlane-ai/src/bridge.rs:355-378 | request ids in flight were issued by this connection, conversations in flight never exceed eight, and the two tables together never exceed sixteen entries although admission tests against eight |
| BridgeSafety.SynchronousExactly | crates/netlane-ai/src/bridge.rs:261-276 | exactly the listed inputs make a step wait for a reply and discard everything else |
| BridgeSafety.SynchronousCallsSwallowNoTurn | crates/netlane-ai/src/bridge.rs:525-552 | the discard loop never meets a message for a live request or turn except in Logout, and a completed Logout leaves nothing in flight and no account |
| BridgeSafety.SelectedModelIsNeverRefused | crates/netlane-ai/src/bridge.rs:562-576 | in every run a prompt without its own model is never refused for its model |
| BridgeLife.StepSeen | crates/netlane-ai/src/bridge.rs:520-668 | one step, whatever it is, shows every conversation only what its observer allows, and while the session goes on the tables agree with what was observed |
| BridgeLife.EveryRunIsSeen | crates/netlane-ai/src/bridge.rs:476-668 | refinement: for every conversation and every run, whatever the server sends and wherever it is cut short, the trace is one the independent observer accepts and the tables agree with it |
| BridgeTheorems.NoAcceptedPromptIsLost | crates/netlane-ai/src/bridge.rs:553-658 | in a run that begins no turn on a thread with an active one, an accepted prompt is queued with its own text and model or its turn is active, until its Done, its Failed or a logout |
| BridgeTheorems.PromptsAreKeptExactly | crates/netlane-ai/src/bridge.rs:355-378 | every accepted prompt is kept until its end, at every point of a run, if and only if no step of the run begins a turn on a thread that has an active one |
| BridgeTheorems.FreshThreadsNeverOverlap | crates/netlane-ai/src/bridge.rs:599-612 | a server that gives no new thread the identifier of one still held meets that condition, and no two conversations then hold one thread |
| BridgeTheorems.EndsAtMostOnce | crates/netlane-ai/src/bridge.rs:597-658 | in every run a prompt ends a second time, by Done or Failed, with none accepted since its first end, exactly when the first end was a Done that came before the answer to its turn/start and the second is the Failed of that answer |
| BridgeTheorems.LateRefusalIsPossible | crates/netlane-ai/src/bridge.rs:597-658 | from every open run with such a Done and no answer since, an error reply to a request still pending is that second end |
| BridgeTheorems.PromptEndsTwice | crates/netlane-ai/src/bridge.rs:597-658 | a run of five inputs from the opening in which one prompt gets Done and then Failed |
| BridgeTheorems.TurnStartCarriesTheAcceptedPrompt | crates/netlane-ai/src/bridge.rs:553-576 | in every run each turn/start carries exactly the text, model and effort of the last prompt accepted for it, which had neither ended nor begun before, whatever SetModel did meanwhile |
| BridgeTheorems.TextBelongsToTheBoundTurn | crates/netlane-ai/src/bridge.rs:635-650 | in every run each text event belongs to the turn bound last, which has not ended and was the last begun on its thread by any conversation, and the bytes forwarded of a turn never exceed the limit |
| BridgeTheorems.CounterIsForwarded | crates/netlane-ai/src/bridge.rs:645-650 | in every run the byte counter of an active turn is the number of bytes forwarded of it |
| BridgeTheorems.CancelSilences | crates/netlane-ai/src/bridge.rs:577-591 | in every run no text of a conversation appears after Cancel before its next accepted prompt or a Reset that took effect |
| BridgeTheorems.FreshRunExists | crates/netlane-ai/src/bridge.rs:553-618 | a concrete run with fresh thread ids accepts, begins and binds a prompt |
| BridgeTheorems.RepeatedThreadLosesAPrompt | crates/netlane-ai/src/bridge.rs:355-378 | a server that repeats a thread id makes an accepted prompt vanish without Done or Failed |
| BridgeAnswers.ResolveSelects | crates/netlane-ai/src/bridge.rs:752-771 | what a choice comes to: its own option or else the first one, its effort or else the default one, and without options the two defaults |
| BridgeAnswers.ChoiceInForce | crates/netlane-ai/src/bridge.rs:486-495 | in every open run the choice in force is what the last SetModel asked for, as far as the options have it |
| BridgeAnswers.ListedChoiceStays | crates/netlane-ai/src/bridge.rs:573-576 | a listed model and effort that SetModel asks for is the choice in force, exactly, until the next SetModel |
| BridgeAnswers.SetModelAnswer | crates/netlane-ai/src/bridge.rs:573-576 | the Models event shows the choice that is then in force, and is sent exactly while signed in |
| BridgeAnswers.AcceptedAsAsked | crates/netlane-ai/src/bridge.rs:553-572 | in every run each accepted prompt was given with that text, and its model is the one named in it or else what the last SetModel before it selected |
| BridgeAnswers.PromptAnswer | crates/netlane-ai/src/bridge.rs:553-572 | a prompt is refused for exactly the listed reasons, which changes nothing, and otherwise begun on its known thread or with a request for one |
| BridgeAnswers.CancelAnswer | crates/netlane-ai/src/bridge.rs:582-591 | Cancel mutes the conversation and interrupts exactly the running turn that the observer has seen bound |
| BridgeAnswers.ResetAnswer | crates/netlane-ai/src/bridge.rs:577-581 | Reset does nothing while the observer sees a turn running and otherwise gives the thread up |
| BridgeAnswers.NotificationAnswer | crates/netlane-ai/src/bridge.rs:635-658 | each notification about a running turn has its effect: bound once, its text forwarded whole until muted or too long, its completion reported, a forbidden item fatal |
| BridgeAnswers.UnaskedAnswer | crates/netlane-ai/src/bridge.rs:597-658 | a notification about any other thread, a reply nobody waits for and an unknown message do nothing; a request of the server is denied |
| BridgeAnswers.ReplyAnswer | crates/netlane-ai/src/bridge.rs:597-620 | each answer to an open request: an error ends its prompt, a thread is kept and the prompt begun on it unless cancelled, a turn is bound and interrupted if cancelled |
| BridgeAnswers.LoginAnswer | crates/netlane-ai/src/bridge.rs:525-532 | a login starts only while signed out with none open, and its address is shown exactly when the answer is a ChatGPT login with an admissible address and identifier |
| BridgeAnswers.CancelLoginAnswer | crates/netlane-ai/src/bridge.rs:533-538 | an open login is cancelled by its identifier and is open no more |
| BridgeAnswers.LoginCompletedAnswer | crates/netlane-ai/src/bridge.rs:623-634 | signed in after a completed login exactly if it succeeded and the account read afterwards is a ChatGPT one, with the model chosen before |
| BridgeAnswers.LogoutAnswer | crates/netlane-ai/src/bridge.rs:540-552 | a confirmed logout is a connection opened without an account, but for the model chosen; an open login is cancelled first |
| BridgeAnswers.TickAnswer | crates/netlane-ai/src/bridge.rs:660-667 | the clock cancels an expired login and ends the session exactly for an overdue request or turn or a cancellation that fails |
| BridgeAnswers.HangUpAnswer | crates/netlane-ai/src/bridge.rs:520-523 | the end of the window's commands ends the session |
| BridgeAnswers.NothingElseChanges | crates/netlane-ai/src/bridge.rs:520-668 | the account, the open login, the threads held and the muted conversations change only by the inputs that concern them |
| Bridge.Bridge.BeginTurn | crates/netlane-ai/src/bridge.rs:355-378 | the request goes out first; the two tables change only when it was written |
| Bridge.Bridge.HandleLogin | crates/netlane-ai/src/bridge.rs:525-532 | a login request is only accepted with a valid address and identifier; the trace stops exactly where a write failed |
| Bridge.Bridge.HandleLogout | crates/netlane-ai/src/bridge.rs:540-552 | a confirmed logout leaves a fresh connection: no account, empty tables, the counter of a new process |
| Bridge.Bridge.HandlePrompt | crates/netlane-ai/src/bridge.rs:553-572 | a prompt is refused for each of the listed reasons and otherwise begun on its known thread or with a new one |
| Bridge.Bridge.HandleReset | crates/netlane-ai/src/bridge.rs:577-581 | a conversation with a live turn is left alone; otherwise its thread is released and its cancel mark dropped |
| Bridge.Bridge.InterruptTurns | crates/netlane-ai/src/bridge.rs:584-590 | the loop over active turns marks every turn of the conversation and interrupts the one that is bound |
| Bridge.Bridge.HandleCancel | crates/netlane-ai/src/bridge.rs:582-591 | the conversation is marked and its bound turn interrupted once |
| Bridge.Bridge.HandleReply | crates/netlane-ai/src/bridge.rs:597-620 | a reply is taken once: an error ends the prompt, a thread is recorded and begun unless cancelled, a turn is bound or the session ends |
| Bridge.Bridge.BindReply | crates/netlane-ai/src/bridge.rs:611-619 | a turn is bound once to the active entry of its thread, and interrupted if it was cancelled before |
| Bridge.Bridge.HandleLoginCompleted | crates/netlane-ai/src/bridge.rs:623-634 | only the pending login's completion is followed, and the account is read again before anyone counts as signed in |
| Bridge.Bridge.HandleNotification | crates/netlane-ai/src/bridge.rs:635-658 | notifications act on the named live turn only: bind once, forward matching text within the limit, end on a forbidden item, finish on completion |
| Bridge.Bridge.HandleTick | crates/netlane-ai/src/bridge.rs:660-667 | an expired login is cancelled; an overdue turn ends the session |
| Bridge.Bridge.Serve | crates/netlane-ai/src/bridge.rs:476-671 | the whole loop over mutable tables takes every input until the session ends and produces the trace of a run of the model, in which no step is cut short unless a write failed, so every theorem about runs is about it |
| ElevatedSession.NextKeeps | crates/netlane-agent/src/lib.rs:77-414 | every atomic piece of window, controller and agent keeps the invariant |
| ElevatedSession.RunKeeps | crates/netlane-agent/src/lib.rs:77-414 | the invariant holds in every interleaving, from the moment the controller thread is spawned and whether or not it can build its runtime |
| ElevatedSession.StartIsExclusive | crates/netlane-agent/src/lib.rs:96-123 | a start is accepted only with no agent process, no open engine, the routing options as they were and no other Start queued |
| ElevatedSession.LaunchIsExclusive | crates/netlane-agent/src/lib.rs:196-262 | an agent is launched only on such a machine |
| ElevatedSession.StartArmsAreUnreachable | crates/netlane-agent/src/lib.rs:263-374 | at most one Start is ever queued and none during exchange or the wait for the exit, so those arms never run |
| ElevatedSession.BusyMeansWork | crates/netlane-agent/src/lib.rs:77-195 | while the controller listens, busy is set exactly when a Start is queued; without a controller nothing is queued, and busy is left behind exactly when a Start was accepted before the runtime failed |
| ElevatedSession.BusyLeftBehind | crates/netlane-agent/src/lib.rs:77-123 | the shortest such run: after it the session is shown as busy for ever, with nothing queued and nothing running |
| ElevatedSession.ShownIsTrue | crates/netlane-agent/src/lib.rs:375-414 | not running means no agent; a confirmed cleanup means engine closed and options restored |
| ElevatedSession.AcceptKeeps | crates/netlane-agent/src/lib.rs:375-414 | a report taken from the agent never makes a cleanup look confirmed that was not |
| ElevatedSession.UnconfirmedCleanupIsFinal | crates/netlane-agent/src/lib.rs:496-525 | after an unconfirmed cleanup no later start is ever accepted |
| SessionStops.AgentIsToldInOrder | crates/netlane-agent/src/lib.rs:318-350 | in every run the agent is told to begin, then of updates, and at most once and last to end; an exchange that takes commands has not told it to end, one that is exiting has |
| SessionStops.StopIsPassedOn | crates/netlane-agent/src/lib.rs:341-347 | a stop taken, or a window found gone, makes the session busy and tells the agent to end, or leaves only its last word to wait for when the write fails |
| SessionStops.UpdatesArePassedOn | crates/netlane-agent/src/lib.rs:348 | queued updates reach the agent one by one, in order |
| SessionStops.StopGetsThrough | crates/netlane-agent/src/lib.rs:341-350 | from every reachable exchange with a stop queued or the window gone, taking the commands with successful writes passes the updates before it on and tells the agent to end |
| SessionStops.StopLeadsToTheWait | crates/netlane-agent/src/lib.rs:305-374 | from there every continuation stays in the exit, telling the agent nothing more, until it waits for the agent to be gone |
| SessionStops.ExchangeEndsExactly | crates/netlane-agent/src/lib.rs:333-374 | an exchange ends exactly at the last word, the loss or the silence of the agent, ends well exactly at its Stopped, and drains exactly after a write that failed |
| SessionStops.DrainingEndsExactly | crates/netlane-agent/src/lib.rs:356-372 | after a failed write only the last word of the agent or its loss ends the wait |
| SessionStops.WordShows | crates/netlane-agent/src/lib.rs:375-414 | what each report changes of what is shown; only the agent that says it stopped decides whether the cleanup is confirmed |
| SessionStops.WaitEndsExactly | crates/netlane-agent/src/lib.rs:263-296 | the wait ends exactly when the agent is found gone; until then the session is shown as running and busy, afterwards as neither |
| SessionStops.ReportedUnlessConfirmed | crates/netlane-agent/src/lib.rs:253-262 | in every run an error is reported at the end exactly when the cleanup was not confirmed |
| SessionStops.CommandsQueueUp | crates/netlane-agent/src/lib.rs:96-143 | commands of the window wait behind those given before; a window that goes leaves a stop behind; a start is taken exactly when it is accepted |
| SessionStops.OnlyAStartLaunches | crates/netlane-agent/src/lib.rs:148-195 | the outer loop drops every command but a start, and a start leads to a launch only while the cleanup is confirmed |
| SessionStops.CanReturn | crates/netlane-agent/src/lib.rs:148-374 | from every state with a controller the session can come back to its outer loop with every queued command still queued |
| SessionStops.CanEnd | crates/netlane-agent/src/lib.rs:148-195 | once the window is gone the controller can end, whatever is still queued |
| SessionStops.WholeSession | crates/netlane-agent/src/lib.rs:77-414 | a run that starts, is told of an update, is stopped on request, has its cleanup confirmed and can start again |
| RoutingLease.IsARun | crates/netlane-agent/src/lib.rs:433-525 | beside agents of other windows a session does nothing it could not do alone, so what is proved of its runs holds there |
| RoutingLease.LeaseExcludes | crates/netlane-agent/src/lib.rs:433-461 | whatever other agents do within the rules of the lease, the agent at work has an open engine or changed options only while it alone holds it |
| RoutingLease.ConfirmedIsOwn | crates/netlane-agent/src/lib.rs:375-414 | a confirmed cleanup is true of this window's agent whatever other agents do |
| RoutingLease.ConfirmedBesideAnother | crates/netlane-agent/src/lib.rs:433-525 | a run in which an agent refused by the lease ends with a confirmed cleanup while another agent has its engine open |
| DefaultCommit.RunKeeps | crates/netlane-agent/src/default_connection.rs:51-150 | how far each side can be, given what the other said, in every run |
| DefaultCommit.Agreement | crates/netlane-agent/src/default_connection.rs:51-150 | once the helper is gone, something of the change is in place exactly when a successful receipt was accepted or a rollback failed, and an accepted success was verified and acknowledged by the window |
| DefaultCommit.ReportedIsTrue | crates/netlane-agent/src/default_connection.rs:51-150 | a success returned by the window was accepted, is in place and was confirmed by exit code 0; a failure returned as rolled back left nothing; any other had a rollback in doubt |
| DefaultCommit.Unreported | crates/netlane-agent/src/default_connection.rs:51-150 | a change in place that a failed or dead window does not report was acknowledged by it, or its rollback failed |
| DefaultCommit.DisagreementIsPossible | crates/netlane-agent/src/default_connection.rs:125-147 | the first is reachable: the window gave up after acknowledging |
| DefaultCommit.FailedRevertIsPossible | crates/netlane-agent/src/default_connection.rs:118-150 | so is the second: without any acknowledgement a failed revert leaves the change in place |
| DefaultCommit.NothingUnchecked | crates/netlane-agent/src/default_connection.rs:75-91 | in every run a change counts as verified only if the window found its successful result valid, and as accepted only if an acknowledgement reached the helper of a living window |
| DefaultCommit.SuccessIsReported | crates/netlane-agent/src/default_connection.rs:51-150 | a run at the end of which the window reports a change that is in place |
| DefaultCommit.RollbackIsReported | crates/netlane-agent/src/default_connection.rs:51-150 | a run at the end of which it reports a failure that left nothing |
| DefaultConnection.PlannedChangesVerify | crates/netlane-core/src/default_connection.rs:153-230 | an accepted plan does what it is for: once installed, the chosen adapter is the default and the verification succeeds |
| DefaultConnection.PreferredBecomesDefault | crates/netlane-core/src/default_connection.rs:153-196 | the cheapest route of the chosen adapter beats every route of every other |
| DefaultConnection.PlannedChangeMatches | crates/netlane-core/src/default_connection.rs:204-230 | each planned change is found installed on the interface it was planned for |
| DefaultConnection.AddOriginalsShape | crates/netlane-core/src/default_connection.rs:470-507 | originals already recorded are kept, and exactly the present metrics of newly changed interfaces are added |
| DefaultConnection.NothingToRestoreIff | crates/netlane-core/src/default_connection.rs:508-521 | nothing is left to restore exactly when every recorded original is active |
| PlanChecks.PlanExactly | crates/netlane-core/src/default_connection.rs:153-196 | a plan is refused exactly when it could not be made, or when a route it leaves alone would be at least as cheap as the chosen adapter's |
| PlanChecks.PlanPrefers | crates/netlane-core/src/default_connection.rs:153-196 | a plan gives the chosen adapter 5 and 55 more than its route to every other interface with a default route or changed before, and touches no other |
| PlanChecks.VerifiedIsDefault | crates/netlane-core/src/default_connection.rs:217-228 | a verified request leaves the chosen adapter connected, with a route cheaper than every route of any other connection |
| PlanChecks.ValidatedIsUnchanged | crates/netlane-core/src/default_connection.rs:231-262 | a validated request finds every interface it changes and the multiset of all routes as they were when it was made |
| PlanChecks.ValidatedVerifies | crates/netlane-core/src/default_connection.rs:263-277 | what it asks for is the plan of this moment, so once installed it is verified |
| PlanChecks.PreparedIsValid | crates/netlane-core/src/default_connection.rs:470-507 | a request just prepared is valid against the read it was made from, so the helper refuses only what it finds changed |
| PlanChecks.RestorationIsValid | crates/netlane-core/src/default_connection.rs:508-521 | so is the request of a restoration |
| PlanChecks.PreparedStaysKnown | crates/netlane-core/src/default_connection.rs:454-507 | however far the writes came, a machine on which each of them happened whole or not at all can be restored from the journal saved before |
| PlanChecks.RestorableExactly | crates/netlane-core/src/default_connection.rs:454-521 | a journal can be used exactly when every interface it is for holds a value recorded for it |
| PlanChecks.TornWriteBlocksRestoration | crates/netlane-core/src/default_connection.rs:454-521 | after a stop inside a write that reached one store only the original is remembered and no restoration is offered |
| WriteAhead.PreparedOriginals | crates/netlane-core/src/default_connection.rs:470-507 | a prepared journal holds for each interface what it held before or what the interface has now |
| WriteAhead.PreparedRecordsPresentIff | crates/netlane-core/src/default_connection.rs:470-507 | exactly when the journal remembers the setting in force before the change |
| WriteAhead.SavingPreparedIsGood | crates/netlane-app/src/default_connection_view.rs:94-100 | saving the prepared journal is safe and covers every interface about to be written |
| WriteAhead.RestorationIsCovered | crates/netlane-core/src/default_connection.rs:508-521 | a restoration only touches interfaces that NetLane wrote to |
| WriteAhead.RestoredIsSame | crates/netlane-core/src/default_connection.rs:508-521 | when nothing is left to restore every interface is as it was before NetLane |
| WriteAhead.Machine.Write | crates/netlane-core/src/default_connection.rs:286-290 | a write, complete or partly applied, happens only to a remembered interface and keeps every point recoverable |
| WriteAhead.Machine.SaveJournal | crates/netlane-core/src/default_connection.rs:557-576 | the journal is replaced atomically and only if it is still the expected one |
| WriteAhead.Machine.ClearJournal | crates/netlane-core/src/default_connection.rs:577-588 | the journal goes only when every interface has its own setting back |
| WriteAhead.OrderedOnce | crates/netlane-core/src/default_connection.rs:390-392 | each change is written once, and none after the preferred interface |
| WriteAhead.VerifiedIsConfirmed | crates/netlane-core/src/default_connection.rs:522-533 | a reread that verifies the request confirms the journal, since a new plan leaves out nothing applied before |
| WriteAhead.RestorationIsDone | crates/netlane-core/src/default_connection.rs:508-521 | once a restoration is in force, a read of every interface finds nothing left to restore |
| WriteAhead.Machine.CheckOne | crates/netlane-core/src/default_connection.rs:393-405 | before each write the owner is there and the interface is found as the request left it, unless a call failed |
| WriteAhead.Machine.RevertOne | crates/netlane-core/src/default_connection.rs:300-346 | one change taken back: success means the original is in force, failure means a failed call or somebody else's setting, which is left alone |
| WriteAhead.Machine.Revert | crates/netlane-core/src/default_connection.rs:298-370 | a confirmed rollback has put back every original, interfaces outside it are untouched, and it is confirmed whenever no call failed, each interface kept its identity and each of its stores held the original or the change |
| WriteAhead.Machine.ApplyRequest | crates/netlane-core/src/default_connection.rs:371-431 | a success has every change in force, written in order and verified by the reread; a confirmed rollback restores every setting; without a failed call a refusal has a read that does not validate, and a failure is rolled back and has a reread that does not verify |
| WriteAhead.Machine.Execute | crates/netlane-agent/src/default_connection.rs:92-150 | the helper ends with a successful receipt only if it was acknowledged; a change that was not acknowledged leaves every setting as it was unless a call failed; the answer is that receipt unless a message was lost |
| WriteAhead.Machine.Perform | crates/netlane-app/src/default_connection_view.rs:83-142 | the journal is saved before anything is written, finalized or cleared only after a reread, and kept in every other case; a finished application is the prepared plan in force, verified by the reread, with the journal confirmed from it; unless a call failed or a message was lost an operation that is not finished has a read that does not admit it or its request |
| WriteAhead.Machine.Crash | crates/netlane-app/src/default_connection_view.rs:83-142 | stopping at any recorded point leaves a recoverable machine |
| WriteAhead.Lifetime | crates/netlane-app/src/default_connection_view.rs:75-142 | over any sequence of operations, crashes and outside changes, every interface holding a value written by NetLane has its own earlier setting in the journal, when each helper ends before the next operation |
| OrphanedHelper.StepKeeps | crates/netlane-app/src/default_connection_view.rs:75-142 | with a helper that may outlive its window, every step but a last reread taken while a helper may still write keeps the machine recoverable and the helper's interfaces covered by the journal |
| OrphanedHelper.LateSaveIsGood | crates/netlane-app/src/default_connection_view.rs:94-100 | a journal planned from a read that the orphan's writes have overtaken is still safe to save |
| OrphanedHelper.PatientRunsAreRecoverable | crates/netlane-app/src/default_connection_view.rs:75-142 | every run without such a reread is recoverable at every point |
| OrphanedHelper.ClearingIsSafeExactly | crates/netlane-app/src/default_connection_view.rs:119-142 | after the reread that lets the journal be cleared, every continuation stays recoverable if and only if no helper could write any more |
| OrphanedHelper.RevertReadsNow | crates/netlane-core/src/default_connection.rs:298-346 | when an orphan's revert would write is decided by the setting it finds, as the code decides it |
| OrphanedHelper.DiesInsideAWrite | crates/netlane-core/src/default_connection.rs:392-406 | a run that leaves a write issued, its window dead and the interface unchanged |
| OrphanedHelper.ClearedUnderAWrite | crates/netlane-app/src/default_connection_view.rs:102-142 | the next window then restores nothing, meets no helper and clears the journal, and the write lands unrecorded |
| OrphanedHelper.OriginalIsLost | crates/netlane-app/src/default_connection_view.rs:75-142 | the whole run, from a machine never touched to one whose original setting is recorded nowhere |
| OrphanedHelper.ChangeIsConfirmed | crates/netlane-app/src/default_connection_view.rs:75-142 | the ordinary run: a change is made, found again and confirmed in the journal |
| OrphanedHelper.ChangeIsUndone | crates/netlane-core/src/default_connection.rs:298-370 | a run in which the helper takes its change back |
| OrphanedHelper.LooksFirst | crates/netlane-core/src/default_connection.rs:371-431 | a helper starts only where none is left and takes as original only what an interface holds; a journal is settled only after a read that verifies |
| PolicySession.Session.Abort | crates/netlane-core/src/engine.rs:5-12 | a successful abort restores what was there before begin |
| WfpEngine.RemovingOneTracks | src/NetLane.Network/WfpRoutingEngine.cs:102-139 | deleting one entry's policies leaves the others exactly tracked |
| WfpEngine.AddingOneTracks | src/NetLane.Network/WfpRoutingEngine.cs:70-97 | new policies that serve a signature's families extend the disjoint union |
| WfpEngine.CommittedIffSigned | src/NetLane.Network/WfpRoutingEngine.cs:64-97 | a policy is committed exactly when some tracked signature asks for that family, so a cache hit never describes absent policies |
| WfpEngine.SignedIsCommitted | src/NetLane.Network/WfpRoutingEngine.cs:76-85 | each family a tracked signature asks for is committed, both families for a block |
| WfpEngine.SignedIsServing | src/NetLane.Network/WfpRoutingEngine.cs:64-97 | an entry with the signature of a rule is one block for each of the two families, or one route for each family of the adapter, to that adapter, all for the application's path |
| WfpEngine.FoldIgnoresCase | src/NetLane.Network/WfpRoutingEngine.cs:12-27 | names are taken for the same exactly when they differ in nothing but case |
| WfpEngine.Engine.ApplyRule | src/NetLane.Network/WfpRoutingEngine.cs:29-100 | applied means tracked with this signature and served: a blocking rule by exactly two blocks, any other by exactly one route to the adapter for each family it supports; a repeated signature touches nothing; removed and thrown answers have their stated reason or a failed call behind them, and a throw leaves everything as before or the engine disposed and empty |
| WfpEngine.Engine.Install | src/NetLane.Network/WfpRoutingEngine.cs:64-99 | the signature cache and the transaction that replaces one entry |
| WfpEngine.Engine.RemoveRule | src/NetLane.Network/WfpRoutingEngine.cs:102-111 | exactly that entry is gone; it fails only for a disposed engine or a failed call, and then nothing changed or the engine is disposed |
| WfpEngine.Engine.RemoveAllRules | src/NetLane.Network/WfpRoutingEngine.cs:113-121 | everything is gone; it fails only for a failed call, and then nothing changed or the engine is disposed |
| WfpEngine.Engine.Dispose | src/NetLane.Network/WfpRoutingEngine.cs:146-155 | afterwards nothing is tracked and nothing is left in the session |
| RoutingEngine.CommittedIffWanted | crates/netlane-core/src/engine.rs:28-61 | the session holds a policy exactly when the rules applied last ask for it |
| RoutingEngine.PoliciesExactly | crates/netlane-windows/src/wfp.rs:271-283 | a blocking rule asks for both families blocked, any other for those it supports routed to its adapter, each once |
| RoutingEngine.EmptyExactly | crates/netlane-windows/src/wfp.rs:271-283 | a rule is refused as empty exactly when it names no executable or, not blocking, no family |
| RoutingEngine.HeldIsAsked | crates/netlane-core/src/engine.rs:28-61 | the session holds exactly the policies that some rule applied last asks for |
| RoutingEngine.Engine.Apply | crates/netlane-core/src/engine.rs:28-61 | success holds exactly the policies that the new rules ask for, the same rules again touch nothing, a rolled-back failure holds exactly the old ones, a failed rollback poisons and tracks nothing; it fails only when poisoned, after a failed call or for a rule without policies |
| RoutingEngine.Engine.Close | crates/netlane-core/src/engine.rs:67-72 | a closed engine tracks nothing and refuses every further rule set |
| RoutingWorker.Worker.ApplyPolicies | src/NetLane.Service/NetworkRoutingWorker.cs:84-133 | once every policy was tried and every earlier rule taken back the engine holds only what this cycle accepted and the names kept are exactly those, even if publishing then fails; unless a call failed each policy's answer is decided by the policy alone, and the last applicable one of each name is in force in the engine; each other ending has its own cause |
| RoutingWorker.Worker.TakeBack | src/NetLane.Service/NetworkRoutingWorker.cs:128-130 | rules of names no longer accepted are removed; it fails only at such a name, on a disposed engine or after a call that failed in it and left the rule there |
| RoutingWorker.Worker.Cycle | src/NetLane.Service/NetworkRoutingWorker.cs:57-71 | a cycle that ends with an exception has removed everything, or removing failed and the service ends |
| RoutingWorker.Worker.Execute | src/NetLane.Service/NetworkRoutingWorker.cs:44-82 | the cycles are carried out in order until a stop, a failed call or a failed report, and however the service ends, nothing of it is left |
| RoutingWorker.AcceptingOne | src/NetLane.Service/NetworkRoutingWorker.cs:113-126 | one accepted rule keeps the account of what the engine may hold |
| RoutingWorker.CountsOneMore | src/NetLane.Service/NetworkRoutingWorker.cs:89-127 | one more answer changes what the engine holds for its own name only |
| RoutingWorker.CalmIsInForce | src/NetLane.Service/NetworkRoutingWorker.cs:84-133 | what was answered and not taken back again serves the last policy of each name |
| PcapImage.UnpackInverts | scripts/diagnostics-interop.py:27-47 | the reader's unpacking inverts the little-endian writer for every 32-bit value |
| PcapImage.HeaderReads | crates/netlane-app/src/live_capture.rs:292-305 | magic number, version, zeros, capture length and link type lie where a reader of the format looks for them |
| PcapImage.Records | scripts/diagnostics-interop.py:27-47 | the reading loop yields what the sequential reader function yields, or fails where it fails |
| PcapImage.OffsetIsLength | crates/netlane-app/src/packet_view.rs:129-148 | the file length is where the next record begins |
| PcapImage.RecordInPlace | crates/netlane-app/src/packet_view.rs:129-148 | each record lies in the final image at the offset where it was appended |
| PcapImage.RoundTrip | crates/netlane-app/src/live_capture.rs:292-305 | the image is accepted exactly when every record is one the reader admits, and then yields those records in order at their offsets |
| CaptureWindow.WindowIsUnique | crates/netlane-app/src/packet_view.rs:151-183 | the window specification leaves one choice |
| CaptureWindow.WindowMoves | crates/netlane-app/src/packet_view.rs:151-183 | what the excess loop drops turns the old window into the window of the longer capture |
| CaptureWindow.Inspection.Append | crates/netlane-app/src/packet_view.rs:184-222 | numbering, counters and the three columns after one more packet |
| CaptureWindow.ShortenedCounts | crates/netlane-app/src/packet_view.rs:184-222 | the counter of shortened packets is the number of packets with fewer bytes than the original |
| CaptureWindow.Inspection.PushLive | crates/netlane-app/src/packet_view.rs:129-148 | accepted exactly within both bounds; then table and file grow by that record, else nothing changes |
| CaptureWindow.Inspection.PushWindow | crates/netlane-app/src/packet_view.rs:151-183 | the table is the longest suffix of everything appended within both bounds, or just the newest packet |
| CaptureWindow.Inspection.Excess | crates/netlane-app/src/packet_view.rs:153-170 | the smallest number of oldest rows to drop |
| CaptureWindow.Inspection.InstallRecovered | crates/netlane-app/src/packet_view.rs:311-339 | the sample stays, at most one recovered row follows it, the row returned has the number asked for and the omitted count cannot go below zero |
| CaptureWindow.Inspection.Scan | crates/netlane-app/src/packet_view.rs:67-95 | the table of a scanned dump is its sample in the order of the packet numbers, which is a table a recovered packet may be installed into |
| CaptureWindow.NoMoreThanTotal | crates/netlane-app/src/packet_view.rs:336-337 | distinct numbers up to the total cannot outnumber it |
| CaptureWindow.DrainRecorded | crates/netlane-app/src/packet_view.rs:764-769 | after a batch the selection is the row of the same packet, or none exactly when that packet left the table |
| CaptureWindow.DrainLive | crates/netlane-app/src/packet_view.rs:773-786 | a batch is taken up to the first record over the bounds |
| CaptureWindow.DrainBatches | crates/netlane-app/src/packet_view.rs:738-799 | each queued batch is taken up to its first record over the bounds, also after an earlier one was cut short |
| CaptureWindow.KeptIsPrefixExactly | crates/netlane-app/src/packet_view.rs:773-786 | what is kept is the beginning of what was delivered if and only if no batch after one cut short begins with a record that fits |
| CaptureWindow.SavedWithAHole | crates/netlane-app/src/packet_view.rs:773-786 | a run of packets within the capture length of which all are kept but one near the end |
| CaptureWindow.TableMatchesFile | crates/netlane-app/src/packet_view.rs:129-148 | the sequential reader finds the packet of every row at that row's offset, with its lengths, time and bytes |
| CaptureWindow.LongRecordIsNotRead | scripts/diagnostics-interop.py:27-47 | a record within the table's bounds that the reader refuses |
| LiveCapture.Reader.Flush | crates/netlane-app/src/live_capture.rs:225-234 | a batch is queued or counted as dropped, never both, and the batch is empty afterwards |
| LiveCapture.Reader.Run | crates/netlane-app/src/live_capture.rs:167-222 | every record read is in exactly one batch, in order, whatever the queue does and however the capture ends |
| LiveCapture.UncountedExactly | crates/netlane-app/src/live_capture.rs:225-234 | shown plus counted equals read exactly when no batch met a closed channel |
| LiveCapture.Reader.Record | crates/netlane-app/src/live_capture.rs:245-282 | in the long mode every copy is in one batch, in order, or held back, and copies are held back at the end only when the recorder stops right after a ready batch too small and too early to be sent |
| LiveCapture.UncountedCopiesExactly | crates/netlane-app/src/live_capture.rs:225-282 | shown plus counted equals copied exactly when no batch met a closed channel and nothing was held back |
| IconCache.ChosenIsDistinct | crates/netlane-app/src/executable_icons.rs:54-65 | the wanted paths are distinct, at most 128, and all of them unless cut off at 128 |
| IconCache.ChosenExactly | crates/netlane-app/src/executable_icons.rs:54-65 | a path is chosen exactly when its key is new and fewer than 128 keys came before it |
| IconCache.AskedExactly | crates/netlane-app/src/executable_icons.rs:94-114 | only paths not checked for five seconds and not being extracted are asked for, and every one of them while a worker is idle |
| IconCache.SomeVictim | crates/netlane-app/src/executable_icons.rs:67-82 | while the cache would be too large there is an entry to evict, so the break is never taken |
| IconCache.RemovingConserves | crates/netlane-app/src/executable_icons.rs:83-85 | evicting an entry keeps every image shown once or handed back once |
| IconCache.ReplacingConserves | crates/netlane-app/src/executable_icons.rs:139-144 | so does replacing its image |
| IconCache.Icons.Evict | crates/netlane-app/src/executable_icons.rs:66-86 | only unwanted entries go, least recently used first, no more than needed, and their images are handed back |
| IconCache.Icons.Admit | crates/netlane-app/src/executable_icons.rs:87-114 | wanted entries become the most recent in order; the first due ones get tickets while a worker is idle |
| IconCache.Icons.Prepare | crates/netlane-app/src/executable_icons.rs:46-116 | the whole rendering step on entries, tickets and images |
| IconCache.Icons.Complete | crates/netlane-app/src/executable_icons.rs:117-145 | only the entry that waits for this ticket may change; an equal picture keeps its image, any other is replaced and the old one handed back |
| IconCache.Lifetime | crates/netlane-app/src/executable_icons.rs:46-145 | in every run at most 128 entries, busy equals the extractions outstanding and is at most two, no entry waits for an extraction that is over, every chosen path has its entry after a rendering, and of all images made each was handed back once or is shown, never both |
| Framing.SplitIsUnique | crates/netlane-ai/src/protocol.rs:18-38 | a stream has one sequence of whole lines within the limit |
| Framing.DeliveredSoFar | crates/netlane-ai/src/protocol.rs:18-38 | what any reading has delivered is a beginning of those lines |
| Framing.ChunksDoNotMatter | crates/netlane-ai/src/protocol.rs:18-38 | two readings of one stream, chunked and cancelled differently, deliver the same lines and fail for the same reason |
| Framing.JsonLines.Next | crates/netlane-ai/src/protocol.rs:18-38 | one call delivers the next line, fails exactly at a line over the limit or at the end, and is cancelled exactly when its wait was, losing nothing |
| Framing.BridgeReader.ReadFrame | crates/netlane-ai/src/bridge.rs:675-691 | the same for the bridge's reader, which may take one byte past the limit |
| Framing.BridgeReader.ReadUntil | crates/netlane-ai/src/bridge.rs:679-684 | the bounded read stops at the first newline, at the end or one byte past the limit |
| Framing.ReadAll | crates/netlane-ai/src/protocol.rs:18-38 | any number of reads delivers the lines of the stream in order, one for each that was not cancelled, and the first failure comes where they end |
| Framing.ReadAllFrames | crates/netlane-ai/src/bridge.rs:675-691 | the same for the bridge's reader |
| Calendar.Cycles | crates/netlane-ai/src/investigation.rs:115-117 | the reduction by 400-year cycles is exact |
| Calendar.YearOf | crates/netlane-ai/src/investigation.rs:115-128 | the year loop ends at the year whose days contain the day number |
| Calendar.MonthOf | crates/netlane-ai/src/investigation.rs:129-150 | the month loop ends inside the year at the month whose days contain the day |
| Calendar.DateIsUnique | crates/netlane-ai/src/investigation.rs:111-159 | a second has one Gregorian date and time |
| Calendar.LabelReads | crates/netlane-ai/src/investigation.rs:151-158 | the label is 23 characters and reads back to its date |
| Calendar.RegistrationLabel | crates/netlane-ai/src/investigation.rs:111-159 | every second up to the end of 9999 is labelled with the valid date and time that recompose to it, any later one as invalid |
| Calendar.LabelsDiffer | crates/netlane-ai/src/investigation.rs:111-159 | two labels are equal exactly when the seconds are |
| Citations.NothingInside | crates/netlane-ai/src/lib.rs:199-224 | no marker hides inside an accepted citation |
| Citations.EndsThere | crates/netlane-ai/src/lib.rs:204-206 | the first closing brackets after a whole citation's marker are its own |
| Citations.ScanOne | crates/netlane-ai/src/lib.rs:202-221 | one turn of the loop accepts exactly a whole citation of this capture with a known number |
| Citations.ValidateReferences | crates/netlane-ai/src/lib.rs:199-224 | accepted exactly when the context is valid, the answer within its limit and every marker anywhere in it begins such a citation |
| Citations.WrittenCitation | crates/netlane-ai/src/lib.rs:199-224 | a citation written for a packet is accepted exactly when the hash is that of the capture, in either case, and the packet is selected or referred to |
| Citations.NumberIsRead | crates/netlane-ai/src/lib.rs:212-216 | decimal numbers are read back, with or without a sign, as far as they are 64 bits wide |
| BundlePlan.Validate | crates/netlane-ai/src/bundle.rs:227-286 | succeeds exactly on a valid notebook and context with a complete set of captures: required hashes, each once, well formed, at most 128 and 64 GiB, as every context describes them |
| BundlePlan.SameTotal | crates/netlane-ai/src/bundle.rs:263-270 | the budget does not depend on the order of the captures |
| BundlePlan.RequiredExactly | crates/netlane-ai/src/bundle.rs:227-262 | a capture is needed exactly when a turn, a note or the current context refers to it |
| BundlePlan.NameableExactly | crates/netlane-ai/src/bundle.rs:227-262 | which sources can be named in a manifest, and that the name is the folded hash with the suffix of the format |
| BundlePlan.BooksExactly | crates/netlane-ai/src/investigation/persistence.rs:169-183 | a notebook has at most 96 turns, numbered from one, and 32 notes, and is not empty |
| BundlePlan.EveryContextIsDescribed | crates/netlane-ai/src/bundle.rs:271-286 | in a complete selection each context finds its own capture: the same hash, as many packets, the same format |
| BundlePlan.Index | crates/netlane-ai/src/bundle.rs:292-300 | sources are indexed by hash unless two have the same |
| BundlePlan.Plan | crates/netlane-ai/src/bundle.rs:287-308 | a plan is a complete selection of the given sources; it fails only for too many or repeated sources or when there is none |
| BundleSave.Disk.Publish | crates/netlane-ai/src/report.rs:233-244 | a name appears with its whole content or not at all, at every point |
| BundleSave.Disk.SaveNotebook | crates/netlane-ai/src/investigation.rs:368-402 | the receipt is never there without both files; it fails only for a file over 24 MiB, an existing folder or a refusal of the outside |
| BundleSave.Disk.SaveReport | crates/netlane-ai/src/report.rs:170-206 | the receipt is never there without the three files |
| BundleSave.Disk.VerifyReports | crates/netlane-ai/src/bundle.rs:415-459 | success means that every reportable turn has its files and receipt, each within its limit |
| BundleSave.Disk.HashFile | crates/netlane-ai/src/bundle.rs:324-351 | success means the recorded size and hash, whatever the chunks |
| BundleSave.Disk.CopySource | crates/netlane-ai/src/bundle.rs:352-407 | a capture gets its name only with the recorded size and hash, whatever was read or reached the disk; it fails only when the name is taken or the outside refused |
| BundleSave.ManifestIsSafe | crates/netlane-ai/src/bundle.rs:516-522 | the manifest may appear once everything is there and within its limits |
| BundleSave.SizedExactly | crates/netlane-ai/src/bundle.rs:415-524 | the limits at which each file can be read again |
| BundleSave.Disk.Save | crates/netlane-ai/src/bundle.rs:477-524 | at every point at which the computer could stop, a manifest stands for a complete selection with notebook, reports and captures all there and small enough to be read again; success is exactly its presence, and a failure has one of the listed reasons |

## Left out

- Rendering, windows, tray, icon extraction, packet drivers, filtering-engine calls, pipes, process launch and elevation: only their outcomes, success or failure, appear.
- JSON text: messages and files are typed values; the parse failure of a frame is an error of the caller of the readers in `Framing`, after the frame was delivered.
- Time limits are events that may happen at any moment; the lengths of the limits are not modelled.
- Integers of 64 bits that only count (packet numbers, request ids, clocks, byte totals) are unbounded; the 32-bit lengths in the capture file and the parsed citation number keep their width.
- Texts of reports, prompts, errors and status lines, and the choice between error texts.
- BridgeSafety.RunKeeps: the catalogue of models never changes within a run, as `models_for` ignores the account; the ten-second limit on interrupts is part of the overdue event of a tick.
- Bridge.Bridge.InterruptTurns: the order in which the hash table visits turns is arbitrary.
- ElevatedSession.RunKeeps: three threads of control share state, so this component is a machine of atomic steps and not a class; the contents of the policies sent are not modelled, nor is `apply_cycle`, whose engine is `RoutingEngine`.
- DefaultCommit.Agreement: a crash of the helper between writing and answering is not among its events; `WriteAhead` covers it through the journal.
- DefaultConnection.AddOriginalsShape: the order of the journal's lists is not modelled; the code sorts them by identifier.
- WriteAhead.Machine.ChangeOutside: outside changes while an operation runs, and an outside change that sets an interface by hand to a value NetLane had recorded for it, are excluded.
- WriteAhead.Lifetime: a helper whose window has died is finished before the next window's operation starts; `OrphanedHelper` has the other runs.
- OrphanedHelper.StepKeeps: the helper may change interfaces in any order, and outside changes happen only while no window and no helper is at work.
- WfpEngine.Engine.ApplyRule: application paths are compared after folding the letters a to z only, and adapter lookup, usability and the prerequisites, which the code checks at most every two seconds, are inputs.
- RoutingWorker.Worker.ApplyPolicies: loading, expanding and resolving policies are inputs, and of status records and their publication only whether publishing throws.
- CaptureWindow.Inspection.Append: summaries and search texts are only known to be made from their packet.
- CaptureWindow.Inspection.InstallRecovered: that the packet was recovered from this file and names one of its interfaces is an input.
- PcapImage.Records: the PCAPNG branch of the reader, and its floating-point time stamps, which are kept as seconds and ticks.
- LiveCapture.Reader.Run: opening the source and the Started and terminal events.
- LiveCapture.Reader.Record: what the recorder does with the records themselves, and `Tee::poll`, which the recorder does not call.
- IconCache.Icons.Prepare: the test for a local path and case folding are inputs; pictures are compared by their bytes.
- Citations.ValidateReferences: the checks of the context other than its hash are one input.
- BundlePlan.Plan: hashes are taken in any order, not sorted; what the notebook's validation asks of the texts, times and notes is one input.
- BundleSave.Disk.CopySource: the packet count and format found while copying are one outcome of the read.
- BundleSave.Disk.Save: whether the destination is an absolute local path through plain folders is one input, and so is the length of each text; files changed by others during the save, and `load`, are not modelled.
- PCAP export, packet analysis, baselines, QUIC and network experiments, demonstration data and visual proofs.
