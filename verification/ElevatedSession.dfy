/** The elevated routing session: window, controller thread and agent process.

    Each step is one atomic piece of one of the three, the pieces that run under the state
    mutex or between two awaits. Any step that is enabled may come next. `engine` and `flags`
    are the machine: a policy engine that is open, and routing options that were changed and
    not put back. The agent may die at any moment; Windows then closes its engine, but the
    options stay as they are. */
module ElevatedSession {
  datatype Command = Start | Update | Stop

  /** What the controller writes to the agent; pings are left out. */
  datatype Order = Begin | Apply | End

  datatype Report = Hello | Snapshot(matches: bool) | Error | Stopped(success: bool)

  datatype Agent = Absent | Working | Closed(success: bool) | Finished

  /** `Creating`: the thread is building its runtime, and its end of the channel is open. */
  datatype Controller =
    | Creating
    | Receiving
    | Checking
    | Preparing
    | Launched
    | Connecting
    | Greeting
    | Exchanging(exiting: bool)
    | Draining
    | Waiting(ok: bool)
    | Ending(ok: bool)
    | Reporting
    | Gone

  datatype System = System(
    running: bool, busy: bool, cleanup: bool,
    queue: seq<Command>, dropped: bool,
    controller: Controller,
    agent: Agent, inbox: seq<Report>, told: seq<Order>,
    engine: bool, flags: bool)

  datatype Ping = Sent | Unsent | Overdue

  datatype Step =
    | UiStart(valid: bool)
    | UiUpdate
    | UiStop
    | UiDrop
    | RuntimeReady(ok: bool)
    | TakeCommand(sent: bool)
    | CheckCleanup
    | Launch(ok: bool)
    | MarkRunning
    | Connect(ok: bool)
    | Greet(ok: bool)
    | TakeReport
    | LoseAgent
    | SendPing(ping: Ping)
    | WatchExit(take: bool)
    | Conclude
    | ReportError
    | AgentChangesFlags
    | AgentOpensEngine
    | AgentSends(report: Report)
    | AgentCloses(engineClosed: bool, flagsRestored: bool)
    | AgentSaysStopped(sent: bool)
    | AgentExits(flagsRestored: bool)

  predicate Clean(s: System) {
    !s.engine && !s.flags
  }

  // ----- the window -----

  predicate StartAccepted(s: System, valid: bool) {
    valid && !s.dropped && !s.running && !s.busy && s.cleanup && !s.controller.Gone?
  }

  function UiSteps(s: System, step: Step): System {
    match step
    case UiStart(valid) =>
      if StartAccepted(s, valid) then s.(busy := true, queue := s.queue + [Start]) else s
    case UiUpdate => if s.dropped || s.controller.Gone? then s else s.(queue := s.queue + [Update])
    case UiStop => if s.dropped || s.controller.Gone? then s else s.(queue := s.queue + [Stop])
    case UiDrop =>
      if s.dropped then s
      else if s.controller.Gone? then s.(dropped := true)
      else s.(dropped := true, queue := s.queue + [Stop])
    case _ => s
  }

  // ----- the controller -----

  /** One command taken in the outer loop, in `exchange` or while waiting for the exit. */
  function Take(s: System, sent: bool): System {
    match s.controller
    case Receiving =>
      if s.queue != [] then
        var rest := s.(queue := s.queue[1..]);
        if s.queue[0].Start? then rest.(controller := Checking) else rest
      else if s.dropped then s.(controller := Gone)
      else s
    case Exchanging(exiting) =>
      if exiting || (s.queue == [] && !s.dropped) then s
      else
        var command := if s.queue == [] then Stop else s.queue[0];
        var rest := s.(queue := if s.queue == [] then [] else s.queue[1..]);
        (match command
         case Stop =>
           if sent then rest.(busy := true, controller := Exchanging(true), told := s.told + [End])
           else rest.(busy := true, controller := Draining)
         case Update => if sent then rest.(told := s.told + [Apply]) else rest.(controller := Draining)
         case Start => rest)
    case _ => s
  }

  /** `accept_response` on the next report; `exchange` returns on Stopped or on an error. */
  function Accept(s: System): System
    requires s.inbox != []
  {
    var rest := s.(inbox := s.inbox[1..]);
    match s.inbox[0]
    case Snapshot(matches) => if matches then rest.(busy := false) else rest.(controller := Waiting(false))
    case Error => rest.(busy := false)
    case Stopped(success) => rest.(cleanup := success, controller := Waiting(true))
    case Hello => rest.(controller := Waiting(false))
  }

  /** `wait_for_agent_exit`: one turn of its loop, or what follows it. */
  function Watch(s: System, take: bool): System
    requires s.controller.Waiting?
  {
    if s.agent.Absent? then s.(running := false, busy := false, controller := Ending(s.controller.ok))
    else s.(running := true, busy := true, queue := if take && s.queue != [] then s.queue[1..] else s.queue)
  }

  function ControllerSteps(s: System, step: Step): System {
    match step
    case RuntimeReady(ok) =>
      if !s.controller.Creating? then s
      else if ok then s.(controller := Receiving)
      else s.(controller := Gone, queue := [])
    case TakeCommand(sent) => Take(s, sent)
    case CheckCleanup =>
      if !s.controller.Checking? then s
      else if s.cleanup then s.(busy := true, controller := Preparing)
      else s.(controller := Receiving)
    case Launch(ok) =>
      if !s.controller.Preparing? then s
      else if ok then s.(agent := Working, inbox := [], told := [], controller := Launched)
      else s.(controller := Reporting)
    case MarkRunning =>
      if s.controller.Launched? then s.(running := true, cleanup := false, controller := Connecting) else s
    case Connect(ok) =>
      if s.controller.Connecting? then s.(controller := if ok then Greeting else Waiting(false)) else s
    case Greet(ok) =>
      if !s.controller.Greeting? then s
      else if ok && s.inbox != [] && s.inbox[0].Hello? then
        s.(inbox := s.inbox[1..], controller := Exchanging(false), told := s.told + [Begin])
      else s.(controller := Waiting(false))
    case TakeReport =>
      if (s.controller.Exchanging? || s.controller.Draining?) && s.inbox != [] then Accept(s) else s
    case LoseAgent =>
      if s.controller.Exchanging? || s.controller.Draining? then s.(controller := Waiting(false)) else s
    case SendPing(ping) =>
      if !s.controller.Exchanging? then s
      else if ping.Overdue? then s.(controller := Waiting(false))
      else if ping.Unsent? then s.(controller := Draining)
      else s
    case WatchExit(take) => if s.controller.Waiting? then Watch(s, take) else s
    case Conclude =>
      if !s.controller.Ending? then s
      else if s.controller.ok && !s.running && s.cleanup then s.(controller := Receiving)
      else s.(controller := Reporting)
    case ReportError =>
      if s.controller.Reporting? then s.(busy := false, controller := Receiving) else s
    case _ => s
  }

  // ----- the agent -----

  function AgentSteps(s: System, step: Step): System {
    match step
    case AgentChangesFlags => if s.agent.Working? then s.(flags := true) else s
    case AgentOpensEngine => if s.agent.Working? then s.(engine := true) else s
    case AgentSends(report) =>
      if (s.agent.Working? || s.agent.Closed?) && !report.Stopped? then s.(inbox := s.inbox + [report]) else s
    case AgentCloses(engineClosed, flagsRestored) =>
      if s.agent.Working? then
        s.(engine := s.engine && !engineClosed, flags := s.flags && !flagsRestored,
           agent := Closed((!s.engine || engineClosed) && (!s.flags || flagsRestored)))
      else s
    case AgentSaysStopped(sent) =>
      if s.agent.Closed? then
        s.(agent := Finished, inbox := if sent then s.inbox + [Stopped(s.agent.success)] else s.inbox)
      else s
    case AgentExits(flagsRestored) =>
      if s.agent.Absent? then s else s.(agent := Absent, engine := false, flags := s.flags && !flagsRestored)
    case _ => s
  }

  function Next(s: System, step: Step): System {
    match step
    case UiStart(_) => UiSteps(s, step)
    case UiUpdate => UiSteps(s, step)
    case UiStop => UiSteps(s, step)
    case UiDrop => UiSteps(s, step)
    case AgentChangesFlags => AgentSteps(s, step)
    case AgentOpensEngine => AgentSteps(s, step)
    case AgentSends(_) => AgentSteps(s, step)
    case AgentCloses(_, _) => AgentSteps(s, step)
    case AgentSaysStopped(_) => AgentSteps(s, step)
    case AgentExits(_) => AgentSteps(s, step)
    case _ => ControllerSteps(s, step)
  }

  function Initial(): System {
    System(false, false, true, [], false, Creating, Absent, [], [], false, false)
  }

  function Run(s: System, steps: seq<Step>): System {
    if steps == [] then s else Next(Run(s, steps[..|steps| - 1]), steps[|steps| - 1])
  }

  // ----- the invariant -----

  function Starts(queue: seq<Command>): nat {
    if queue == [] then 0 else (if queue[0].Start? then 1 else 0) + Starts(queue[1..])
  }

  lemma {:induction false} StartsOfAppend(queue: seq<Command>, c: Command)
    ensures Starts(queue + [c]) == Starts(queue) + if c.Start? then 1 else 0
  {
    if queue == [] {
      assert queue + [c] == [c];
    } else {
      StartsOfAppend(queue[1..], c);
      assert (queue + [c])[1..] == queue[1..] + [c];
    }
  }

  lemma {:induction false} NoStarts(queue: seq<Command>)
    ensures Starts(queue) == 0 <==> Start !in queue
  {
    if queue != [] { NoStarts(queue[1..]); }
  }

  /** A confirmed cleanup is on its way only from an agent that has done everything. */
  predicate ReportsTruth(s: System) {
    && (s.agent == Closed(true) ==> Clean(s))
    && (Stopped(true) in s.inbox ==> Clean(s) && (s.agent.Finished? || s.agent.Absent?))
  }

  predicate Outside(s: System) {
    s.agent.Absent? && !s.running && (s.cleanup ==> Clean(s))
  }

  predicate Inside(s: System) {
    s.running && !s.cleanup && Starts(s.queue) == 0
  }

  predicate Listening(s: System) {
    Outside(s) && (s.busy <==> Starts(s.queue) == 1) && (s.busy ==> s.cleanup)
  }

  predicate Inv(s: System) {
    && Starts(s.queue) <= 1
    && ReportsTruth(s)
    && match s.controller
       case Creating => Listening(s)
       case Receiving => Listening(s)
       case Checking => Outside(s) && s.busy && s.cleanup && Starts(s.queue) == 0
       case Preparing => Outside(s) && s.busy && s.cleanup && Starts(s.queue) == 0
       case Launched => !s.running && s.busy && s.cleanup && Starts(s.queue) == 0
       case Connecting => Inside(s)
       case Greeting => Inside(s)
       case Exchanging(_) => Inside(s)
       case Draining => Inside(s)
       case Waiting(ok) =>
         && s.running && Starts(s.queue) == 0
         && (s.cleanup ==> ok && Clean(s) && (s.agent.Finished? || s.agent.Absent?))
       case Ending(ok) => Listening(s) && (s.cleanup ==> ok)
       case Reporting => Outside(s) && Starts(s.queue) == 0 && (s.busy || !s.cleanup)
       case Gone => Outside(s) && s.queue == []
  }

  lemma UiKeeps(s: System, step: Step)
    requires Inv(s)
    ensures Inv(UiSteps(s, step))
  {
    StartsOfAppend(s.queue, Start);
    StartsOfAppend(s.queue, Update);
    StartsOfAppend(s.queue, Stop);
  }

  lemma TakeKeeps(s: System, sent: bool)
    requires Inv(s)
    ensures Inv(Take(s, sent))
  {
    if s.queue != [] { assert Starts(s.queue) == (if s.queue[0].Start? then 1 else 0) + Starts(s.queue[1..]); }
  }

  lemma ReadOne(s: System)
    requires ReportsTruth(s) && s.inbox != []
    ensures ReportsTruth(s.(inbox := s.inbox[1..]))
  {
    assert forall r | r in s.inbox[1..] :: r in s.inbox;
  }

  lemma AcceptKeeps(s: System)
    requires Inv(s) && s.inbox != [] && (s.controller.Exchanging? || s.controller.Draining?)
    ensures Inv(Accept(s))
  {
    hide Starts;
    ReadOne(s);
    assert s.inbox[0] in s.inbox;
    if !s.inbox[0].Stopped? { hide ReportsTruth; }
  }

  lemma WatchKeeps(s: System, take: bool)
    requires Inv(s) && s.controller.Waiting?
    ensures Inv(Watch(s, take))
  {
    if s.queue != [] { assert Starts(s.queue) == (if s.queue[0].Start? then 1 else 0) + Starts(s.queue[1..]); }
  }

  lemma GreetKeeps(s: System, ok: bool)
    requires Inv(s)
    ensures Inv(ControllerSteps(s, Greet(ok)))
  {
    if s.inbox != [] { assert forall r | r in s.inbox[1..] :: r in s.inbox; }
  }

  lemma ControllerKeeps(s: System, step: Step)
    requires Inv(s)
    ensures Inv(ControllerSteps(s, step))
  {
    hide Starts, Take, Accept, Watch;
    match step
    case RuntimeReady(_) => NoStarts([]);
    case TakeCommand(sent) => TakeKeeps(s, sent);
    case TakeReport =>
      if (s.controller.Exchanging? || s.controller.Draining?) && s.inbox != [] { AcceptKeeps(s); }
    case WatchExit(take) => if s.controller.Waiting? { WatchKeeps(s, take); }
    case Greet(ok) => GreetKeeps(s, ok);
    case _ =>
  }

  lemma AgentKeeps(s: System, step: Step)
    requires Inv(s)
    ensures Inv(AgentSteps(s, step))
  {
  }

  lemma NextKeeps(s: System, step: Step)
    requires Inv(s)
    ensures Inv(Next(s, step))
  {
    hide Inv, UiSteps, ControllerSteps, AgentSteps;
    UiKeeps(s, step);
    ControllerKeeps(s, step);
    AgentKeeps(s, step);
  }

  lemma {:induction false} RunKeeps(steps: seq<Step>)
    ensures Inv(Run(Initial(), steps))
  {
    if steps != [] {
      hide Inv;
      RunKeeps(steps[..|steps| - 1]);
      NextKeeps(Run(Initial(), steps[..|steps| - 1]), steps[|steps| - 1]);
    }
  }

  // ----- theorems -----

  /** In every interleaving, a start is accepted only when there is no agent, no engine is
      open, the routing options are as they were and no other start is queued. */
  lemma {:induction false} StartIsExclusive(steps: seq<Step>, valid: bool)
    ensures
      var s := Run(Initial(), steps);
      StartAccepted(s, valid) ==> s.agent.Absent? && Clean(s) && Start !in s.queue
  {
    RunKeeps(steps);
    NoStarts(Run(Initial(), steps).queue);
  }

  /** An agent is launched only on such a machine too. */
  lemma {:induction false} LaunchIsExclusive(steps: seq<Step>)
    ensures
      var s := Run(Initial(), steps);
      s.controller.Preparing? ==> s.agent.Absent? && Clean(s) && s.busy && s.cleanup && Start !in s.queue
  {
    RunKeeps(steps);
    NoStarts(Run(Initial(), steps).queue);
  }

  /** At most one Start is ever queued; none while a session is exchanging or ending, so the
      Start arms there are unreachable, and so is the refusal in the outer loop. */
  lemma {:induction false} StartArmsAreUnreachable(steps: seq<Step>)
    ensures
      var s := Run(Initial(), steps);
      && Starts(s.queue) <= 1
      && (s.controller.Exchanging? || s.controller.Draining? || s.controller.Waiting? ==> Start !in s.queue)
      && (s.controller.Checking? ==> s.cleanup)
  {
    RunKeeps(steps);
    NoStarts(Run(Initial(), steps).queue);
  }

  /** The controller thread failed to build its runtime at step `k`. */
  ghost predicate FailsAt(steps: seq<Step>, k: int) {
    0 <= k < |steps| && steps[k] == RuntimeReady(false) && Run(Initial(), steps[..k]).controller.Creating?
  }

  ghost predicate StartAcceptedAt(steps: seq<Step>, j: int) {
    0 <= j < |steps| && steps[j].UiStart? && StartAccepted(Run(Initial(), steps[..j]), steps[j].valid)
  }

  /** A Start was accepted before the runtime failed: it was dropped with the channel. */
  ghost predicate StartLost(steps: seq<Step>) {
    exists j, k :: j < k && StartAcceptedAt(steps, j) && FailsAt(steps, k)
  }

  lemma FailsBefore(steps: seq<Step>, n: nat, k: int)
    requires n <= |steps|
    ensures FailsAt(steps[..n], k) <==> k < n && FailsAt(steps, k)
    ensures StartAcceptedAt(steps[..n], k) <==> k < n && StartAcceptedAt(steps, k)
  {
    if 0 <= k < n { assert steps[..n][..k] == steps[..k]; }
  }

  lemma UiLeavesControl(s: System, step: Step)
    ensures UiSteps(s, step).controller == s.controller
    ensures UiSteps(s, step).busy <==> s.busy || (step.UiStart? && StartAccepted(s, step.valid))
  {
  }

  /** How the controller leaves `Creating` and how it comes to be `Gone`. */
  predicate Edge(s: System, s': System, step: Step) {
    && (s.controller.Gone? || s'.controller.Creating? ==> s'.controller == s.controller && s'.busy == s.busy)
    && (s'.controller.Gone? && !s.controller.Gone?
        ==> s'.busy == s.busy
            && (if s.controller.Creating? then step == RuntimeReady(false) else s.controller.Receiving? && s.queue == []))
  }

  lemma TakeEdges(s: System, sent: bool)
    ensures Edge(s, Take(s, sent), TakeCommand(sent))
  {
  }

  lemma ReportEdges(s: System, step: Step)
    requires step.TakeReport? || step.WatchExit? || step.Greet?
    ensures Edge(s, ControllerSteps(s, step), step)
  {
    hide Take;
  }

  lemma ControllerEdges(s: System, step: Step)
    ensures Edge(s, ControllerSteps(s, step), step)
  {
    hide Accept, Watch, Take;
    if step.TakeCommand? {
      hide Edge;
      TakeEdges(s, step.sent);
    } else if step.TakeReport? || step.WatchExit? || step.Greet? {
      hide ControllerSteps;
      ReportEdges(s, step);
    }
  }

  lemma GoneStays(s: System, step: Step)
    requires s.controller.Gone?
    ensures Next(s, step).controller.Gone? && Next(s, step).busy == s.busy
  {
    UiLeavesControl(s, step);
    ControllerEdges(s, step);
    AgentLeavesControl(s, step);
    hide UiSteps, ControllerSteps, AgentSteps;
  }

  lemma StaysCreating(s: System, step: Step)
    requires Next(s, step).controller.Creating?
    ensures s.controller.Creating?
    ensures Next(s, step).busy <==> s.busy || (step.UiStart? && StartAccepted(s, step.valid))
  {
    UiLeavesControl(s, step);
    ControllerEdges(s, step);
    AgentLeavesControl(s, step);
    hide UiSteps, ControllerSteps, AgentSteps, StartAccepted;
  }

  lemma BecomesGone(s: System, step: Step)
    requires Inv(s) && !s.controller.Gone? && Next(s, step).controller.Gone?
    ensures s.controller.Creating? ==> step == RuntimeReady(false) && Next(s, step).busy == s.busy
    ensures !s.controller.Creating? ==> !Next(s, step).busy
  {
    UiLeavesControl(s, step);
    ControllerEdges(s, step);
    AgentLeavesControl(s, step);
    hide UiSteps, ControllerSteps, AgentSteps, StartAccepted;
  }

  lemma {:induction false} FailureIsFinal(steps: seq<Step>, k: int)
    requires FailsAt(steps, k)
    ensures Run(Initial(), steps).controller.Gone?
  {
    var n := |steps| - 1;
    if k < n {
      FailsBefore(steps, n, k);
      FailureIsFinal(steps[..n], k);
      GoneStays(Run(Initial(), steps[..n]), steps[n]);
      hide Next;
    }
  }

  lemma {:induction false} CreatingIsBusy(steps: seq<Step>)
    requires Run(Initial(), steps).controller.Creating?
    ensures Run(Initial(), steps).busy <==> exists j :: StartAcceptedAt(steps, j)
  {
    if steps != [] {
      hide Next, StartAccepted;
      var n := |steps| - 1;
      StaysCreating(Run(Initial(), steps[..n]), steps[n]);
      CreatingIsBusy(steps[..n]);
      forall j ensures StartAcceptedAt(steps[..n], j) <==> j < n && StartAcceptedAt(steps, j) { FailsBefore(steps, n, j); }
      assert StartAcceptedAt(steps, n) <==> steps[n].UiStart? && StartAccepted(Run(Initial(), steps[..n]), steps[n].valid);
      hide StartAcceptedAt;
      if j :| StartAcceptedAt(steps, j) { assert j == n || StartAcceptedAt(steps[..n], j) by { AcceptedWhere(steps, j); } }
    }
  }

  lemma AcceptedWhere(steps: seq<Step>, j: int)
    requires StartAcceptedAt(steps, j)
    ensures 0 <= j < |steps|
  {
  }

  lemma {:induction false} GoneIsBusy(steps: seq<Step>)
    requires Run(Initial(), steps).controller.Gone?
    ensures Run(Initial(), steps).busy <==> StartLost(steps)
  {
    hide Next, Inv, StartAccepted;
    var n := |steps| - 1;
    var s := Run(Initial(), steps[..n]);
    if s.controller.Gone? {
      GoneStays(s, steps[n]);
      GoneIsBusy(steps[..n]);
      LostBefore(steps);
    } else {
      RunKeeps(steps[..n]);
      BecomesGone(s, steps[n]);
      if s.controller.Creating? { CreatingIsBusy(steps[..n]); }
      LostNow(steps);
    }
  }

  lemma LostBefore(steps: seq<Step>)
    requires steps != [] && Run(Initial(), steps[..|steps| - 1]).controller.Gone?
    ensures StartLost(steps) <==> StartLost(steps[..|steps| - 1])
  {
    hide Run;
    var n := |steps| - 1;
    forall k { FailsBefore(steps, n, k); }
    assert !FailsAt(steps, n);
  }

  lemma LostNow(steps: seq<Step>)
    requires steps != [] && !Run(Initial(), steps[..|steps| - 1]).controller.Gone?
    ensures StartLost(steps)
       <==> var n := |steps| - 1; FailsAt(steps, n) && exists j :: StartAcceptedAt(steps[..n], j)
  {
    var n := |steps| - 1;
    forall k ensures FailsAt(steps, k) ==> k == n {
      FailsBefore(steps, n, k);
      if FailsAt(steps[..n], k) { FailureIsFinal(steps[..n], k); }
    }
    hide Run, FailsAt;
    forall j ensures StartAcceptedAt(steps[..n], j) <==> j < n && StartAcceptedAt(steps, j) { FailsBefore(steps, n, j); }
  }

  /** With the controller listening, `busy` is set exactly while a Start waits in the queue.
      Without a controller nothing is queued, and `busy` is left behind exactly when a Start
      was accepted before the runtime failed. */
  lemma {:induction false} BusyMeansWork(steps: seq<Step>)
    ensures
      var s := Run(Initial(), steps);
      && (s.controller.Creating? || s.controller.Receiving? || s.controller.Ending? ==> (s.busy <==> Start in s.queue))
      && (s.controller.Gone? ==> s.queue == [] && (s.busy <==> StartLost(steps)))
  {
    var s := Run(Initial(), steps);
    RunKeeps(steps);
    NoStarts(s.queue);
    if s.controller.Gone? { GoneIsBusy(steps); }
  }

  /** The shortest such run; the window then shows a session in progress for ever. */
  lemma {:induction false} BusyLeftBehind(more: seq<Step>)
    ensures
      var s := Run(Run(Initial(), [UiStart(true), RuntimeReady(false)]), more);
      s.controller.Gone? && s.busy && !s.running && s.agent.Absent? && s.queue == []
  {
    if more == [] {
      var steps := [UiStart(true), RuntimeReady(false)];
      assert steps[..1] == [UiStart(true)] && steps[..1][..0] == [];
      assert Run(Initial(), steps[..1]) == Next(Initial(), UiStart(true));
    } else {
      BusyLeftBehind(more[..|more| - 1]);
    }
  }

  /** What is shown is true: not running means no agent that anyone could still hear, and a
      confirmed cleanup means a clean machine unless a launch is in progress. */
  lemma {:induction false} ShownIsTrue(steps: seq<Step>)
    ensures
      var s := Run(Initial(), steps);
      && (!s.running && !s.controller.Launched? ==> s.agent.Absent?)
      && (s.cleanup && !s.controller.Launched? ==> Clean(s))
  {
    RunKeeps(steps);
  }

  predicate Stuck(s: System) {
    !s.cleanup && (s.controller.Receiving? || s.controller.Gone?)
  }

  lemma StuckStays(s: System, step: Step)
    requires Inv(s) && Stuck(s)
    ensures Stuck(Next(s, step))
  {
    hide AgentSteps;
    assert AgentSteps(s, step).cleanup == s.cleanup && AgentSteps(s, step).controller == s.controller by {
      AgentLeavesControl(s, step);
    }
    if s.queue != [] { assert Starts(s.queue) == (if s.queue[0].Start? then 1 else 0) + Starts(s.queue[1..]); }
  }

  lemma AgentLeavesControl(s: System, step: Step)
    ensures
      var s' := AgentSteps(s, step);
      s'.cleanup == s.cleanup && s'.controller == s.controller && s'.busy == s.busy
  {
  }

  /** A cleanup that was not confirmed is never forgotten: no later start is accepted. */
  lemma {:induction false} UnconfirmedCleanupIsFinal(steps: seq<Step>, more: seq<Step>, valid: bool)
    requires Run(Initial(), steps).controller.Receiving? && !Run(Initial(), steps).cleanup
    ensures
      var s := Run(Run(Initial(), steps), more);
      Stuck(s) && Inv(s) && !StartAccepted(s, valid)
  {
    RunKeeps(steps);
    if more != [] {
      hide Inv;
      var before, last := more[..|more| - 1], more[|more| - 1];
      UnconfirmedCleanupIsFinal(steps, before, valid);
      var s := Run(Run(Initial(), steps), before);
      NextKeeps(s, last);
      StuckStays(s, last);
      hide Next;
    }
  }
}
