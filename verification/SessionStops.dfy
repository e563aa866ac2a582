/** How a routing session ends: what the agent was told, what the controller owes to a stop,
    and that no state of the session is a dead end. */
module SessionStops {
  import opened ElevatedSession

  lemma {:induction false} RunBoth(s: System, a: seq<Step>, b: seq<Step>)
    ensures Run(s, a + b) == Run(Run(s, a), b)
  {
    if b == [] {
      assert a + b == a;
    } else {
      RunBoth(s, a, b[..|b| - 1]);
      assert (a + b)[..|a + b| - 1] == a + b[..|b| - 1];
    }
  }

  lemma RunOne(s: System, step: Step)
    ensures Run(s, [step]) == Next(s, step)
  {
    assert [step][..0] == [];
  }

  /** A path whose states are given one by one. */
  lemma {:induction false} Passes(steps: seq<Step>, states: seq<System>)
    requires |states| == |steps| + 1
    requires forall k | 0 <= k < |steps| :: Next(states[k], steps[k]) == states[k + 1]
    ensures Run(states[0], steps) == states[|steps|]
  {
    if steps != [] {
      hide Next;
      var n := |steps| - 1;
      Passes(steps[..n], states[..n + 1]);
      assert Next(states[n], steps[n]) == states[n + 1];
    }
  }

  // ----- what the agent is told -----

  predicate Engaged(told: seq<Order>) {
    |told| > 0 && told[0].Begin? && forall k | 1 <= k < |told| :: told[k].Apply?
  }

  predicate Dismissed(told: seq<Order>) {
    |told| > 1 && told[|told| - 1].End? && Engaged(told[..|told| - 1])
  }

  datatype Phase = Early | Taking | Exiting | Other

  function PhaseOf(c: Controller): Phase {
    match c
    case Launched => Early
    case Connecting => Early
    case Greeting => Early
    case Exchanging(exiting) => if exiting then Exiting else Taking
    case _ => Other
  }

  /** Nothing before the exchange; in it a beginning and then updates; at most one end, after
      which nothing more is written. */
  predicate Orderly(phase: Phase, told: seq<Order>) {
    match phase
    case Early => told == []
    case Taking => Engaged(told)
    case Exiting => Dismissed(told)
    case Other => told == [] || Engaged(told) || Dismissed(told)
  }

  /** What one step may write. */
  predicate Tells(s: System, s': System) {
    var before, after := PhaseOf(s.controller), PhaseOf(s'.controller);
    || (s'.told == s.told && (after == before || after.Other?))
    || (s'.told == [] && after.Early?)
    || (s'.told == s.told + [Begin] && before.Early? && after.Taking?)
    || (s'.told == s.told + [Apply] && before.Taking? && after.Taking?)
    || (s'.told == s.told + [End] && before.Taking? && after.Exiting?)
  }

  lemma TellingKeepsOrder(s: System, s': System)
    requires Tells(s, s') && Orderly(PhaseOf(s.controller), s.told)
    ensures Orderly(PhaseOf(s'.controller), s'.told)
  {
    hide PhaseOf;
    if s'.told == s.told + [End] { assert s'.told[..|s.told|] == s.told; }
  }

  lemma WindowTellsNothing(s: System, step: Step)
    ensures UiSteps(s, step).told == s.told && UiSteps(s, step).controller == s.controller
  {
    hide StartAccepted;
  }

  lemma OthersTellNothing(s: System, step: Step)
    ensures UiSteps(s, step).told == s.told && UiSteps(s, step).controller == s.controller
    ensures AgentSteps(s, step).told == s.told && AgentSteps(s, step).controller == s.controller
  {
    AgentLeavesControl(s, step);
    WindowTellsNothing(s, step);
    hide UiSteps;
  }

  lemma TakeTells(s: System, sent: bool)
    ensures Tells(s, Take(s, sent))
  {
  }

  lemma ReportTells(s: System)
    requires (s.controller.Exchanging? || s.controller.Draining?) && s.inbox != []
    ensures Tells(s, Accept(s))
  {
  }

  lemma WatchTells(s: System, take: bool)
    requires s.controller.Waiting?
    ensures Tells(s, Watch(s, take))
  {
  }

  lemma ControllerTells(s: System, step: Step)
    ensures Tells(s, ControllerSteps(s, step))
  {
    match step
    case TakeCommand(sent) => TakeTells(s, sent); hide Take, Tells;
    case TakeReport =>
      if (s.controller.Exchanging? || s.controller.Draining?) && s.inbox != [] { ReportTells(s); hide Accept, Tells; }
    case WatchExit(take) => if s.controller.Waiting? { WatchTells(s, take); hide Watch, Tells; }
    case Launch(_) => LaunchTells(s, step); hide Tells, ControllerSteps;
    case MarkRunning => LaunchTells(s, step); hide Tells, ControllerSteps;
    case Connect(_) => GreetTells(s, step); hide Tells, ControllerSteps;
    case Greet(_) => GreetTells(s, step); hide Tells, ControllerSteps;
    case RuntimeReady(_) => OuterTells(s, step); hide Tells, ControllerSteps;
    case CheckCleanup => OuterTells(s, step); hide Tells, ControllerSteps;
    case LoseAgent => InnerTells(s, step); hide Tells, ControllerSteps;
    case SendPing(_) => InnerTells(s, step); hide Tells, ControllerSteps;
    case Conclude => OuterTells(s, step); hide Tells, ControllerSteps;
    case ReportError => OuterTells(s, step); hide Tells, ControllerSteps;
    case _ =>
  }

  lemma LaunchTells(s: System, step: Step)
    requires step.Launch? || step.MarkRunning?
    ensures Tells(s, ControllerSteps(s, step))
  {
  }

  lemma GreetTells(s: System, step: Step)
    requires step.Connect? || step.Greet?
    ensures Tells(s, ControllerSteps(s, step))
  {
  }

  lemma OuterTells(s: System, step: Step)
    requires step.RuntimeReady? || step.CheckCleanup? || step.Conclude? || step.ReportError?
    ensures Tells(s, ControllerSteps(s, step))
  {
  }

  lemma InnerTells(s: System, step: Step)
    requires step.LoseAgent? || step.SendPing?
    ensures Tells(s, ControllerSteps(s, step))
  {
  }

  lemma NextTells(s: System, step: Step)
    ensures Tells(s, Next(s, step))
  {
    OthersTellNothing(s, step);
    ControllerTells(s, step);
    hide UiSteps, ControllerSteps, AgentSteps, PhaseOf;
  }

  /** In every run the agent is told to begin, then of updates, and to end at most once and
      last. In an exchange that takes commands it was not told to end; in one that is exiting
      it was. */
  lemma {:induction false} AgentIsToldInOrder(steps: seq<Step>)
    ensures var s := Run(Initial(), steps); Orderly(PhaseOf(s.controller), s.told)
  {
    if steps != [] {
      var s := Run(Initial(), steps[..|steps| - 1]);
      AgentIsToldInOrder(steps[..|steps| - 1]);
      NextTells(s, steps[|steps| - 1]);
      hide Next, Orderly, Tells, PhaseOf;
      TellingKeepsOrder(s, Run(Initial(), steps));
    }
  }

  // ----- a stop -----

  /** The next command of the exchange is a stop: asked for, or the window is gone. */
  predicate StopIsNext(s: System) {
    s.controller == Exchanging(false) && (if s.queue == [] then s.dropped else s.queue[0].Stop?)
  }

  /** A stop is passed on to the agent at once. If it cannot be written, only the agent's last
      word is awaited. */
  lemma StopIsPassedOn(s: System, sent: bool)
    requires StopIsNext(s)
    ensures
      var s' := Next(s, TakeCommand(sent));
      && s'.busy && s'.running == s.running && s'.cleanup == s.cleanup
      && s'.queue == (if s.queue == [] then [] else s.queue[1..])
      && (sent ==> s'.controller == Exchanging(true) && s'.told == s.told + [End])
      && (!sent ==> s'.controller == Draining && s'.told == s.told)
  {
  }

  function Takes(n: nat): seq<Step> {
    seq(n, k => TakeCommand(true))
  }

  function Applies(n: nat): seq<Order> {
    seq(n, k => Apply)
  }

  /** Commands are passed on in the order in which they were given. */
  lemma {:induction false} UpdatesArePassedOn(s: System, n: nat)
    requires s.controller == Exchanging(false) && n <= |s.queue| && forall k | 0 <= k < n :: s.queue[k].Update?
    ensures Run(s, Takes(n)) == s.(queue := s.queue[n..], told := s.told + Applies(n))
  {
    if n == 0 {
      assert s.told + Applies(0) == s.told;
    } else {
      UpdatesArePassedOn(s, n - 1);
      assert Takes(n)[..n - 1] == Takes(n - 1);
      assert s.queue[n - 1..][0] == s.queue[n - 1] && s.queue[n - 1..][1..] == s.queue[n..];
      assert s.told + Applies(n - 1) + [Apply] == s.told + Applies(n);
    }
  }

  /** However many updates are queued before it, a stop of the window reaches the agent as
      soon as the controller has taken them and every write succeeds. */
  lemma {:induction false} StopGetsThrough(steps: seq<Step>) returns (n: nat)
    requires
      var s := Run(Initial(), steps);
      s.controller == Exchanging(false) && (Stop in s.queue || s.dropped)
    ensures
      var s, s' := Run(Initial(), steps), Run(Initial(), steps + Takes(n + 1));
      && n <= |s.queue| && (if n < |s.queue| then s.queue[n].Stop? else s.dropped)
      && s'.controller == Exchanging(true) && s'.busy && s'.told == s.told + Applies(n) + [End]
  {
    var s := Run(Initial(), steps);
    StartArmsAreUnreachable(steps);
    n := 0;
    while n < |s.queue| && !s.queue[n].Stop?
      invariant n <= |s.queue| && forall k | 0 <= k < n :: s.queue[k].Update?
    {
      assert s.queue[n] in s.queue;
      n := n + 1;
    }
    UpdatesArePassedOn(s, n);
    var x := s.(queue := s.queue[n..], told := s.told + Applies(n));
    StopIsPassedOn(x, true);
    assert Takes(n + 1) == Takes(n) + [TakeCommand(true)];
    RunOne(x, TakeCommand(true));
    RunBoth(s, Takes(n), [TakeCommand(true)]);
    RunBoth(Initial(), steps, Takes(n + 1));
  }

  /** The controller was told to stop and takes no more commands of the exchange. */
  predicate Leaving(s: System) {
    s.controller == Exchanging(true) || s.controller.Draining?
  }

  lemma TakeStaysLeaving(s: System, step: Step)
    requires Leaving(s) && !step.TakeReport?
    ensures Leaving(Next(s, step)) || Next(s, step).controller.Waiting?
    ensures Next(s, step).told == s.told
  {
    OthersTellNothing(s, step);
    if step.TakeCommand? { assert Take(s, step.sent) == s; }
    hide UiSteps, AgentSteps, Accept, Watch, Take;
  }

  lemma ReportStaysLeaving(s: System)
    requires Leaving(s) && s.inbox != []
    ensures var s' := Accept(s); s'.told == s.told && (s'.controller == s.controller || s'.controller.Waiting?)
  {
    match s.inbox[0]
    case Hello =>
    case Snapshot(_) =>
    case Error =>
    case Stopped(_) =>
  }

  lemma StaysLeaving(s: System, step: Step)
    requires Leaving(s)
    ensures Leaving(Next(s, step)) || Next(s, step).controller.Waiting?
    ensures Next(s, step).told == s.told
  {
    if step.TakeReport? {
      if s.inbox != [] { ReportStaysLeaving(s); }
      hide UiSteps, AgentSteps, Take, Watch, Accept;
    } else {
      hide Next;
      TakeStaysLeaving(s, step);
    }
  }

  ghost predicate LeavingBefore(s: System, more: seq<Step>, j: int) {
    forall i | 0 <= i < j && i <= |more| :: Leaving(Run(s, more[..i]))
  }

  /** Up to step `j` the controller is leaving, and there it begins to wait for the exit. */
  ghost predicate WaitsAt(s: System, more: seq<Step>, j: int) {
    0 < j <= |more| && Run(s, more[..j]).controller.Waiting? && LeavingBefore(s, more, j)
  }

  lemma SamePrefixes(s: System, more: seq<Step>, n: nat, j: int)
    requires j <= n + 1 && n <= |more|
    ensures LeavingBefore(s, more[..n], j) <==> LeavingBefore(s, more, j)
  {
    forall i | 0 <= i <= n ensures more[..n][..i] == more[..i] {}
  }

  /** From there the only way on is the wait for the agent's exit, and the agent is told
      nothing more before. */
  lemma {:induction false} StopLeadsToTheWait(s: System, more: seq<Step>)
    requires Leaving(s)
    ensures
      || (LeavingBefore(s, more, |more| + 1) && Run(s, more).told == s.told)
      || exists j :: WaitsAt(s, more, j)
  {
    if more != [] {
      hide Next, Leaving, LeavingBefore, WaitsAt, Run;
      var n := |more| - 1;
      StopLeadsToTheWait(s, more[..n]);
      if j :| WaitsAt(s, more[..n], j) { WaitedBefore(s, more, j); } else { OneMoreStep(s, more); }
    } else {
      assert more[..0] == more;
    }
  }

  lemma WaitedBefore(s: System, more: seq<Step>, j: int)
    requires more != [] && WaitsAt(s, more[..|more| - 1], j)
    ensures WaitsAt(s, more, j)
  {
    SamePrefixes(s, more, |more| - 1, j);
    assert more[..|more| - 1][..j] == more[..j];
    hide LeavingBefore;
  }

  lemma OneMoreStep(s: System, more: seq<Step>)
    requires more != [] && LeavingBefore(s, more[..|more| - 1], |more|) && Run(s, more[..|more| - 1]).told == s.told
    ensures (LeavingBefore(s, more, |more| + 1) && Run(s, more).told == s.told) || WaitsAt(s, more, |more|)
  {
    hide Next, Leaving;
    var n := |more| - 1;
    SamePrefixes(s, more, n, n + 1);
    assert more[..n][..n] == more[..n] && more[..n + 1] == more;
    StaysLeaving(Run(s, more[..n]), more[n]);
  }

  // ----- how an exchange ends -----

  /** The agent's next word ends the exchange: it stopped, it answers for another session, or
      it says what is not expected. */
  predicate LastWord(s: System) {
    s.inbox != [] && (s.inbox[0].Stopped? || s.inbox[0].Hello? || s.inbox[0] == Snapshot(false))
  }

  /** The step is a write to the agent that fails. */
  predicate WriteFails(s: System, step: Step) {
    || step == SendPing(Unsent)
    || (step == TakeCommand(false) && s.controller == Exchanging(false)
        && (if s.queue == [] then s.dropped else !s.queue[0].Start?))
  }

  lemma WordEnds(s: System)
    requires (s.controller.Exchanging? || s.controller.Draining?) && s.inbox != []
    ensures
      var c := Accept(s).controller;
      && (c.Waiting? <==> LastWord(s)) && (!c.Waiting? ==> c == s.controller)
      && (c == Waiting(true) <==> s.inbox[0].Stopped?)
  {
    match s.inbox[0]
    case Hello =>
    case Snapshot(_) =>
    case Error =>
    case Stopped(_) =>
  }

  /** What a report changes of what is shown: an answer ends the wait for it, and only the
      agent's own word that it stopped decides whether the cleanup is confirmed. */
  lemma WordShows(s: System)
    requires (s.controller.Exchanging? || s.controller.Draining?) && s.inbox != []
    ensures
      var s' := Next(s, TakeReport);
      && s'.cleanup == (if s.inbox[0].Stopped? then s.inbox[0].success else s.cleanup)
      && s'.busy == (s.busy && s.inbox[0] != Snapshot(true) && !s.inbox[0].Error?)
      && s'.inbox == s.inbox[1..] && s'.queue == s.queue && s'.running == s.running
  {
    match s.inbox[0]
    case Hello =>
    case Snapshot(_) =>
    case Error =>
    case Stopped(_) =>
  }

  lemma CommandsDoNotEnd(s: System, sent: bool)
    requires s.controller.Exchanging?
    ensures
      var c := Take(s, sent).controller;
      (c.Draining? <==> WriteFails(s, TakeCommand(sent))) && (!c.Draining? ==> c.Exchanging?)
  {
  }

  /** An exchange ends exactly when the agent has its last word, is lost or is overdue, and it
      ends well exactly when the agent says that it stopped. A write that fails, and nothing
      else, leaves only the agent's last word to wait for. */
  ghost predicate EndsExactly(s: System, step: Step, c: Controller) {
    && (c.Waiting? <==> (step.TakeReport? && LastWord(s)) || step.LoseAgent? || step == SendPing(Overdue))
    && (c == Waiting(true) <==> step.TakeReport? && s.inbox != [] && s.inbox[0].Stopped?)
    && (c.Draining? <==> WriteFails(s, step))
    && (!c.Waiting? && !c.Draining? ==> c.Exchanging?)
  }

  lemma ExchangeEndsExactly(s: System, step: Step)
    requires s.controller.Exchanging?
    ensures EndsExactly(s, step, Next(s, step).controller)
  {
    match step
    case TakeReport => if s.inbox != [] { WordEnds(s); hide Accept, LastWord; }
    case TakeCommand(sent) => CommandsDoNotEnd(s, sent); hide Take, LastWord;
    case LoseAgent => hide LastWord;
    case SendPing(_) => hide LastWord;
    case _ => hide EndsExactly; OthersDoNotEnd(s, step);
  }

  lemma OthersDoNotEnd(s: System, step: Step)
    requires s.controller.Exchanging?
    requires !step.TakeReport? && !step.TakeCommand? && !step.LoseAgent? && !step.SendPing?
    ensures EndsExactly(s, step, Next(s, step).controller)
  {
    OthersTellNothing(s, step);
    assert Next(s, step).controller == s.controller by { hide UiSteps, AgentSteps; }
    hide Next;
  }

  /** While draining only the agent's last word or its loss is of interest. */
  lemma DrainingEndsExactly(s: System, step: Step)
    requires s.controller.Draining?
    ensures
      var s' := Next(s, step);
      && (s'.controller.Waiting? <==> (step.TakeReport? && LastWord(s)) || step.LoseAgent?)
      && (s'.controller == Waiting(true) <==> step.TakeReport? && s.inbox != [] && s.inbox[0].Stopped?)
      && (!s'.controller.Waiting? ==> s'.controller.Draining?)
  {
    OthersTellNothing(s, step);
    if step.TakeReport? && s.inbox != [] { WordEnds(s); }
    hide UiSteps, AgentSteps, Accept, Watch, Take;
  }

  /** The wait ends exactly when the agent is found gone; until then the session is shown as
      running and busy, and after it as neither. */
  lemma WaitEndsExactly(s: System, step: Step)
    requires s.controller.Waiting?
    ensures
      var s' := Next(s, step);
      && (s'.controller.Ending? <==> step.WatchExit? && s.agent.Absent?)
      && (!s'.controller.Ending? ==> s'.controller == s.controller)
      && (step.WatchExit? ==>
            && s'.running == !s.agent.Absent? && s'.busy == !s.agent.Absent?
            && s'.queue == if step.take && !s.agent.Absent? && s.queue != [] then s.queue[1..] else s.queue)
  {
    OthersTellNothing(s, step);
    if step.TakeCommand? { assert Take(s, step.sent) == s; }
    hide UiSteps, AgentSteps, Accept, Take;
  }

  /** In the end an error is reported exactly when the cleanup was not confirmed. */
  lemma {:induction false} ReportedUnlessConfirmed(steps: seq<Step>)
    ensures
      var s := Run(Initial(), steps);
      && (s.controller.Ending? ==> Next(s, Conclude).controller == if s.cleanup then Receiving else Reporting)
      && (s.controller.Reporting? ==> Next(s, ReportError).controller.Receiving? && !Next(s, ReportError).busy)
  {
    RunKeeps(steps);
    hide Run, ReportsTruth, Starts;
    var s := Run(Initial(), steps);
    if s.controller.Ending? { assert !s.running && (s.cleanup ==> s.controller.ok); }
  }

  // ----- no dead end -----

  lemma {:induction false} Then(s: System, step: Step, rest: seq<Step>)
    ensures Run(s, [step] + rest) == Run(Next(s, step), rest)
  {
    RunOne(s, step);
    RunBoth(s, [step], rest);
  }

  lemma {:induction false} EndingReturns(s: System) returns (more: seq<Step>)
    requires s.controller.Ending?
    ensures var s' := Run(s, more); s'.controller.Receiving? && s'.queue == s.queue && s'.dropped == s.dropped
  {
    var x := Next(s, Conclude);
    var rest := [];
    if x.controller.Reporting? {
      rest := [ReportError];
      RunOne(x, ReportError);
    }
    Then(s, Conclude, rest);
    more := [Conclude] + rest;
  }

  lemma {:induction false} WaitingReturns(s: System) returns (more: seq<Step>)
    requires s.controller.Waiting?
    ensures var s' := Run(s, more); s'.controller.Receiving? && s'.queue == s.queue && s'.dropped == s.dropped
  {
    var x := Next(s, AgentExits(true));
    var last := EndingReturns(Next(x, WatchExit(false)));
    Then(x, WatchExit(false), last);
    Then(s, AgentExits(true), [WatchExit(false)] + last);
    more := [AgentExits(true)] + ([WatchExit(false)] + last);
  }

  lemma {:induction false} PreparingReturns(s: System) returns (more: seq<Step>)
    requires s.controller.Preparing?
    ensures var s' := Run(s, more); s'.controller.Receiving? && s'.queue == s.queue && s'.dropped == s.dropped
  {
    more := [Launch(false), ReportError];
    assert more[..1] == [Launch(false)];
    RunOne(s, Launch(false));
  }

  predicate BeforeExchange(s: System) {
    s.controller.Launched? || s.controller.Connecting? || s.controller.Greeting?
  }

  lemma {:induction false} ConnectingReturns(s: System) returns (more: seq<Step>)
    requires BeforeExchange(s)
    ensures var s' := Run(s, more); s'.controller.Receiving? && s'.queue == s.queue && s'.dropped == s.dropped
  {
    var x := if s.controller.Launched? then Next(s, MarkRunning) else s;
    var give := if x.controller.Connecting? then Connect(false) else Greet(false);
    var rest := WaitingReturns(Next(x, give));
    Then(x, give, rest);
    more := [give] + rest;
    if s.controller.Launched? {
      Then(s, MarkRunning, more);
      more := [MarkRunning] + more;
    }
  }

  /** From every state in which the controller is still there, the session can come back to
      its outer loop, with every queued command still queued. */
  lemma {:induction false} CanReturn(s: System) returns (more: seq<Step>)
    requires !s.controller.Gone?
    ensures var s' := Run(s, more); s'.controller.Receiving? && s'.queue == s.queue && s'.dropped == s.dropped
  {
    match s.controller
    case Creating => more := [RuntimeReady(true)]; RunOne(s, RuntimeReady(true));
    case Receiving => more := [];
    case Checking => more := CheckingReturns(s);
    case Preparing => more := PreparingReturns(s);
    case Exchanging(_) =>
      var rest := WaitingReturns(Next(s, LoseAgent));
      Then(s, LoseAgent, rest);
      more := [LoseAgent] + rest;
    case Draining =>
      var rest := WaitingReturns(Next(s, LoseAgent));
      Then(s, LoseAgent, rest);
      more := [LoseAgent] + rest;
    case Waiting(_) => more := WaitingReturns(s);
    case Ending(_) => more := EndingReturns(s);
    case Reporting => more := [ReportError]; RunOne(s, ReportError);
    case _ => more := ConnectingReturns(s);
  }

  /** Once the window is gone the controller can end, whatever is still queued. */
  lemma {:induction false} CanEnd(s: System) returns (more: seq<Step>)
    requires s.controller.Receiving? && s.dropped
    ensures Run(s, more).controller.Gone?
    decreases |s.queue|
  {
    var x := Next(s, TakeCommand(true));
    if s.queue == [] {
      RunOne(s, TakeCommand(true));
      more := [TakeCommand(true)];
    } else {
      assert x.queue == s.queue[1..];
      var back := [];
      if x.controller.Checking? { back := CheckingReturns(x); }
      var rest := CanEnd(Run(x, back));
      RunBoth(x, back, rest);
      Then(s, TakeCommand(true), back + rest);
      more := [TakeCommand(true)] + (back + rest);
    }
  }

  lemma {:induction false} CheckingReturns(s: System) returns (more: seq<Step>)
    requires s.controller.Checking?
    ensures var s' := Run(s, more); s'.controller.Receiving? && s'.queue == s.queue && s'.dropped == s.dropped
  {
    var x := Next(s, CheckCleanup);
    var rest := [];
    if x.controller.Preparing? { rest := PreparingReturns(x); }
    Then(s, CheckCleanup, rest);
    more := [CheckCleanup] + rest;
  }

  /** What the window asks for waits behind what it asked for before, for a controller that is
      still there. A window that goes leaves a stop behind. */
  lemma CommandsQueueUp(s: System, step: Step)
    requires step.UiStart? || step.UiUpdate? || step.UiStop? || step.UiDrop?
    ensures
      var s', heard := Next(s, step), !s.dropped && !s.controller.Gone?;
      && s'.controller == s.controller && s'.told == s.told
      && s'.dropped == (s.dropped || step.UiDrop?)
      && s'.queue == s.queue + (if !heard then []
                                else if step.UiUpdate? then [Update]
                                else if !step.UiStart? then [Stop]
                                else if step.valid && !s.running && !s.busy && s.cleanup then [Start] else [])
      && (s'.busy <==> s.busy || s'.queue == s.queue + [Start])
  {
    assert forall c: Command :: s.queue + [c] != s.queue && (s.queue + [c])[|s.queue|] == c;
  }

  /** The outer loop does nothing with a command that is not a start, and a start leads to a
      launch only while the cleanup is confirmed. */
  lemma OnlyAStartLaunches(s: System, sent: bool)
    ensures s.controller.Receiving? && s.queue != [] ==>
              Next(s, TakeCommand(sent)) == s.(queue := s.queue[1..], controller := if s.queue[0].Start? then Checking else Receiving)
    ensures s.controller.Checking? ==> (Next(s, CheckCleanup).controller.Preparing? <==> s.cleanup)
    ensures s.controller.Checking? && !s.cleanup ==> Next(s, CheckCleanup) == s.(controller := Receiving)
  {
  }

  // ----- a whole session -----

  const STARTING := [RuntimeReady(true), UiStart(true), TakeCommand(true), CheckCleanup, Launch(true), MarkRunning, Connect(true)]
  const GREETING := [AgentSends(Hello), Greet(true), AgentOpensEngine]
  const UPDATING := [AgentSends(Snapshot(true)), TakeReport, UiUpdate, TakeCommand(true)]
  const STOPPING := [UiStop, TakeCommand(true)]
  const CLOSING := [AgentCloses(true, true), AgentSaysStopped(true), TakeReport]
  const LEAVING := [AgentExits(false), WatchExit(false), Conclude]
  const CONNECTED := System(true, true, false, [], false, Greeting, Working, [], [], false, false)
  const ACTIVE := System(true, true, false, [], false, Exchanging(false), Working, [], [Begin], true, false)
  const UPDATED := ACTIVE.(busy := false, told := [Begin, Apply])
  const TOLD := System(true, true, false, [], false, Exchanging(true), Working, [], [Begin, Apply, End], true, false)
  const STOPPED := System(true, true, true, [], false, Waiting(true), Finished, [], [Begin, Apply, End], false, false)
  const BACK := System(false, false, true, [], false, Receiving, Absent, [], [Begin, Apply, End], false, false)

  lemma Starting()
    ensures Run(Initial(), STARTING) == CONNECTED
  {
    var s := Initial().(controller := Receiving);
    var started := s.(busy := true, queue := [Start]);
    assert started.queue[1..] == [];
    var launched := CONNECTED.(running := false, cleanup := true, controller := Launched);
    Passes(STARTING, [Initial(), s, started, s.(busy := true, controller := Checking), s.(busy := true, controller := Preparing),
                      launched, CONNECTED.(controller := Connecting), CONNECTED]);
  }

  lemma Meeting()
    ensures Run(CONNECTED, GREETING) == ACTIVE
  {
    assert [Hello][1..] == [] && [] + [Begin] == [Begin];
    Passes(GREETING, [CONNECTED, CONNECTED.(inbox := [Hello]), ACTIVE.(engine := false), ACTIVE]);
  }

  lemma Updating()
    ensures Run(ACTIVE, UPDATING) == UPDATED
  {
    assert [Snapshot(true)][1..] == [] && [Update][1..] == [] && [Begin] + [Apply] == [Begin, Apply];
    var shown := ACTIVE.(busy := false);
    Passes(UPDATING, [ACTIVE, ACTIVE.(inbox := [Snapshot(true)]), shown, shown.(queue := [Update]), UPDATED]);
  }

  lemma Stopping()
    ensures Run(UPDATED, STOPPING) == TOLD
  {
    assert [Stop][1..] == [] && [Begin, Apply] + [End] == [Begin, Apply, End];
    Passes(STOPPING, [UPDATED, UPDATED.(queue := [Stop]), TOLD]);
  }

  lemma Closing()
    ensures Run(TOLD, CLOSING) == STOPPED
  {
    assert [Stopped(true)][1..] == [];
    var closed := TOLD.(engine := false, agent := Closed(true));
    Passes(CLOSING, [TOLD, closed, closed.(agent := Finished, inbox := [Stopped(true)]), STOPPED]);
  }

  lemma LeavingIt()
    ensures Run(STOPPED, LEAVING) == BACK
  {
    Passes(LEAVING, [STOPPED, STOPPED.(agent := Absent), BACK.(controller := Ending(true)), BACK]);
  }

  /** A whole session: started, told of an update, stopped when asked, its cleanup confirmed,
      and the window can start another one. */
  lemma WholeSession()
    ensures
      var working := STARTING + GREETING + UPDATING;
      && Run(Initial(), working) == UPDATED
      && Run(Initial(), working + STOPPING + CLOSING + LEAVING) == BACK && StartAccepted(BACK, true)
  {
    Starting();
    Meeting();
    Updating();
    Stopping();
    Closing();
    LeavingIt();
    hide Run;
    var working := STARTING + GREETING + UPDATING;
    RunBoth(Initial(), STARTING, GREETING);
    RunBoth(Initial(), STARTING + GREETING, UPDATING);
    RunBoth(Initial(), working, STOPPING);
    RunBoth(Initial(), working + STOPPING, CLOSING);
    RunBoth(Initial(), working + STOPPING + CLOSING, LEAVING);
  }
}
