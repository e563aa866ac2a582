/** The elevated session beside agents of other windows, such as one whose window died.

    Nothing but the routing lease keeps them apart. An agent takes it before it changes an
    option or opens an engine, and holds it until it has said that it stopped or is gone.
    The controller of a new window knows of none of them. */
module RoutingLease {
  import opened ElevatedSession

  /** What agents of other windows hold: the lease, an open engine, changed options. */
  datatype Others = Others(lease: bool, engine: bool, flags: bool)

  datatype World = World(session: System, leased: bool, others: Others)

  datatype Move =
    | Own(step: Step)
    | TakeLease
    | ReleaseLease
    | OthersMove(others: Others)

  /** Other agents obey the lease: they take it when it is free, and open an engine or change
      options only while one of them holds it. */
  predicate MayMove(w: World, others: Others) {
    && (others.lease ==> w.others.lease || !w.leased)
    && (others.engine ==> w.others.engine || w.others.lease)
    && (others.flags ==> w.others.flags || w.others.lease)
  }

  /** What the agent does only under the lease. */
  predicate NeedsLease(step: Step) {
    step.AgentChangesFlags? || step.AgentOpensEngine?
  }

  function Do(w: World, m: Move): World {
    match m
    case Own(step) =>
      if NeedsLease(step) && !w.leased then w
      else w.(session := Next(w.session, step), leased := w.leased && !step.AgentExits?)
    case TakeLease => if w.session.agent.Working? && !w.others.lease then w.(leased := true) else w
    case ReleaseLease => if w.session.agent.Finished? then w.(leased := false) else w
    case OthersMove(others) => if MayMove(w, others) then w.(others := others) else w
  }

  function After(w: World, moves: seq<Move>): World
    decreases |moves|
  {
    if moves == [] then w else After(Do(w, moves[0]), moves[1..])
  }

  function Opening(others: Others): World {
    World(Initial(), false, others)
  }

  // ----- the session alone -----

  lemma {:induction false} OneMore(steps: seq<Step>, step: Step)
    ensures Run(Initial(), steps + [step]) == Next(Run(Initial(), steps), step)
  {
    assert (steps + [step])[..|steps|] == steps;
  }

  /** Beside other agents the session does nothing that it could not do alone, so every
      theorem about its runs holds in this world too. */
  lemma {:induction false} IsARun(w: World, moves: seq<Move>, so: seq<Step>) returns (steps: seq<Step>)
    requires w.session == Run(Initial(), so)
    ensures After(w, moves).session == Run(Initial(), steps)
    decreases |moves|
  {
    if moves == [] {
      steps := so;
    } else {
      var taken := match moves[0] case Own(step) => !NeedsLease(step) || w.leased case _ => false;
      if taken {
        OneMore(so, moves[0].step);
        steps := IsARun(Do(w, moves[0]), moves[1..], so + [moves[0].step]);
      } else {
        steps := IsARun(Do(w, moves[0]), moves[1..], so);
      }
    }
  }

  // ----- the lease keeps two agents apart -----

  predicate Apart(w: World) {
    && !(w.leased && w.others.lease)
    && (w.leased ==> !w.session.agent.Absent?)
    && (w.session.agent.Working? && !Clean(w.session) ==> w.leased)
  }

  lemma UiLeavesAgent(s: System, step: Step)
    ensures UiSteps(s, step).agent == s.agent && (Clean(UiSteps(s, step)) <==> Clean(s))
  {
  }

  predicate SameAgent(s: System, s': System) {
    s'.agent == s.agent && s'.engine == s.engine && s'.flags == s.flags
  }

  lemma TakeLeavesAgent(s: System, sent: bool)
    ensures SameAgent(s, Take(s, sent))
  {
    match s.controller
    case Receiving =>
    case Exchanging(exiting) =>
      if !exiting && (s.queue != [] || s.dropped) {
        var command := if s.queue == [] then Stop else s.queue[0];
        if command.Start? {} else if command.Stop? {}
      }
    case _ =>
  }

  lemma AcceptLeavesAgent(s: System)
    requires s.inbox != []
    ensures SameAgent(s, Accept(s))
  {
  }

  lemma WatchLeavesAgent(s: System, take: bool)
    requires s.controller.Waiting?
    ensures SameAgent(s, Watch(s, take))
  {
  }

  lemma ReportLeavesAgent(s: System, step: Step)
    requires step.TakeReport? || step.WatchExit? || step.Greet?
    ensures SameAgent(s, ControllerSteps(s, step))
  {
    hide Take, Accept, Watch;
    if step.TakeReport? && s.inbox != [] { AcceptLeavesAgent(s); }
    if step.WatchExit? && s.controller.Waiting? { WatchLeavesAgent(s, step.take); }
  }

  lemma ControllerLeavesAgent(s: System, step: Step)
    ensures
      var s' := ControllerSteps(s, step);
      SameAgent(s, s')
      || (step.Launch? && s.controller.Preparing? && s'.agent.Working? && s'.engine == s.engine && s'.flags == s.flags)
  {
    hide Accept, Watch, Take;
    if step.TakeCommand? {
      hide SameAgent;
      TakeLeavesAgent(s, step.sent);
    } else if step.TakeReport? || step.WatchExit? || step.Greet? {
      hide ControllerSteps;
      ReportLeavesAgent(s, step);
    }
  }

  lemma AgentObeys(s: System, step: Step)
    requires !step.AgentExits?
    ensures s.agent.Absent? <==> AgentSteps(s, step).agent.Absent?
    ensures AgentSteps(s, step).agent.Working? ==> s.agent.Working?
    ensures !NeedsLease(step) && AgentSteps(s, step).agent.Working? ==> (Clean(AgentSteps(s, step)) <==> Clean(s))
  {
  }

  lemma OwnStaysApart(w: World, step: Step)
    requires Apart(w) && Inv(w.session)
    ensures Apart(Do(w, Own(step)))
  {
    UiLeavesAgent(w.session, step);
    ControllerLeavesAgent(w.session, step);
    if !step.AgentExits? { AgentObeys(w.session, step); }
    hide UiSteps, ControllerSteps, Starts, ReportsTruth;
  }

  lemma StaysApart(w: World, m: Move)
    requires Apart(w) && Inv(w.session)
    ensures Apart(Do(w, m)) && Inv(Do(w, m).session)
  {
    if m.Own? {
      NextKeeps(w.session, m.step);
      OwnStaysApart(w, m.step);
      hide Next, Inv, Apart;
    } else {
      hide Next, Inv;
    }
  }

  lemma {:induction false} AlwaysApart(w: World, moves: seq<Move>)
    requires Apart(w) && Inv(w.session)
    ensures Apart(After(w, moves))
    decreases |moves|
  {
    hide Do, Apart, Inv;
    if moves != [] {
      StaysApart(w, moves[0]);
      AlwaysApart(Do(w, moves[0]), moves[1..]);
    }
  }

  /** Whatever others do within the rules of the lease, the agent at work has an open engine
      or changed options only while it alone holds it. */
  lemma {:induction false} LeaseExcludes(others: Others, moves: seq<Move>)
    ensures
      var w := After(Opening(others), moves);
      && !(w.leased && w.others.lease)
      && (w.session.agent.Working? && !Clean(w.session) ==> w.leased && !w.others.lease)
  {
    RunKeeps([]);
    AlwaysApart(Opening(others), moves);
  }

  // ----- what a confirmed cleanup does not say -----

  const ELSEWHERE := Others(true, true, false)
  const LAUNCHING := [Own(RuntimeReady(true)), Own(UiStart(true)), Own(TakeCommand(true)), Own(CheckCleanup), Own(Launch(true))]
  const REFUSED := [Own(MarkRunning), Own(Connect(true)), Own(AgentSends(Hello)), Own(Greet(true)), TakeLease]
  const REPORTING := [Own(AgentCloses(true, true)), Own(AgentSaysStopped(true)), Own(TakeReport)]
  const CONCLUDING := [Own(AgentExits(true)), Own(WatchExit(false)), Own(Conclude)]
  const AT_WORK := System(false, true, true, [], false, Launched, Working, [], [], false, false)
  const TALKING := System(true, true, false, [], false, Exchanging(false), Working, [], [Begin], false, false)
  const CONFIRMED := System(false, false, true, [], false, Receiving, Absent, [], [Begin], false, false)

  lemma {:induction false} AfterBoth(w: World, a: seq<Move>, b: seq<Move>)
    ensures After(w, a + b) == After(After(w, a), b)
    decreases |a|
  {
    if a == [] {
      assert a + b == b;
    } else {
      AfterBoth(Do(w, a[0]), a[1..], b);
      assert (a + b)[1..] == a[1..] + b;
    }
  }

  /** A path whose sessions are given one by one, while the other agents do nothing. */
  lemma {:induction false} Follows(w: World, moves: seq<Move>, sessions: seq<System>)
    requires |sessions| == |moves| + 1 && w.session == sessions[0]
    requires forall k | 0 <= k < |moves| :: Do(w.(session := sessions[k]), moves[k]) == w.(session := sessions[k + 1])
    ensures After(w, moves) == w.(session := sessions[|moves|])
    decreases |moves|
  {
    if moves != [] {
      hide Do;
      assert Do(w, moves[0]) == w.(session := sessions[1]);
      Follows(w.(session := sessions[1]), moves[1..], sessions[1..]);
    }
  }

  lemma Launches(w: World)
    requires w == Opening(ELSEWHERE)
    ensures After(w, LAUNCHING) == w.(session := AT_WORK)
  {
    var s := Initial().(controller := Receiving);
    var started := s.(busy := true, queue := [Start]);
    var sessions := [Initial(), s, started, s.(busy := true, controller := Checking), s.(busy := true, controller := Preparing), AT_WORK];
    assert started.queue[1..] == [];
    Follows(w, LAUNCHING, sessions);
  }

  lemma Refuses(w: World)
    requires w == Opening(ELSEWHERE).(session := AT_WORK)
    ensures After(w, REFUSED) == w.(session := TALKING)
  {
    var s := TALKING.(controller := Greeting, told := []);
    var sessions := [AT_WORK, s.(controller := Connecting), s, s.(inbox := [Hello]), TALKING, TALKING];
    assert [Hello][1..] == [];
    Follows(w, REFUSED, sessions);
  }

  const HEARD := System(true, true, true, [], false, Waiting(true), Finished, [], [Begin], false, false)

  lemma Reports(w: World)
    requires w == Opening(ELSEWHERE).(session := TALKING)
    ensures After(w, REPORTING) == w.(session := HEARD)
  {
    var told := TALKING.(agent := Finished, inbox := [Stopped(true)]);
    assert told.inbox[1..] == [];
    Follows(w, REPORTING, [TALKING, TALKING.(agent := Closed(true)), told, HEARD]);
  }

  lemma Concludes(w: World)
    requires w == Opening(ELSEWHERE).(session := HEARD)
    ensures After(w, CONCLUDING) == w.(session := CONFIRMED)
  {
    assert Do(w, CONCLUDING[0]) == w.(session := HEARD.(agent := Absent));
    assert Watch(HEARD.(agent := Absent), false) == CONFIRMED.(controller := Ending(true));
    Follows(w, CONCLUDING, [HEARD, HEARD.(agent := Absent), CONFIRMED.(controller := Ending(true)), CONFIRMED]);
  }

  /** The confirmation speaks of this window's agent only. One that the lease refuses has
      nothing to put back and says so, while the agent of a dead window still has its engine
      open. */
  lemma ConfirmedBesideAnother()
    ensures
      var w := After(Opening(ELSEWHERE), LAUNCHING + REFUSED + REPORTING + CONCLUDING);
      w.session == CONFIRMED && w.session.cleanup && w.others.engine
  {
    var w := Opening(ELSEWHERE);
    Launches(w);
    Refuses(w.(session := AT_WORK));
    Reports(w.(session := TALKING));
    Concludes(w.(session := HEARD));
    hide After;
    AfterBoth(w, LAUNCHING, REFUSED);
    AfterBoth(w, LAUNCHING + REFUSED, REPORTING);
    AfterBoth(w, LAUNCHING + REFUSED + REPORTING, CONCLUDING);
  }

  /** Of this window's agent it is true, whatever others do. */
  lemma {:induction false} ConfirmedIsOwn(others: Others, moves: seq<Move>)
    ensures
      var s := After(Opening(others), moves).session;
      s.cleanup && !s.controller.Launched? ==> Clean(s)
  {
    var steps := IsARun(Opening(others), moves, []);
    ShownIsTrue(steps);
  }
}
