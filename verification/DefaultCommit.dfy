/** The four messages by which the window and the elevated helper agree on a change.

    Each side is a state machine; the pipe is a queue in each direction. A send may fail, a
    side may give up at any time (time limit, broken pipe, refused message) and the window
    may die. `verified` records that the window checked a successful result and sent its
    acknowledgement, `inPlace` that something the helper wrote is still there. Undoing a
    change may fail part way; what `Receipt::revert` confirms is that nothing is left. The
    helper's own crash is not one of the events. */
module DefaultCommit {
  import opened Common

  /** `confirmed` says of an unsuccessful result that it was undone. */
  datatype Message = Hello | Apply | Result(success: bool, confirmed: bool) | Refused | Ack | Finished

  datatype Window =
    | AwaitHello
    | AwaitResult
    | AwaitFinished(success: bool, confirmed: bool)
    | AwaitExit(success: bool, confirmed: bool)
    | Returned(success: bool, confirmed: bool)
    | Failed
    | Dead

  /** What a revert achieved: confirmed by its reread, or in doubt, with something left or not. */
  datatype Undo = Undone | Doubtful(left: bool)

  datatype Helper =
    | Starting
    | AwaitApply
    | Applied(success: bool)
    | AwaitAck(success: bool)
    | Accepted(success: bool)
    | Exited(code: nat, accepted: bool)

  /** `rollback` is what the one revert of the run achieved, if there was one. */
  datatype System = System(
    window: Window, helper: Helper, toWindow: seq<Message>, toHelper: seq<Message>,
    verified: bool, inPlace: bool, rollback: Option<Undo>)

  /** `sent` says whether the message written by the step got into the pipe; `undo` what a
      revert achieves if the step runs one. */
  datatype Step =
    | WindowReceives(valid: bool, sent: bool)
    | WindowGivesUp
    | WindowSeesExit
    | WindowDies
    | HelperSays(sent: bool, undo: Undo)
    | HelperReceives(outcome: Outcome, undo: Undo, sent: bool)
    | HelperGivesUp(undo: Undo)

  /** `apply`: an error, a success, or a failure that it has already reverted. */
  datatype Outcome = NotApplied | Succeeded | RolledBack

  predicate Open(w: Window) {
    w.AwaitHello? || w.AwaitResult? || w.AwaitFinished?
  }

  function Reverted(s: System, undo: Undo): System {
    s.(rollback := Some(undo), inPlace := undo.Doubtful? && undo.left)
  }

  /** The receipt is not acknowledged: a success is reverted, and `serve` fails. */
  function Unacknowledged(s: System, success: bool, undo: Undo): System {
    (if success then Reverted(s, undo) else s).(helper := Exited(1, false))
  }

  function WindowStep(s: System, valid: bool, sent: bool): System
    requires s.toWindow != []
  {
    var m, rest := s.toWindow[0], s.(toWindow := s.toWindow[1..]);
    match s.window
    case AwaitHello =>
      if m.Hello? && sent then rest.(window := AwaitResult, toHelper := s.toHelper + [Apply])
      else rest.(window := Failed)
    case AwaitResult =>
      if m.Result? && valid && sent then
        rest.(window := AwaitFinished(m.success, m.confirmed), toHelper := s.toHelper + [Ack], verified := m.success)
      else rest.(window := Failed)
    case AwaitFinished(success, confirmed) =>
      rest.(window := if m.Finished? then AwaitExit(success, confirmed) else Failed)
    case _ => s
  }

  function HelperStep(s: System, outcome: Outcome, undo: Undo, sent: bool): System
    requires s.toHelper != []
  {
    var m, rest := s.toHelper[0], s.(toHelper := s.toHelper[1..]);
    match s.helper
    case AwaitApply =>
      if !m.Apply? then rest.(helper := Exited(1, false))
      else
        (match outcome
         case NotApplied =>
           rest.(helper := Exited(1, false), toWindow := if sent then s.toWindow + [Refused] else s.toWindow)
         case Succeeded => rest.(helper := Applied(true), inPlace := true)
         case RolledBack => Reverted(rest.(helper := Applied(false)), undo))
    case AwaitAck(success) =>
      if m.Ack? && !s.window.Dead? then rest.(helper := Accepted(success))
      else Unacknowledged(rest, success, undo)
    case _ => s
  }

  predicate Confirmed(s: System) {
    s.rollback == Some(Undone)
  }

  function Say(s: System, sent: bool, undo: Undo): System {
    match s.helper
    case Starting =>
      if sent then s.(helper := AwaitApply, toWindow := s.toWindow + [Hello]) else s.(helper := Exited(1, false))
    case Applied(success) =>
      if sent then s.(helper := AwaitAck(success), toWindow := s.toWindow + [Result(success, Confirmed(s))])
      else Unacknowledged(s, success, undo)
    case Accepted(success) =>
      if sent then
        s.(helper := Exited(if success || Confirmed(s) then 0 else 1, true), toWindow := s.toWindow + [Finished])
      else s.(helper := Exited(1, true))
    case _ => s
  }

  function Next(s: System, step: Step): System {
    match step
    case WindowReceives(valid, sent) =>
      if Open(s.window) && s.toWindow != [] then WindowStep(s, valid, sent) else s
    case WindowGivesUp => if Open(s.window) then s.(window := Failed) else s
    case WindowSeesExit =>
      if s.window.AwaitExit? && s.helper.Exited? then
        s.(window := if s.window.success && s.helper.code != 0 then Failed
                     else Returned(s.window.success, s.window.confirmed))
      else s
    case WindowDies => if s.window.Returned? || s.window.Failed? then s else s.(window := Dead)
    case HelperSays(sent, undo) => Say(s, sent, undo)
    case HelperReceives(outcome, undo, sent) => if s.toHelper != [] then HelperStep(s, outcome, undo, sent) else s
    case HelperGivesUp(undo) =>
      match s.helper
      case AwaitApply => s.(helper := Exited(1, false))
      case AwaitAck(success) => Unacknowledged(s, success, undo)
      case _ => s
  }

  const START := System(AwaitHello, Starting, [], [], false, false, None)

  function Run(steps: seq<Step>): System {
    if steps == [] then START else Next(Run(steps[..|steps| - 1]), steps[|steps| - 1])
  }

  // ----- the invariant -----

  predicate Lost(w: Window) {
    w.Failed? || w.Dead?
  }

  /** What the helper holds between `apply` and the answer to its receipt. */
  predicate Holds(s: System, success: bool) {
    && (success <==> s.rollback.None?)
    && (s.inPlace <==> success || s.rollback == Some(Doubtful(true)))
  }

  /** The window has been told the truth about an accepted receipt. */
  predicate Told(s: System, success: bool, confirmed: bool) {
    && (success <==> s.rollback.None?)
    && (confirmed <==> Confirmed(s))
  }

  /** How far the helper is: it has said this much. */
  predicate Inv(s: System) {
    && (s.verified ==> s.window.AwaitFinished? || s.window.AwaitExit? || s.window.Returned? || Lost(s.window))
    && (match s.helper
        case Starting =>
          && !s.inPlace && s.rollback.None?
          && s.toWindow == [] && s.toHelper == [] && !s.verified && (s.window.AwaitHello? || Lost(s.window))
        case AwaitApply =>
          && !s.verified && !s.inPlace && s.rollback.None?
          && ((s.window.AwaitHello? && s.toWindow == [Hello] && s.toHelper == [])
              || (s.window.AwaitResult? && s.toWindow == [] && s.toHelper == [Apply])
              || (Lost(s.window) && (s.toHelper == [] || s.toHelper == [Apply])))
        case Applied(success) =>
          && Holds(s, success) && !s.verified && s.toHelper == []
          && ((s.window.AwaitResult? && s.toWindow == []) || Lost(s.window))
        case AwaitAck(success) =>
          && Holds(s, success)
          && (s.toHelper == [] || (s.toHelper == [Ack] && s.verified == success))
          && ((s.window.AwaitResult? && s.toWindow == [Result(success, Confirmed(s))] && s.toHelper == [] && !s.verified)
              || (s.window == AwaitFinished(success, Confirmed(s)) && s.toWindow == [] && s.toHelper == [Ack])
              || Lost(s.window))
        case Accepted(success) =>
          && Holds(s, success) && s.verified == success && s.toHelper == []
          && ((s.window == AwaitFinished(success, Confirmed(s)) && s.toWindow == []) || Lost(s.window))
        case Exited(code, accepted) =>
          && (s.inPlace <==> (accepted && s.rollback.None?) || s.rollback == Some(Doubtful(true)))
          && (accepted && s.rollback.None? ==> s.verified)
          && Heard(s, code, accepted))
    && (s.window.AwaitExit? || s.window.Returned? ==> s.helper.Exited?)
  }

  /** What a helper that is gone can still tell the window. */
  predicate Heard(s: System, code: nat, accepted: bool) {
    match s.window
    case AwaitHello => !accepted && (s.toWindow == [] || s.toWindow == [Hello])
    case AwaitResult => !accepted && (s.toWindow == [] || (|s.toWindow| == 1 && (s.toWindow[0].Refused? || s.toWindow[0].Result?)))
    case AwaitFinished(success, confirmed) =>
      s.toWindow == [] || (s.toWindow == [Finished] && accepted && Told(s, success, confirmed) && (success ==> code == 0))
    case AwaitExit(success, confirmed) => accepted && Told(s, success, confirmed) && (success ==> code == 0)
    case Returned(success, confirmed) => accepted && Told(s, success, confirmed) && (success ==> code == 0)
    case _ => true
  }

  lemma WindowKeeps(s: System, valid: bool, sent: bool)
    requires Inv(s) && Open(s.window) && s.toWindow != []
    ensures Inv(WindowStep(s, valid, sent))
  {
  }

  lemma HelperKeeps(s: System, outcome: Outcome, undo: Undo, sent: bool)
    requires Inv(s) && s.toHelper != []
    ensures Inv(HelperStep(s, outcome, undo, sent))
  {
  }

  lemma NextKeeps(s: System, step: Step)
    requires Inv(s)
    ensures Inv(Next(s, step))
  {
    hide WindowStep, HelperStep;
    match step
    case WindowReceives(valid, sent) => if Open(s.window) && s.toWindow != [] { WindowKeeps(s, valid, sent); }
    case HelperReceives(outcome, undo, sent) => if s.toHelper != [] { HelperKeeps(s, outcome, undo, sent); }
    case _ =>
  }

  lemma {:induction false} RunKeeps(steps: seq<Step>)
    ensures Inv(Run(steps))
  {
    if steps != [] {
      hide Inv, Next;
      RunKeeps(steps[..|steps| - 1]);
      NextKeeps(Run(steps[..|steps| - 1]), steps[|steps| - 1]);
    }
  }

  /** Under any lost message, time limit or death of the window, once the helper is gone:
      something of the change is in place exactly when a successful receipt was accepted or
      its rollback failed, and such a receipt was verified and acknowledged by the window. */
  lemma {:induction false} Agreement(steps: seq<Step>)
    ensures
      var s := Run(steps);
      s.helper.Exited? ==>
        && (s.inPlace <==> (s.helper.accepted && s.rollback.None?) || s.rollback == Some(Doubtful(true)))
        && (s.helper.accepted && s.rollback.None? ==> s.verified)
  {
    RunKeeps(steps);
  }

  /** What the window reports is so. A success was accepted and left in place; a failure that
      is confirmed left nothing, and one that is not had a revert in doubt. */
  lemma {:induction false} ReportedIsTrue(steps: seq<Step>)
    ensures
      var s := Run(steps);
      s.window.Returned? ==>
        && s.helper.Exited? && s.helper.accepted
        && (s.window.success ==> s.helper.code == 0 && s.inPlace && s.verified)
        && (!s.window.success && s.window.confirmed ==> !s.inPlace)
        && (!s.window.success && !s.window.confirmed ==> s.rollback == Some(Doubtful(s.inPlace)))
  {
    RunKeeps(steps);
    var s := Run(steps);
    if s.rollback.Some? && s.rollback.value.Doubtful? {
      assert s.rollback == Some(Doubtful(s.rollback.value.left));
    }
  }

  /** So a change stays unreported in two ways only: the acknowledgement was sent and the
      window failed or died, or a revert failed. */
  lemma {:induction false} Unreported(steps: seq<Step>)
    ensures
      var s := Run(steps);
      s.helper.Exited? && s.inPlace && Lost(s.window) ==> s.verified || s.rollback == Some(Doubtful(true))
  {
    RunKeeps(steps);
  }

  lemma RunOfSeven(steps: seq<Step>)
    requires |steps| == 7
    ensures Run(steps) == Next(Next(Next(Next(Next(Next(Next(START, steps[0]), steps[1]), steps[2]), steps[3]), steps[4]), steps[5]), steps[6])
  {
    assert steps[..6][..5] == steps[..5] && steps[..5][..4] == steps[..4] && steps[..4][..3] == steps[..3]
        && steps[..3][..2] == steps[..2] && steps[..2][..1] == steps[..1] && steps[..1][..0] == [];
    assert Run(steps[..1]) == Next(START, steps[0]);
    assert Run(steps[..2]) == Next(Run(steps[..1]), steps[1]);
    assert Run(steps[..3]) == Next(Run(steps[..2]), steps[2]);
    assert Run(steps[..4]) == Next(Run(steps[..3]), steps[3]);
    assert Run(steps[..5]) == Next(Run(steps[..4]), steps[4]);
    assert Run(steps[..6]) == Next(Run(steps[..5]), steps[5]);
  }

  const DELIVERED := [
    HelperSays(true, Undone), WindowReceives(true, true), HelperReceives(Succeeded, Undone, true), HelperSays(true, Undone)]

  /** The first does happen: the acknowledgement arrives after the window gave up. */
  lemma DisagreementIsPossible()
    ensures exists steps ::
      var s := Run(steps);
      s.window == Failed && s.helper == Exited(0, true) && s.inPlace && s.verified && s.rollback.None?
  {
    var steps := DELIVERED + [WindowReceives(true, true), WindowGivesUp, HelperReceives(NotApplied, Undone, true)];
    RunOfSeven(steps);
    var all := steps + [HelperSays(true, Undone)];
    assert all[..7] == steps;
    assert Run(all) == Next(Run(steps), HelperSays(true, Undone));
  }

  /** So does the second, without any acknowledgement: the window gives up, and undoing fails. */
  lemma FailedRevertIsPossible()
    ensures exists steps ::
      var s := Run(steps);
      s.window == Failed && s.helper == Exited(1, false) && s.inPlace && !s.verified && Ack !in s.toHelper
  {
    var steps := DELIVERED + [WindowGivesUp, HelperGivesUp(Doubtful(true)), WindowGivesUp];
    RunOfSeven(steps);
    var s := Run(steps);
    assert s.window == Failed && s.helper == Exited(1, false) && s.inPlace && !s.verified && Ack !in s.toHelper;
  }

  const REPORTED := [WindowReceives(true, true), WindowSeesExit]

  function Through(outcome: Outcome): seq<Step> {
    [HelperSays(true, Undone), WindowReceives(true, true), HelperReceives(outcome, Undone, true), HelperSays(true, Undone),
     WindowReceives(true, true), HelperReceives(NotApplied, Undone, true), HelperSays(true, Undone)]
  }

  /** The other two ends: a change that is reported as made, and one that is reported as undone. */
  lemma SuccessIsReported()
    ensures Run(Through(Succeeded) + REPORTED) == System(Returned(true, false), Exited(0, true), [], [], true, true, None)
  {
    RunOfSeven(Through(Succeeded));
    assert Run(Through(Succeeded)) == System(AwaitFinished(true, false), Exited(0, true), [Finished], [], true, true, None);
    Two(Through(Succeeded), REPORTED);
    hide Run;
  }

  lemma RollbackIsReported()
    ensures Run(Through(RolledBack) + REPORTED) == System(Returned(false, true), Exited(0, true), [], [], false, false, Some(Undone))
  {
    RunOfSeven(Through(RolledBack));
    assert Run(Through(RolledBack)) == System(AwaitFinished(false, true), Exited(0, true), [Finished], [], false, false, Some(Undone));
    Two(Through(RolledBack), REPORTED);
    hide Run;
  }

  lemma Two(steps: seq<Step>, more: seq<Step>)
    requires |more| == 2
    ensures Run(steps + more) == Next(Next(Run(steps), more[0]), more[1])
  {
    var all := steps + more;
    assert all[..|all| - 1] == steps + [more[0]] && (steps + [more[0]])[..|steps|] == steps;
    assert Run(steps + [more[0]]) == Next(Run(steps), more[0]);
  }

  // ----- what was looked at -----

  /** At step `k` the window finds a successful result valid and acknowledges it. */
  predicate ChecksAt(steps: seq<Step>, k: int) {
    && 0 <= k < |steps| && steps[k] == WindowReceives(true, true)
    && var s := Run(steps[..k]);
       s.window.AwaitResult? && s.toWindow != [] && s.toWindow[0].Result? && s.toWindow[0].success
  }

  /** At step `k` the helper takes an acknowledgement while the window lives. */
  predicate TakesAckAt(steps: seq<Step>, k: int) {
    && 0 <= k < |steps| && steps[k].HelperReceives?
    && var s := Run(steps[..k]);
       s.helper.AwaitAck? && s.toHelper != [] && s.toHelper[0].Ack? && !s.window.Dead?
  }

  predicate HasAccepted(h: Helper) {
    h.Accepted? || (h.Exited? && h.accepted)
  }

  lemma StepChecks(s: System, step: Step)
    ensures Next(s, step).verified && !s.verified ==>
              && step == WindowReceives(true, true) && s.window.AwaitResult?
              && s.toWindow != [] && s.toWindow[0].Result? && s.toWindow[0].success
  {
  }

  lemma StepAccepts(s: System, step: Step)
    ensures HasAccepted(Next(s, step).helper) && !HasAccepted(s.helper) ==>
              step.HelperReceives? && s.helper.AwaitAck? && s.toHelper != [] && s.toHelper[0].Ack? && !s.window.Dead?
  {
  }

  lemma SameSteps(steps: seq<Step>, n: nat, k: int)
    requires n <= |steps| && k < n
    ensures ChecksAt(steps[..n], k) ==> ChecksAt(steps, k)
    ensures TakesAckAt(steps[..n], k) ==> TakesAckAt(steps, k)
  {
    if 0 <= k { assert steps[..n][..k] == steps[..k]; }
  }

  /** A change counts as verified only if the window found its result valid, and as accepted
      only if an acknowledgement reached the helper of a living window. */
  lemma {:induction false} NothingUnchecked(steps: seq<Step>)
    ensures Run(steps).verified ==> exists k :: ChecksAt(steps, k)
    ensures HasAccepted(Run(steps).helper) ==> exists k :: TakesAckAt(steps, k)
  {
    if steps != [] {
      hide Next;
      var n := |steps| - 1;
      NothingUnchecked(steps[..n]);
      StepChecks(Run(steps[..n]), steps[n]);
      StepAccepts(Run(steps[..n]), steps[n]);
      if k :| ChecksAt(steps[..n], k) { SameSteps(steps, n, k); }
      if k :| TakesAckAt(steps[..n], k) { SameSteps(steps, n, k); }
      hide Run;
      assert Run(steps).verified && !Run(steps[..n]).verified ==> ChecksAt(steps, n);
      assert HasAccepted(Run(steps).helper) && !HasAccepted(Run(steps[..n]).helper) ==> TakesAckAt(steps, n);
    }
  }
}
