/** An elevated helper that outlives its window, one effect at a time.

    The window's operation lease dies with the window; the helper's own lease only keeps
    another helper from being launched. A helper whose window is gone begins no change
    (`alive` is false), but a write it is inside of still lands, and `Receipt::revert` does
    not ask whether anyone is there. Meanwhile the next window may read, save or clear the
    journal. Reads and the effects that follow them are separate steps here. */
module OrphanedHelper {
  import opened Common
  import opened DefaultConnection
  import opened WriteAhead

  /** `touched` holds the settings found before each write, `inFlight` a write that has been
      issued and has not landed. */
  datatype Helper = Helper(changes: seq<Metric>, touched: seq<Metric>, inFlight: Option<Metric>, reverting: bool, orphan: bool)

  /** `seen` is the point at which the snapshot was read. */
  datatype Window =
    | Idle
    | Planning(preferred: Id, read: Snapshot, seen: Point)
    | Ready(request: Request, restore: bool)
    | Watching(request: Request, restore: bool)
    | Concluding(asked: Option<Request>, restore: bool)
    | Settling(reread: Snapshot, restore: bool)

  datatype System = System(at: Point, window: Window, helper: Option<Helper>)

  datatype Step =
    | ReadForApply(preferred: Id, s: Snapshot)
    | SaveJournal
    | ReadForRestore(s: Snapshot)
    | Launch
    | Hear(success: bool)
    | Reread(s: Snapshot)
    | Settle
    | WindowFails
    | WindowDies
    | PowerLoss
    | ChangeOutside(id: Id, st: Setting)
    | HelperTouches(m: Metric, original: Metric)
    | HelperLands(active: bool, stored: bool, number: nat)
    | HelperTurns
    | HelperReverts
    | HelperSkips
    | HelperExits

  // ----- the window -----

  /** The interfaces that hold a value written by NetLane and no longer their own. */
  function Unreturned(p: Point): map<Id, Setting> {
    map id | id in p.base && !(id in p.now && Same(p.base[id], p.now[id])) :: p.base[id]
  }

  /** What must hold of the last reread for the journal to be finalized or cleared. */
  predicate Allows(j: Journal, asked: Option<Request>, restore: bool, s: Snapshot) {
    && (asked.Some? ==> VerifyAfter(asked.value, s))
    && (if restore then Restoration(j, s) == Some(None) else Confirmed(j, s).Some?)
  }

  function WindowSteps(x: System, step: Step): System {
    match step
    case ReadForApply(preferred, s) =>
      if x.window.Idle? && Reflects(s, x.at.now) then x.(window := Planning(preferred, s, x.at)) else x
    case SaveJournal =>
      if !x.window.Planning? then x
      else
        var prepared := Prepare(x.window.read, x.window.preferred, x.at.disk);
        if prepared.None? then x.(window := Idle)
        else x.(at := x.at.(disk := Some(prepared.value.0)), window := Ready(prepared.value.1, false))
    case ReadForRestore(s) =>
      if !x.window.Idle? || x.at.disk.None? || !Reflects(s, x.at.now) then x
      else
        (match Restoration(x.at.disk.value, s)
         case None => x
         case Some(None) => x.(window := Concluding(None, true))
         case Some(Some(request)) => x.(window := Ready(request, true)))
    case Launch =>
      if !x.window.Ready? then x
      else if x.helper.Some? then x.(window := Idle)
      else
        var request := x.window.request;
        x.(window := Watching(request, x.window.restore), helper := Some(Helper(request.changes, [], None, false, false)))
    case Hear(success) =>
      if !x.window.Watching? || x.helper.Some? then x
      else x.(window := if success then Concluding(Some(x.window.request), x.window.restore) else Idle)
    case Reread(s) =>
      if !x.window.Concluding? || x.at.disk.None? || !Reflects(s, x.at.now) then x
      else if !Allows(x.at.disk.value, x.window.asked, x.window.restore, s) then x.(window := Idle)
      else x.(window := Settling(s, x.window.restore))
    case Settle =>
      if !x.window.Settling? || x.at.disk.None? then x
      else if x.window.restore then x.(window := Idle, at := Point(x.at.now, None, Unreturned(x.at)))
      else x.(window := Idle, at := x.at.(disk := Confirmed(x.at.disk.value, x.window.reread)))
    case WindowFails => if x.window.Watching? && x.helper.Some? then x else x.(window := Idle)
    case WindowDies =>
      x.(window := Idle, helper := if x.helper.Some? then Some(x.helper.value.(orphan := true)) else None)
    case PowerLoss => x.(window := Idle, helper := None)
    case ChangeOutside(id, st) =>
      if && x.window.Idle? && x.helper.None? && id in x.at.now
         && (x.at.disk.Some? ==> Remembers(x.at.disk, id, st) || !Recorded(x.at.disk.value, id, st))
      then x.(at := ChangedOutside(x.at, id, st))
      else x
    case _ => x
  }

  // ----- the helper -----

  /** `Receipt::revert` writes: the setting is not yet the original, and each store holds the
      original or the change. */
  predicate Revertible(original: Metric, change: Metric, st: Setting) {
    !Fits(original, st) && Ours(original, change, st)
  }

  predicate WouldRevert(h: Helper, original: Metric, now: map<Id, Setting>) {
    original.id in now && Names(h.changes, original.id) && Revertible(original, ChangeOf(h.changes, original.id), now[original.id])
  }

  function HelperSteps(x: System, h: Helper, step: Step): System
    requires x.helper == Some(h)
  {
    match step
    case HelperTouches(m, original) =>
      if && !h.orphan && !h.reverting && h.inFlight.None? && m in h.changes && !Names(h.touched, m.id)
         && m.id in x.at.now && original.id == m.id && Fits(original, x.at.now[m.id])
      then x.(helper := Some(h.(touched := h.touched + [original], inFlight := Some(m))))
      else x
    case HelperLands(active, stored, number) =>
      if h.inFlight.Some? && h.inFlight.value.id in x.at.now then
        x.(at := Landed(x.at, h.inFlight.value, active, stored, number), helper := Some(h.(inFlight := None)))
      else x
    case HelperTurns => if h.inFlight.None? then x.(helper := Some(h.(reverting := true))) else x
    case HelperReverts =>
      if !h.reverting || h.inFlight.Some? || h.touched == [] then x
      else
        var original, rest := h.touched[|h.touched| - 1], h.(touched := h.touched[..|h.touched| - 1]);
        x.(helper := Some(if WouldRevert(h, original, x.at.now) then rest.(inFlight := Some(original)) else rest))
    case HelperSkips =>
      if !h.reverting || h.inFlight.Some? || h.touched == [] then x
      else x.(helper := Some(h.(touched := h.touched[..|h.touched| - 1])))
    case HelperExits => if h.inFlight.None? then x.(helper := None) else x
    case _ => x
  }

  predicate ByHelper(step: Step) {
    step.HelperTouches? || step.HelperLands? || step.HelperTurns? || step.HelperReverts? || step.HelperSkips? || step.HelperExits?
  }

  function Next(x: System, step: Step): System {
    if !ByHelper(step) then WindowSteps(x, step)
    else if x.helper.Some? then HelperSteps(x, x.helper.value, step)
    else x
  }

  function Start(now: map<Id, Setting>): System {
    System(Point(now, None, map[]), Idle, None)
  }

  function Run(x: System, steps: seq<Step>): System
    decreases |steps|
  {
    if steps == [] then x else Run(Next(x, steps[0]), steps[1..])
  }

  // ----- a helper that may still write -----

  ghost predicate CanWrite(x: System) {
    && x.helper.Some?
    && var h := x.helper.value;
       match h.inFlight
       case Some(m) => m.id in x.at.now
       case None => exists k :: 0 <= k < |h.touched| && WouldRevert(h, h.touched[k], x.at.now)
  }

  /** The window takes its last reread for settled while a helper may still write. */
  ghost predicate Hasty(x: System, step: Step) {
    step.Reread? && x.window.Concluding? && CanWrite(x)
  }

  ghost predicate Patient(x: System, steps: seq<Step>)
    decreases |steps|
  {
    steps == [] || (!Hasty(x, steps[0]) && Patient(Next(x, steps[0]), steps[1..]))
  }

  ghost predicate AlwaysRecoverable(x: System, steps: seq<Step>)
    decreases |steps|
  {
    Recoverable(x.at) && (steps == [] || AlwaysRecoverable(Next(x, steps[0]), steps[1..]))
  }

  // ----- the invariant -----

  ghost predicate Live(x: System) {
    x.helper.Some? && (!x.helper.value.orphan || CanWrite(x))
  }

  predicate Writable(p: Point, id: Id) {
    id in p.now && (id in p.base || Remembers(p.disk, id, p.now[id]))
  }

  predicate AllWritable(p: Point, changes: seq<Metric>) {
    forall k | 0 <= k < |changes| :: Writable(p, changes[k].id)
  }

  /** Since `seen` only interfaces that the journal covers have been written. */
  predicate Follows(seen: Point, p: Point) {
    && seen.disk == p.disk && seen.now.Keys == p.now.Keys && seen.base.Keys <= p.base.Keys
    && forall id | id in p.now && id !in p.base :: p.now[id] == seen.now[id]
  }

  predicate Shaped(h: Helper) {
    && (h.inFlight.Some? ==> Names(h.changes, h.inFlight.value.id))
    && forall k | 0 <= k < |h.touched| :: Names(h.changes, h.touched[k].id)
  }

  ghost predicate WindowInv(x: System) {
    match x.window
    case Idle => true
    case Planning(_, read, seen) => Good(seen) && Reflects(read, seen.now) && Follows(seen, x.at)
    case Ready(request, _) => x.at.disk.Some? && AllWritable(x.at, request.changes)
    case Watching(_, _) => x.at.disk.Some?
    case Concluding(_, restore) => x.at.disk.Some? && (!restore ==> x.helper.None?)
    case Settling(reread, restore) =>
      && x.at.disk.Some?
      && (if restore then !Live(x) && Unreturned(x.at) == map[] else x.helper.None? && Confirmed(x.at.disk.value, reread).Some?)
  }

  ghost predicate Inv(x: System) {
    && Good(x.at)
    && WindowInv(x)
    && (x.helper.Some? ==> Shaped(x.helper.value) && (!x.helper.value.orphan ==> x.window.Watching?))
    && (Live(x) ==> AllWritable(x.at, x.helper.value.changes))
  }

  // ----- every step keeps it -----

  lemma LandingKeepsWritable(p: Point, m: Metric, active: bool, stored: bool, number: nat, id: Id)
    requires m.id in p.now && Writable(p, id)
    ensures Writable(Landed(p, m, active, stored, number), id)
  {
  }

  lemma LandsKeeps(x: System, h: Helper, active: bool, stored: bool, number: nat)
    requires Inv(x) && x.helper == Some(h) && h.inFlight.Some? && h.inFlight.value.id in x.at.now
    ensures Inv(HelperSteps(x, h, HelperLands(active, stored, number)))
  {
    hide Remembers, Good, Fits, WouldRevert;
    var m := h.inFlight.value;
    assert CanWrite(x);
    var k :| 0 <= k < |h.changes| && h.changes[k].id == m.id;
    assert Writable(x.at, m.id);
    LandingIsGood(x.at, m, active, stored, number);
    var p := Landed(x.at, m, active, stored, number);
    forall id | Writable(x.at, id) ensures Writable(p, id) { LandingKeepsWritable(x.at, m, active, stored, number, id); }
  }

  lemma HelperKeeps(x: System, h: Helper, step: Step)
    requires Inv(x) && x.helper == Some(h) && !step.HelperLands?
    ensures Inv(HelperSteps(x, h, step))
  {
    hide Good, Writable, WouldRevert, Unreturned, Confirmed, Follows;
    var y := HelperSteps(x, h, step);
    assert y.at == x.at && y.window == x.window;
    if y.helper.Some? {
      HelperStaysShaped(x, h, step);
      assert y.helper.value.orphan == h.orphan && y.helper.value.changes == h.changes;
    }
  }

  lemma HelperStaysShaped(x: System, h: Helper, step: Step)
    requires Shaped(h) && x.helper == Some(h) && !step.HelperLands?
    ensures
      var y := HelperSteps(x, h, step);
      y.helper.Some? ==> Shaped(y.helper.value) && (Live(y) ==> Live(x))
  {
    hide WouldRevert;
    var y := HelperSteps(x, h, step);
    if y.helper.Some? {
      var g := y.helper.value;
      if k :| 0 <= k < |g.touched| && WouldRevert(g, g.touched[k], y.at.now) && h.orphan {
        assert g.touched[k] == h.touched[k];
        SameRevert(h, g, h.touched[k], x.at.now);
      }
    }
  }

  lemma SameRevert(h: Helper, g: Helper, original: Metric, now: map<Id, Setting>)
    requires h.changes == g.changes
    ensures WouldRevert(h, original, now) == WouldRevert(g, original, now)
  {
  }

  /** A journal planned from a read that is no longer up to date is still safe to save. */
  lemma SaveKeeps(x: System)
    requires Inv(x) && x.window.Planning?
    ensures Inv(WindowSteps(x, SaveJournal))
  {
    var read, preferred, seen := x.window.read, x.window.preferred, x.window.seen;
    var prepared := Prepare(read, preferred, x.at.disk);
    if prepared.Some? {
      hide Prepare;
      var (journal, request) := prepared.value;
      SavingPreparedIsGood(seen, read, preferred);
      PreparedShape(read, preferred, seen.disk);
      LateSaveIsGood(seen, x.at, journal);
      LateSaveCovers(seen, x.at, journal, request);
      if Live(x) { KeptIsWritable(x.at, journal, x.helper.value.changes); }
      hide Good, Follows, AllWritable, Shaped, WouldRevert, Covered;
      var y := WindowSteps(x, SaveJournal);
      assert y == System(Point(x.at.now, Some(journal), x.at.base), Ready(request, false), x.helper);
      assert Live(y) == Live(x);
    }
  }

  lemma KeptIsWritable(p: Point, journal: Journal, changes: seq<Metric>)
    requires AllWritable(p, changes) && (p.disk.Some? ==> p.disk.value.original <= journal.original)
    ensures AllWritable(Point(p.now, Some(journal), p.base), changes)
  {
    hide Remembers;
    forall k | 0 <= k < |changes| ensures Writable(Point(p.now, Some(journal), p.base), changes[k].id) {
      var id := changes[k].id;
      assert Writable(p, id);
      if id !in p.base {
        RememberedHasJournal(p.disk, id, p.now[id]);
        KeptIsRemembered(p.disk, journal, id, p.now[id]);
      }
    }
  }

  lemma RememberedHasJournal(disk: Option<Journal>, id: Id, st: Setting)
    requires Remembers(disk, id, st)
    ensures disk.Some?
  {
  }

  lemma LateSaveIsGood(seen: Point, p: Point, journal: Journal)
    requires Follows(seen, p) && Good(p) && Good(Point(seen.now, Some(journal), seen.base))
    requires p.disk.Some? ==> p.disk.value.original <= journal.original
    ensures Good(Point(p.now, Some(journal), p.base))
  {
    hide Remembers, Recorded, Fits, ValidJournal;
    forall id | id in p.base ensures Remembers(Some(journal), id, p.base[id]) {
      assert Remembers(p.disk, id, p.base[id]);
      RememberedHasJournal(p.disk, id, p.base[id]);
      KeptIsRemembered(p.disk, journal, id, p.base[id]);
    }
  }

  lemma LateSaveCovers(seen: Point, p: Point, journal: Journal, request: Request)
    requires Follows(seen, p) && Covered(request, Point(seen.now, Some(journal), seen.base))
    ensures AllWritable(Point(p.now, Some(journal), p.base), request.changes)
  {
    hide Remembers;
  }

  lemma RestoreReadKeeps(x: System, s: Snapshot)
    requires Inv(x)
    ensures Inv(WindowSteps(x, ReadForRestore(s)))
  {
    hide Good, Restoration, WouldRevert, Follows;
    if x.window.Idle? && x.at.disk.Some? && Reflects(s, x.at.now) {
      var r := Restoration(x.at.disk.value, s);
      if r.Some? && r.value.Some? { RestorationIsCovered(x.at, s); }
    }
  }

  lemma RereadKeeps(x: System, s: Snapshot)
    requires Inv(x) && !Hasty(x, Reread(s))
    ensures Inv(WindowSteps(x, Reread(s)))
  {
    hide Good, Restoration, WouldRevert, Follows, Confirmed, Shaped, AllWritable, VerifyAfter;
    var y := WindowSteps(x, Reread(s));
    if y.window.Settling? && x.window.Concluding? && y.window.restore {
      RestoredIsSame(x.at, s);
      assert Unreturned(x.at) == map[];
    }
  }

  lemma SettleKeeps(x: System)
    requires Inv(x)
    ensures Inv(WindowSteps(x, Settle))
  {
    hide Confirmed, WouldRevert, Follows, Shaped, AllWritable, Unreturned, Recorded, ValidJournal;
    if x.window.Settling? && !x.window.restore { ConfirmingIsGood(x.at, x.window.reread); }
  }

  lemma OtherKeeps(x: System, step: Step)
    requires Inv(x) && !ByHelper(step)
    requires !step.SaveJournal? && !step.ReadForRestore? && !step.Reread? && !step.Settle?
    ensures Inv(WindowSteps(x, step))
  {
    hide Good, Remembers, WouldRevert, Writable, Recorded, Unreturned, Confirmed;
    if step.ChangeOutside? && x.window.Idle? && x.helper.None? && step.id in x.at.now
       && (x.at.disk.Some? ==> Remembers(x.at.disk, step.id, step.st) || !Recorded(x.at.disk.value, step.id, step.st))
    {
      OutsideIsGood(x.at, step.id, step.st);
    }
  }

  lemma StepKeeps(x: System, step: Step)
    requires Inv(x) && !Hasty(x, step)
    ensures Inv(Next(x, step))
  {
    hide Inv, WindowSteps, HelperSteps, Hasty;
    if !ByHelper(step) {
      match step
      case SaveJournal => if x.window.Planning? { SaveKeeps(x); } else { NotPlanning(x); }
      case ReadForRestore(s) => RestoreReadKeeps(x, s);
      case Reread(s) => RereadKeeps(x, s);
      case Settle => SettleKeeps(x);
      case _ => OtherKeeps(x, step);
    } else if x.helper.Some? {
      if step.HelperLands? {
        AnyLandsKeeps(x, x.helper.value, step.active, step.stored, step.number);
      } else {
        HelperKeeps(x, x.helper.value, step);
      }
    }
  }

  lemma NotPlanning(x: System)
    requires !x.window.Planning?
    ensures WindowSteps(x, SaveJournal) == x
  {
  }

  lemma AnyLandsKeeps(x: System, h: Helper, active: bool, stored: bool, number: nat)
    requires Inv(x) && x.helper == Some(h)
    ensures Inv(HelperSteps(x, h, HelperLands(active, stored, number)))
  {
    hide Inv;
    if h.inFlight.Some? && h.inFlight.value.id in x.at.now { LandsKeeps(x, h, active, stored, number); }
  }

  // ----- theorems -----

  /** As long as no window takes its last reread while a helper may still write, the journal
      on disk can give every interface its own setting back at every point of the run. */
  lemma {:induction false} PatientRunsAreRecoverable(x: System, steps: seq<Step>)
    requires Inv(x) && Patient(x, steps)
    ensures AlwaysRecoverable(x, steps) && Inv(Run(x, steps))
    decreases |steps|
  {
    hide Next, Hasty;
    assert Recoverable(x.at);
    hide Inv, Recoverable;
    if steps != [] {
      StepKeeps(x, steps[0]);
      PatientRunsAreRecoverable(Next(x, steps[0]), steps[1..]);
    }
  }

  lemma StartHolds(now: map<Id, Setting>)
    ensures Inv(Start(now))
  {
  }

  predicate NoReread(steps: seq<Step>) {
    forall k | 0 <= k < |steps| :: !steps[k].Reread?
  }

  lemma {:induction false} NoRereadIsPatient(x: System, steps: seq<Step>)
    requires NoReread(steps)
    ensures Patient(x, steps)
    decreases |steps|
  {
    if steps != [] { NoRereadIsPatient(Next(x, steps[0]), steps[1..]); }
  }

  /** A helper that may write does so after the journal is gone. */
  lemma {:induction false} WritesUnrecoverably(x: System) returns (more: seq<Step>)
    requires CanWrite(x) && x.at.disk.None?
    ensures NoReread(more) && !Recoverable(Run(x, more).at)
    decreases |x.helper.value.touched|, if x.helper.value.reverting then 0 else 1
  {
    var h := x.helper.value;
    if h.inFlight.Some? {
      more := [HelperLands(true, true, 0)];
      LandsUnrecoverably(x);
    } else {
      var k :| 0 <= k < |h.touched| && WouldRevert(h, h.touched[k], x.at.now);
      hide WouldRevert, Recoverable;
      var step := TowardsRevert(x, h, k);
      var y := Next(x, step);
      var rest: seq<Step>;
      if y.helper.value.inFlight.Some? {
        LandsUnrecoverably(y);
        rest := [HelperLands(true, true, 0)];
      } else {
        rest := WritesUnrecoverably(y);
      }
      more := [step] + rest;
      assert more[1..] == rest;
      hide Next, CanWrite;
    }
  }

  /** One step of the helper nearer to reverting the entry `k`. */
  lemma TowardsRevert(x: System, h: Helper, k: nat) returns (step: Step)
    requires x.helper == Some(h) && h.inFlight.None? && k < |h.touched| && WouldRevert(h, h.touched[k], x.at.now)
    ensures !step.Reread? && Next(x, step).at == x.at && CanWrite(Next(x, step))
    ensures
      var g := Next(x, step).helper.value;
      g.inFlight.None? ==> |g.touched| < |h.touched| || (|g.touched| == |h.touched| && g.reverting && !h.reverting)
  {
    step := if !h.reverting then HelperTurns else if k == |h.touched| - 1 then HelperReverts else HelperSkips;
    var g := Next(x, step).helper.value;
    SameRevert(h, g, h.touched[k], x.at.now);
    if step.HelperReverts? {
      assert h.touched[k].id in x.at.now;
    } else {
      assert g.touched[k] == h.touched[k];
    }
  }

  lemma LandsUnrecoverably(x: System)
    requires x.helper.Some? && x.helper.value.inFlight.Some? && x.helper.value.inFlight.value.id in x.at.now
    requires x.at.disk.None?
    ensures !Recoverable(Run(x, [HelperLands(true, true, 0)]).at)
  {
    var y := Next(x, HelperLands(true, true, 0));
    var steps := [HelperLands(true, true, 0)];
    assert steps[1..] == [] && Run(x, steps) == y;
    assert x.helper.value.inFlight.value.id in y.at.base;
  }

  /** The exact condition for clearing the journal: after a last reread that allows it, every
      continuation stays recoverable if and only if no helper could write any more. */
  lemma {:induction false} ClearingIsSafeExactly(now: map<Id, Setting>, steps: seq<Step>, s: Snapshot)
    requires Patient(Start(now), steps)
    requires Next(Run(Start(now), steps), Reread(s)).window == Settling(s, true)
    requires Run(Start(now), steps).window.Concluding?
    ensures
      var x := Run(Start(now), steps);
      var y := Next(x, Reread(s));
      !CanWrite(x) <==> forall more | NoReread(more) :: AlwaysRecoverable(y, more)
  {
    hide Patient, CanWrite, Inv;
    StartHolds(now);
    PatientRunsAreRecoverable(Start(now), steps);
    var x := Run(Start(now), steps);
    if CanWrite(x) {
      HastyEndsBadly(x, s);
    } else {
      StepKeeps(x, Reread(s));
      ClearedStaysRecoverable(Next(x, Reread(s)));
    }
  }

  lemma ClearedStaysRecoverable(x: System)
    requires Inv(x)
    ensures forall more | NoReread(more) :: AlwaysRecoverable(x, more)
  {
    hide Inv, Patient, AlwaysRecoverable, Run;
    forall more | NoReread(more) ensures AlwaysRecoverable(x, more) {
      NoRereadIsPatient(x, more);
      PatientRunsAreRecoverable(x, more);
    }
  }

  lemma HastyEndsBadly(x: System, s: Snapshot)
    requires CanWrite(x) && x.window.Concluding? && Next(x, Reread(s)).window == Settling(s, true)
    ensures exists more :: NoReread(more) && !AlwaysRecoverable(Next(x, Reread(s)), more)
  {
    hide CanWrite, Next, Recoverable;
    var y := Next(x, Reread(s));
    ClearedCanWrite(x, s);
    var rest := WritesUnrecoverably(Next(y, Settle));
    var more := [Settle] + rest;
    assert more[1..] == rest;
    assert Run(y, more) == Run(Next(y, Settle), rest);
    EndsRecoverable(y, more);
    assert NoReread(more) && !AlwaysRecoverable(y, more);
  }

  lemma ClearedCanWrite(x: System, s: Snapshot)
    requires CanWrite(x) && x.window.Concluding? && Next(x, Reread(s)).window == Settling(s, true)
    ensures
      var z := Next(Next(x, Reread(s)), Settle);
      z.at.disk.None? && CanWrite(z)
  {
    hide WouldRevert, Restoration, Unreturned, Allows;
  }

  lemma {:induction false} EndsRecoverable(x: System, steps: seq<Step>)
    ensures AlwaysRecoverable(x, steps) ==> Recoverable(Run(x, steps).at)
    decreases |steps|
  {
    if steps != [] { EndsRecoverable(Next(x, steps[0]), steps[1..]); }
  }

  /** What a revert finds in the snapshot it reads decides as `Revertible` says. */
  lemma RevertReadsNow(s: Snapshot, now: map<Id, Setting>, original: Metric, change: Metric)
    requires Reflects(s, now) && Find(s, original.id).Some?
    ensures
      var i := Find(s, original.id).value;
      Revertible(original, change, now[original.id])
      <==> !Matches(original, i)
           && (Machine.ActiveMatches(original, i) || Machine.ActiveMatches(change, i))
           && (Machine.SavedMatches(original, i) || Machine.SavedMatches(change, i))
  {
  }

  // ----- the run in which it happens -----

  const ETHERNET := Interface(1, "Ethernet", Cable, 1, true, true, 25, Some(0), None)
  const BEFORE := Snapshot([ETHERNET], [Route(1, "Ethernet", 25, 0)])
  const AUTOMATIC := Metric(1, true, 25)
  const PREFERRED := Metric(1, false, 5)
  const JOURNAL := Journal([AUTOMATIC], [PREFERRED], [AUTOMATIC])
  const SETTINGS := map[1 := Setting(true, 25, None)]

  lemma BeforeIsValid()
    ensures ValidSnapshot(BEFORE) && Reflects(BEFORE, SETTINGS) && Find(BEFORE, 1) == Some(ETHERNET)
  {
    assert BEFORE.routes[0].index == 1 && BEFORE.routes[0].routeMetric == 0;
    assert LeastRoute(BEFORE.routes, 1, Some(0));
  }

  lemma JournalIsValid()
    ensures ValidJournal(JOURNAL)
  {
    assert JOURNAL.original[0].id == 1;
    assert Names(JOURNAL.original, 1);
  }

  lemma FirstPlan()
    ensures Plan(BEFORE, 1, []) == Some([PREFERRED])
  {
    BeforeIsValid();
    assert AffectedOf(BEFORE.interfaces, 1, []) == [ETHERNET] by {
      assert BEFORE.interfaces[1..] == [];
    }
    assert forall k | 0 <= k < |BEFORE.routes| :: BEFORE.routes[k].Total() == 25;
    var r := Plan(BEFORE, 1, []);
    assert r.Some? && r.value == [PREFERRED];
  }

  lemma FirstOriginals()
    ensures AddOriginals([], [PREFERRED], BEFORE) == [AUTOMATIC] && CurrentOf([PREFERRED], BEFORE) == [AUTOMATIC]
  {
    hide ValidSnapshot, Plan;
    BeforeIsValid();
    assert [PREFERRED][..0] == [] && AddOriginals([], [], BEFORE) == [];
    assert CurrentOf([PREFERRED], BEFORE) == [AUTOMATIC];
  }

  lemma OneUpsert(m: Metric)
    ensures UpsertAll([], [m]) == [m]
  {
    assert [m][..0] == [] && Upsert([], m) == [m];
  }

  lemma FirstPreparation()
    ensures Prepare(BEFORE, 1, None) == Some((JOURNAL, Request(BEFORE, [PREFERRED], Some(1))))
  {
    BeforeIsValid();
    JournalIsValid();
    FirstPlan();
    FirstOriginals();
    OneUpsert(PREFERRED);
    OneUpsert(AUTOMATIC);
    hide ValidJournal, ValidSnapshot, Plan, AddOriginals, CurrentOf, UpsertAll;
    assert Ids([]) == [];
  }

  lemma NothingToRestore()
    ensures Restoration(JOURNAL, BEFORE) == Some(None)
  {
    hide ValidJournal, ValidSnapshot;
    BeforeIsValid();
    JournalIsValid();
    assert Matches(JOURNAL.original[0], ETHERNET);
    assert Lists(JOURNAL.original, ETHERNET);
    assert JOURNAL.original[1..] == [];
    assert Unrestored(JOURNAL.original, BEFORE) == [];
  }

  const ORPHANED := System(Point(SETTINGS, Some(JOURNAL), map[]), Idle,
                           Some(Helper([PREFERRED], [AUTOMATIC], Some(PREFERRED), false, true)))

  const DYING := [ReadForApply(1, BEFORE), SaveJournal, Launch, HelperTouches(PREFERRED, AUTOMATIC), WindowDies]
  const CLEARING := [ReadForRestore(BEFORE), Reread(BEFORE), Settle, HelperLands(true, true, 0)]

  /** The window dies while its helper is inside the first write. */
  lemma DiesInsideAWrite()
    ensures Run(Start(SETTINGS), DYING) == ORPHANED
  {
    hide Prepare;
    BeforeIsValid();
    FirstPreparation();
    var request := Request(BEFORE, [PREFERRED], Some(1));
    var x0 := Start(SETTINGS);
    var x1 := x0.(window := Planning(1, BEFORE, x0.at));
    var x2 := x0.(window := Ready(request, false), at := ORPHANED.at);
    var x3 := x2.(window := Watching(request, false), helper := Some(Helper([PREFERRED], [], None, false, false)));
    var x4 := x3.(helper := Some(Helper([PREFERRED], [AUTOMATIC], Some(PREFERRED), false, false)));
    assert Next(x0, ReadForApply(1, BEFORE)) == x1;
    assert Next(x1, SaveJournal) == x2;
    assert Next(x2, Launch) == x3;
    assert [] + [AUTOMATIC] == [AUTOMATIC];
    assert Next(x3, HelperTouches(PREFERRED, AUTOMATIC)) == x4;
    assert Next(x4, WindowDies) == ORPHANED;
    RunOfFive(x0, DYING);
  }

  lemma RunOfFive(x: System, steps: seq<Step>)
    requires |steps| == 5
    ensures Run(x, steps) == Next(Next(Next(Next(Next(x, steps[0]), steps[1]), steps[2]), steps[3]), steps[4])
  {
    hide Next;
    var y := Next(Next(x, steps[0]), steps[1]);
    assert steps[1..][1..] == steps[2..] && steps[2..][1..] == steps[3..] && steps[3..][1..] == steps[4..] && steps[4..][1..] == [];
    assert Run(Next(x, steps[0]), steps[1..]) == Run(y, steps[2..]);
    assert Run(y, steps[2..]) == Run(Next(y, steps[2]), steps[3..]);
    var z := Next(Next(y, steps[2]), steps[3]);
    assert Run(Next(y, steps[2]), steps[3..]) == Run(z, steps[4..]);
    assert Run(z, steps[4..]) == Run(Next(z, steps[4]), []);
  }

  /** The next window finds every original in place, needs no helper and so meets no lease,
      and clears the journal; then the write lands. */
  lemma ClearedUnderAWrite()
    ensures
      var x := Run(ORPHANED, CLEARING);
      && x.at == Point(map[1 := Setting(false, 5, Some(5))], None, SETTINGS)
      && !Recoverable(x.at)
  {
    hide Restoration, ValidJournal;
    BeforeIsValid();
    NothingToRestore();
    var x1 := ORPHANED.(window := Concluding(None, true));
    var x2 := ORPHANED.(window := Settling(BEFORE, true));
    var x3 := ORPHANED.(at := Point(SETTINGS, None, map[]));
    assert Next(ORPHANED, ReadForRestore(BEFORE)) == x1;
    assert Next(x1, Reread(BEFORE)) == x2;
    assert Next(x2, Settle) == x3;
    var x4 := Next(x3, HelperLands(true, true, 0));
    assert x4.at.now == map[1 := Setting(false, 5, Some(5))] && x4.at.base == SETTINGS;
    assert 1 in x4.at.base;
    var steps := CLEARING;
    assert steps[1..][1..] == steps[2..] && steps[2..][1..] == steps[3..] && steps[3..][1..] == [];
    assert Run(ORPHANED, steps) == Run(x1, steps[1..]);
    assert Run(x1, steps[1..]) == Run(x2, steps[2..]);
    assert Run(x2, steps[2..]) == Run(x3, steps[3..]);
    assert Run(x3, steps[3..]) == Run(x4, []);
  }

  lemma {:induction false} RunAppends(x: System, a: seq<Step>, b: seq<Step>)
    ensures Run(x, a + b) == Run(Run(x, a), b)
    decreases |a|
  {
    if a == [] {
      assert a + b == b;
    } else {
      RunAppends(Next(x, a[0]), a[1..], b);
      assert (a + b)[1..] == a[1..] + b;
    }
  }

  /** The whole run: nine steps from a machine NetLane has never touched. */
  lemma OriginalIsLost()
    ensures
      var x := Run(Start(SETTINGS), DYING + CLEARING);
      x.at.base == SETTINGS && x.at.now != SETTINGS && x.at.disk == None && !Recoverable(x.at)
  {
    hide Run, Recoverable;
    DiesInsideAWrite();
    ClearedUnderAWrite();
    RunAppends(Start(SETTINGS), DYING, CLEARING);
    assert Setting(false, 5, Some(5)) != SETTINGS[1];
    assert map[1 := Setting(false, 5, Some(5))][1] == Setting(false, 5, Some(5));
  }

  // ----- the runs in which nothing goes wrong -----

  const INSTALLED := Setting(false, 5, Some(5))
  const AFTER := Snapshot([Interface(1, "Ethernet", Cable, 1, true, false, 5, Some(0), Some(5))], [Route(1, "Ethernet", 5, 0)])
  const WRITTEN := System(Point(map[1 := INSTALLED], Some(JOURNAL), SETTINGS), Watching(Request(BEFORE, [PREFERRED], Some(1)), false),
                          Some(Helper([PREFERRED], [AUTOMATIC], None, false, false)))
  const APPLIED := System(Point(map[1 := INSTALLED], Some(Journal([AUTOMATIC], [PREFERRED], [])), SETTINGS), Idle, None)
  const UNDONE := System(Point(SETTINGS, Some(JOURNAL), SETTINGS), Idle, None)

  const WRITING := [ReadForApply(1, BEFORE), SaveJournal, Launch, HelperTouches(PREFERRED, AUTOMATIC), HelperLands(true, true, 0)]
  const FINISHING := [HelperExits, Hear(true), Reread(AFTER), Settle]
  const UNDOING := [HelperTurns, HelperReverts, HelperLands(true, true, 25), HelperExits, Hear(false)]

  lemma WritesOnce()
    ensures Run(Start(SETTINGS), WRITING) == WRITTEN
  {
    hide Prepare;
    BeforeIsValid();
    FirstPreparation();
    var request := Request(BEFORE, [PREFERRED], Some(1));
    var x0 := Start(SETTINGS);
    var x1 := x0.(window := Planning(1, BEFORE, x0.at));
    var x2 := x0.(window := Ready(request, false), at := ORPHANED.at);
    var x3 := x2.(window := Watching(request, false), helper := Some(Helper([PREFERRED], [], None, false, false)));
    var x4 := x3.(helper := Some(Helper([PREFERRED], [AUTOMATIC], Some(PREFERRED), false, false)));
    assert Next(x0, ReadForApply(1, BEFORE)) == x1;
    assert Next(x1, SaveJournal) == x2;
    assert Next(x2, Launch) == x3;
    assert [] + [AUTOMATIC] == [AUTOMATIC];
    assert Next(x3, HelperTouches(PREFERRED, AUTOMATIC)) == x4;
    assert Next(x4, HelperLands(true, true, 0)) == WRITTEN;
    RunOfFive(x0, WRITING);
  }

  lemma AfterIsInstalled()
    ensures After(BEFORE, [PREFERRED]) == AFTER
  {
    assert [PREFERRED][0].id == ETHERNET.id;
    BeforeIsValid();
    assert BEFORE.interfaces[0].index == BEFORE.routes[0].index;
    AfterRoute(BEFORE, [PREFERRED], 0, 0);
    assert After(BEFORE, [PREFERRED]).interfaces == AFTER.interfaces;
    assert After(BEFORE, [PREFERRED]).routes == AFTER.routes;
  }

  lemma AfterAllows()
    ensures Allows(JOURNAL, Some(Request(BEFORE, [PREFERRED], Some(1))), false, AFTER)
    ensures Confirmed(JOURNAL, AFTER) == Some(Journal([AUTOMATIC], [PREFERRED], []))
    ensures Reflects(AFTER, map[1 := INSTALLED])
  {
    FirstPlan();
    PlannedChangesVerify(BEFORE, 1, []);
    AfterIsInstalled();
    hide ValidSnapshot, Plan, After;
    assert Find(AFTER, 1) == Some(AFTER.interfaces[0]);
  }

  /** A change that is made, found again and confirmed in the journal. */
  lemma ChangeIsConfirmed()
    ensures Run(Start(SETTINGS), WRITING + FINISHING) == APPLIED
  {
    WritesOnce();
    AfterAllows();
    hide Confirmed, Allows, Reflects;
    var request := Request(BEFORE, [PREFERRED], Some(1));
    var x1 := WRITTEN.(helper := None);
    var x2 := x1.(window := Concluding(Some(request), false));
    var x3 := x1.(window := Settling(AFTER, false));
    assert Next(WRITTEN, HelperExits) == x1;
    assert Next(x1, Hear(true)) == x2;
    assert Next(x2, Reread(AFTER)) == x3;
    assert Next(x3, Settle) == APPLIED;
    RunOfFour(WRITTEN, FINISHING);
    hide Run;
    RunAppends(Start(SETTINGS), WRITING, FINISHING);
  }

  lemma RunOfFour(x: System, steps: seq<Step>)
    requires |steps| == 4
    ensures Run(x, steps) == Next(Next(Next(Next(x, steps[0]), steps[1]), steps[2]), steps[3])
  {
    hide Next;
    var y, z := Next(x, steps[0]), Next(Next(x, steps[0]), steps[1]);
    assert steps[1..][1..] == steps[2..] && steps[2..][1..] == steps[3..] && steps[3..][1..] == [];
    assert Run(x, steps) == Run(y, steps[1..]);
    assert Run(y, steps[1..]) == Run(z, steps[2..]);
    assert Run(z, steps[2..]) == Run(Next(z, steps[2]), steps[3..]);
    assert Run(Next(z, steps[2]), steps[3..]) == Run(Next(Next(z, steps[2]), steps[3]), []);
  }

  lemma IsRevertible(h: Helper)
    requires h.changes == [PREFERRED]
    ensures WouldRevert(h, AUTOMATIC, map[1 := INSTALLED])
  {
    assert [PREFERRED][0].id == 1;
    assert ChangeOf([PREFERRED], 1) == PREFERRED;
  }

  lemma LandsBack(x: System, h: Helper)
    requires x.at == WRITTEN.at && x.helper == Some(h) && h.inFlight == Some(AUTOMATIC)
    ensures Next(x, HelperLands(true, true, 25)) == x.(at := UNDONE.at, helper := Some(h.(inFlight := None)))
  {
  }

  function Turned(touched: seq<Metric>, inFlight: Option<Metric>, at: Point): System {
    WRITTEN.(at := at, helper := Some(Helper([PREFERRED], touched, inFlight, true, false)))
  }

  lemma TurnsBack()
    ensures Next(WRITTEN, HelperTurns) == Turned([AUTOMATIC], None, WRITTEN.at)
    ensures Next(Turned([AUTOMATIC], None, WRITTEN.at), HelperReverts) == Turned([], Some(AUTOMATIC), WRITTEN.at)
  {
    IsRevertible(Turned([AUTOMATIC], None, WRITTEN.at).helper.value);
    assert [AUTOMATIC][..0] == [];
    hide WouldRevert;
  }

  lemma Leaves()
    ensures Next(Next(Turned([], None, UNDONE.at), HelperExits), Hear(false)) == UNDONE
  {
    assert Next(Turned([], None, UNDONE.at), HelperExits) == WRITTEN.(at := UNDONE.at, helper := None);
  }

  lemma UndoesOnce()
    ensures Run(WRITTEN, UNDOING) == UNDONE
  {
    TurnsBack();
    LandsBack(Turned([], Some(AUTOMATIC), WRITTEN.at), Turned([], Some(AUTOMATIC), WRITTEN.at).helper.value);
    Leaves();
    hide Next;
    RunOfFive(WRITTEN, UNDOING);
  }

  /** A change that the helper takes back. */
  lemma ChangeIsUndone()
    ensures Run(Start(SETTINGS), WRITING + UNDOING) == UNDONE
  {
    WritesOnce();
    UndoesOnce();
    hide Run;
    RunAppends(Start(SETTINGS), WRITING, UNDOING);
  }

  // ----- what is looked at before anything is done -----

  /** A helper starts only where none is left, takes as original only what an interface
      holds, and a journal is settled only after a read that verifies the request and shows
      the applied, or the original, settings. */
  lemma LooksFirst(x: System, step: Step)
    ensures
      var y := Next(x, step);
      && (step.Launch? && x.helper.Some? ==> y.helper == x.helper && (y.window.Watching? ==> y == x))
      && (x.helper.Some? && y.helper.Some? && |y.helper.value.touched| > |x.helper.value.touched| ==>
            && step.HelperTouches? && !x.helper.value.orphan && step.original.id in x.at.now
            && Fits(step.original, x.at.now[step.original.id])
            && y.helper.value.touched == x.helper.value.touched + [step.original])
      && (y.window.Settling? && !x.window.Settling? ==>
            && step.Reread? && x.window.Concluding? && x.at.disk.Some? && Reflects(step.s, x.at.now)
            && (x.window.asked.Some? ==> VerifyAfter(x.window.asked.value, step.s))
            && (if x.window.restore then Restoration(x.at.disk.value, step.s) == Some(None)
                else Confirmed(x.at.disk.value, step.s).Some?))
  {
    hide Landed, WouldRevert, Prepare, Restoration, Confirmed, VerifyAfter, Reflects, Fits, Unreturned;
  }
}
