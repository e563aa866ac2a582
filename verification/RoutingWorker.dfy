/** The service's reconciliation: each cycle applies the accepted policies and takes back the
    ones that are no longer accepted; a failed cycle takes back everything. */
module RoutingWorker {
  import opened PolicySession
  import opened WfpEngine

  /** A policy after the lookups of the cycle: left out, or tried against the engine. */
  datatype Resolved = Skipped | Try(app: Application, rule: Rule, machine: Machine)

  ghost predicate AcceptedBy(policies: seq<Resolved>, n: nat, a: string, e: Entry) {
    && n < |policies| && policies[n].Try?
    && Fold(policies[n].app.name) == a
    && policies[n].rule.enabled && !policies[n].rule.mode.Automatic?
    && (policies[n].rule.mode.Blocking? || policies[n].machine.interface.Some?)
    && e.signature == SignatureOf(policies[n].app, policies[n].rule, policies[n].machine)
  }

  /** The names whose rules the engine applied, given its answer to each. */
  ghost function AppliedNames(policies: seq<Resolved>, answers: seq<Answer>): set<string>
    requires |answers| <= |policies|
  {
    set n | 0 <= n < |answers| && policies[n].Try? && answers[n].Applied? :: Fold(policies[n].app.name)
  }

  lemma OneMoreAnswer(policies: seq<Resolved>, answers: seq<Answer>, answer: Answer)
    requires |answers| < |policies|
    ensures
      AppliedNames(policies, answers + [answer]) ==
      AppliedNames(policies, answers)
      + if policies[|answers|].Try? && answer.Applied? then {Fold(policies[|answers|].app.name)} else {}
  {
    var all := answers + [answer];
    forall a | a in AppliedNames(policies, answers) ensures a in AppliedNames(policies, all) {
      var n :| 0 <= n < |answers| && policies[n].Try? && answers[n].Applied? && Fold(policies[n].app.name) == a;
      assert all[n] == answers[n];
    }
    if policies[|answers|].Try? && answer.Applied? { assert all[|answers|] == answer; }
  }

  ghost predicate Accepted(policies: seq<Resolved>, a: string, e: Entry) {
    exists n :: AcceptedBy(policies, n, a, e)
  }

  /** Everything the engine holds was accepted by this cycle. */
  ghost predicate Current(policies: seq<Resolved>, applied: map<string, Entry>) {
    forall a | a in applied :: Accepted(policies, a, applied[a])
  }

  /** Part way: the engine holds earlier names and names accepted so far. */
  ghost predicate Underway(policies: seq<Resolved>, applied: map<string, Entry>, earlier: set<string>, next: set<string>) {
    && applied.Keys <= earlier + next && Folded(next)
    && (forall a | a in applied && a in next :: Accepted(policies, a, applied[a]))
  }

  lemma AcceptingOne(policies: seq<Resolved>, n: nat, before: map<string, Entry>, after: map<string, Entry>,
                     earlier: set<string>, next: set<string>, name: string)
    requires Underway(policies, before, earlier, next)
    requires name in after && Fold(name) == name && AcceptedBy(policies, n, name, after[name])
    requires after - {name} == before - {name}
    ensures Underway(policies, after, earlier, next + {name})
  {
    forall a | a in after && a != name ensures a in before && after[a] == before[a] {
      assert a in after - {name} && (after - {name})[a] == after[a];
      assert (before - {name})[a] == before[a];
    }
  }

  /** Names as the case-insensitive sets of the service keep them. */
  ghost predicate Folded(names: set<string>) {
    forall a | a in names :: Fold(a) == a
  }

  /** A policy that the engine can apply: nothing is missing, and its adapter is ready. */
  predicate Applicable(r: Resolved) {
    r.Try? && Engine.Routable(r.rule, r.machine) && !Engine.Refused(r.app, r.rule, r.machine)
  }

  /** What an answer says of its policy. While nothing goes wrong (`calm`) it is decided by the
      policy alone: applied if it can be, refused if it must be, and removed otherwise. */
  ghost predicate Answers(r: Resolved, answer: Answer, calm: bool) {
    && (answer.Applied? ==> Applicable(r))
    && (r.Skipped? ==> answer.Removed?)
    && (answer.Removed? && r.Try? ==> !Engine.Routable(r.rule, r.machine))
    && (calm && r.Try? ==>
          && (answer.Applied? <==> Applicable(r))
          && (answer.Threw? <==> Engine.Refused(r.app, r.rule, r.machine)))
  }

  ghost predicate AllAnswer(policies: seq<Resolved>, answers: seq<Answer>, calm: bool) {
    |answers| <= |policies| && forall n | 0 <= n < |answers| :: Answers(policies[n], answers[n], calm)
  }

  /** The last of the first `m` policies that is tried under its name. */
  predicate LastOf(policies: seq<Resolved>, m: int, n: int) {
    && 0 <= n < m <= |policies| && policies[n].Try?
    && forall k | n < k < m :: policies[k].Try? ==> Fold(policies[k].app.name) != Fold(policies[n].app.name)
  }

  /** What the engine holds for the last policy of each name: its own rule if that was
      applied, and no rule if it was removed. */
  ghost predicate LastCounts(policies: seq<Resolved>, answers: seq<Answer>, applied: map<string, Entry>)
    requires |answers| <= |policies|
  {
    forall n | LastOf(policies, |answers|, n) :: Counts(policies[n], answers[n], applied)
  }

  ghost predicate Counts(r: Resolved, answer: Answer, applied: map<string, Entry>)
    requires r.Try?
  {
    var name := Fold(r.app.name);
    && (answer.Removed? ==> name !in applied)
    && (answer.Applied? ==>
          && (r.rule.mode.Blocking? || r.machine.interface.Some?)
          && name in applied && applied[name].signature == SignatureOf(r.app, r.rule, r.machine))
  }

  /** One more answer: only the name it is about is touched. */
  lemma CountsOneMore(
    policies: seq<Resolved>, answers: seq<Answer>, answer: Answer, before: map<string, Entry>, after: map<string, Entry>)
    requires |answers| < |policies| && LastCounts(policies, answers, before)
    requires
      var r := policies[|answers|];
      if r.Try? then Counts(r, answer, after) && after - {Fold(r.app.name)} == before - {Fold(r.app.name)} else after == before
    ensures LastCounts(policies, answers + [answer], after)
  {
    var all, m := answers + [answer], |answers|;
    hide Counts;
    forall n | LastOf(policies, |all|, n) ensures Counts(policies[n], all[n], after) {
      if n < m {
        assert LastOf(policies, m, n);
        CountsElsewhere(policies[n], answers[n], before, after, if policies[m].Try? then {Fold(policies[m].app.name)} else {});
      }
    }
  }

  lemma CountsElsewhere(r: Resolved, answer: Answer, before: map<string, Entry>, after: map<string, Entry>, touched: set<string>)
    requires r.Try? && Fold(r.app.name) !in touched && Counts(r, answer, before) && after - touched == before - touched
    ensures Counts(r, answer, after)
  {
    var name := Fold(r.app.name);
    assert name in after <==> name in after - touched;
    assert name in before <==> name in before - touched;
    if name in after { assert (after - touched)[name] == after[name] && (before - touched)[name] == before[name]; }
  }

  /** The rule of a policy is in force: its name is kept, and the engine serves it. */
  ghost predicate InForce(r: Resolved, active: set<string>, applied: map<string, Entry>, committed: map<Key, Policy>)
    requires r.Try?
  {
    var name := Fold(r.app.name);
    name in active && name in applied && Serving(applied[name], r.app, r.rule, r.machine, committed)
  }

  /** Nothing was added, and the names of `next` have the entries they had. */
  ghost predicate SameOn(next: set<string>, before: map<string, Entry>, after: map<string, Entry>) {
    && after.Keys <= before.Keys
    && forall a | a in next && a in before :: a in after && after[a] == before[a]
  }

  lemma TakingBackCounts(
    policies: seq<Resolved>, answers: seq<Answer>, before: map<string, Entry>, after: map<string, Entry>, next: set<string>)
    requires |answers| <= |policies| && LastCounts(policies, answers, before)
    requires next == AppliedNames(policies, answers) && SameOn(next, before, after)
    ensures LastCounts(policies, answers, after)
  {
    forall n | LastOf(policies, |answers|, n) ensures Counts(policies[n], answers[n], after) {
      if answers[n].Applied? { assert Fold(policies[n].app.name) in next; }
    }
  }

  /** A counted rule is in force in an engine that holds what it tracks. */
  lemma CountedIsInForce(r: Resolved, active: set<string>, applied: map<string, Entry>, committed: map<Key, Policy>)
    requires r.Try? && Counts(r, Applied, applied) && Tracks(applied, committed) && Fold(r.app.name) in active
    ensures InForce(r, active, applied, committed)
  {
    var name := Fold(r.app.name);
    assert Holds(applied[name], committed);
    SignedIsServing(applied[name], r.app, r.rule, r.machine, committed);
  }

  /** Every policy that can be applied, and is the last of its name, is in force. */
  ghost predicate AllInForce(policies: seq<Resolved>, active: set<string>, applied: map<string, Entry>, committed: map<Key, Policy>) {
    forall n | LastOf(policies, |policies|, n) && Applicable(policies[n]) :: InForce(policies[n], active, applied, committed)
  }

  lemma CalmIsInForce(
    policies: seq<Resolved>, answers: seq<Answer>, active: set<string>, applied: map<string, Entry>, committed: map<Key, Policy>)
    requires |answers| == |policies| && AllAnswer(policies, answers, true) && LastCounts(policies, answers, applied)
    requires Tracks(applied, committed) && active == AppliedNames(policies, answers)
    ensures AllInForce(policies, active, applied, committed)
  {
    hide Counts, Tracks, InForce;
    forall n | LastOf(policies, |policies|, n) && Applicable(policies[n]) ensures InForce(policies[n], active, applied, committed) {
      assert Answers(policies[n], answers[n], true) && Counts(policies[n], answers[n], applied);
      assert Fold(policies[n].app.name) in active;
      CountedIsInForce(policies[n], active, applied, committed);
    }
  }

  /** How a cycle ends. `Stopping` is the cancellation of the service; `NotBegun` an exception
      of a lookup; `RemovalFailed` one of the engine while a rule is taken back;
      `PublishFailed` one of `Publish` that is none of the two it catches. */
  datatype Ending = Completed | Stopping | NotBegun | RemovalFailed | PublishFailed

  class Worker {
    const engine: Engine
    var active: set<string>
    /** Cancellations seen, lookups that failed, and states that could not be published. */
    ghost var halts: nat
    ghost var misses: nat
    ghost var unpublished: nat
    /** The cycles carried out, with how each of them ended. */
    ghost var cycles: seq<(seq<Resolved>, Ending)>

    ghost predicate Valid()
      reads `active, engine, engine.session
    {
      engine.Valid() && engine.applied.Keys <= active && Folded(active)
    }

    constructor (engine: Engine)
      requires engine.Valid() && engine.applied == map[]
      ensures Valid() && this.engine == engine && active == {} && cycles == []
    {
      this.engine := engine;
      this.active := {};
      this.halts, this.misses, this.unpublished, this.cycles := 0, 0, 0, [];
    }

    /** `ok` is false for an exception that `Publish` lets through. */
    method Publish() returns (ok: bool)
      modifies `unpublished
      ensures unpublished == if ok then old(unpublished) else old(unpublished) + 1
    {
      ok := *;
      if !ok { unpublished := unpublished + 1; }
    }

    method Cancelled() returns (yes: bool)
      modifies `halts
      ensures halts == if yes then old(halts) + 1 else old(halts)
    {
      yes := *;
      if yes { halts := halts + 1; }
    }

    /** Nothing has gone wrong in the engine since there were `was` failed calls. */
    ghost predicate Calm(was: nat)
      reads engine, engine.session
    {
      !engine.disposed && engine.session.failures == was
    }

    /** The first loop: what is accepted, and what the engine may then hold. It is left early
        only by a cancellation. */
    method Accept(policies: seq<Resolved>) returns (ok: bool, next: set<string>, answers: seq<Answer>)
      requires Valid()
      modifies `halts, engine, engine.session
      ensures engine.Valid() && Underway(policies, engine.applied, active, next)
      ensures engine.session.failures >= old(engine.session.failures) && halts >= old(halts)
      ensures |answers| <= |policies| && next == AppliedNames(policies, answers)
      ensures if ok then |answers| == |policies| else halts > old(halts)
      ensures AllAnswer(policies, answers, Calm(old(engine.session.failures)))
      ensures Calm(old(engine.session.failures)) ==> LastCounts(policies, answers, engine.applied)
    {
      hide Underway, LastCounts, Answers, AppliedNames;
      ok, next, answers := true, {}, [];
      NothingAnswered(policies, engine.applied, active);
      for n := 0 to |policies|
        invariant ok && engine.Valid() && Underway(policies, engine.applied, active, next)
        invariant |answers| == n && next == AppliedNames(policies, answers)
        invariant engine.session.failures >= old(engine.session.failures) && halts >= old(halts)
        invariant AllAnswer(policies, answers, Calm(old(engine.session.failures)))
        invariant Calm(old(engine.session.failures)) ==> LastCounts(policies, answers, engine.applied)
      {
        var cancelled := Cancelled();
        if cancelled { ok := false; return; }
        ghost var before, wasCalm := engine.applied, Calm(old(engine.session.failures));
        var answer := Removed;
        if policies[n].Try? { next, answer := TryOne(policies, n, next); } else { SkippedAnswers(policies[n]); }
        ghost var calm := Calm(old(engine.session.failures));
        OneMoreAnswer(policies, answers, answer);
        AnswersCalmer(policies, answers, wasCalm, calm);
        AnswersOneMore(policies, answers, answer, calm);
        if calm { CountsOneMore(policies, answers, answer, before, engine.applied); }
        answers := answers + [answer];
      }
    }

    static lemma NothingAnswered(policies: seq<Resolved>, applied: map<string, Entry>, active: set<string>)
      requires applied.Keys <= active
      ensures Underway(policies, applied, active, {}) && AppliedNames(policies, []) == {}
      ensures LastCounts(policies, [], applied)
    {
    }

    static lemma SkippedAnswers(r: Resolved)
      requires r.Skipped?
      ensures forall calm: bool :: Answers(r, Removed, calm)
    {
    }

    static lemma AnswersOneMore(policies: seq<Resolved>, answers: seq<Answer>, answer: Answer, calm: bool)
      requires AllAnswer(policies, answers, calm) && |answers| < |policies| && Answers(policies[|answers|], answer, calm)
      ensures AllAnswer(policies, answers + [answer], calm)
    {
    }

    static lemma AnswersCalmer(policies: seq<Resolved>, answers: seq<Answer>, wasCalm: bool, calm: bool)
      requires AllAnswer(policies, answers, wasCalm) && (calm ==> wasCalm)
      ensures AllAnswer(policies, answers, calm)
    {
    }

    method TryOne(policies: seq<Resolved>, n: nat, next: set<string>) returns (next': set<string>, answer: Answer)
      requires n < |policies| && policies[n].Try?
      requires engine.Valid() && Underway(policies, engine.applied, active, next)
      modifies engine, engine.session
      ensures engine.Valid() && Underway(policies, engine.applied, active, next')
      ensures engine.session.failures >= old(engine.session.failures) && (old(engine.disposed) ==> engine.disposed)
      ensures next' == next + if answer.Applied? then {Fold(policies[n].app.name)} else {}
      ensures Answers(policies[n], answer, Calm(old(engine.session.failures)))
      ensures !engine.disposed ==>
                && Counts(policies[n], answer, engine.applied)
                && engine.applied - {Fold(policies[n].app.name)} == old(engine.applied) - {Fold(policies[n].app.name)}
    {
      next' := next;
      ghost var before := engine.applied;
      answer := engine.ApplyRule(policies[n].app, policies[n].rule, policies[n].machine);
      if answer.Applied? {
        var name := Fold(policies[n].app.name);
        next' := next + {name};
        FoldTwice(policies[n].app.name);
        AcceptingOne(policies, n, before, engine.applied, active, next, name);
      }
    }

    /** A rule of an earlier name that is not accepted any more and is still in the engine. */
    ghost predicate Left(next: set<string>)
      reads this, engine
    {
      exists a :: a in active && a !in next && a in engine.applied
    }

    /** The second loop: rules of earlier names that are not accepted any more. It fails only
        at such a name, and only because the engine is disposed or a call failed in here and
        left that rule where it was. */
    method TakeBack(policies: seq<Resolved>, next: set<string>) returns (ok: bool)
      requires engine.Valid() && Underway(policies, engine.applied, active, next) && Folded(active)
      modifies engine, engine.session
      ensures engine.Valid() && engine.session.failures >= old(engine.session.failures) && (old(engine.disposed) ==> engine.disposed)
      ensures ok ==> Underway(policies, engine.applied, {}, next) && SameOn(next, old(engine.applied), engine.applied)
      ensures !ok ==> engine.disposed || (engine.session.failures > old(engine.session.failures) && Left(next))
      ensures !ok ==> exists a :: a in active && a !in next
    {
      ok := true;
      var left := active;
      while left != {}
        invariant engine.Valid() && left <= active && Underway(policies, engine.applied, left, next)
        invariant SameOn(next, old(engine.applied), engine.applied)
        invariant engine.session.failures >= old(engine.session.failures) && ok && (old(engine.disposed) ==> engine.disposed)
      {
        var previous :| previous in left;
        left := left - {previous};
        if previous !in next {
          ok := engine.RemoveRule(previous);
          if !ok { return; }
        }
      }
    }

    /** A cycle. Once every policy was tried and every earlier rule taken back, the engine
        holds only what this cycle accepted and the names kept are exactly those, also when
        only `Publish` failed; and unless a call failed, what can be applied is in force.
        After a `RemovalFailed` the engine is disposed, or a rule that had to be taken back is
        still in it. Every other ending has its cause. */
    method ApplyPolicies(policies: seq<Resolved>) returns (ending: Ending, answers: seq<Answer>)
      requires Valid()
      modifies this, engine, engine.session
      ensures engine.Valid() && engine.session.failures >= old(engine.session.failures)
      ensures ending.Completed? || ending.PublishFailed? ==>
                && Valid() && Current(policies, engine.applied)
                && |answers| == |policies| && active == AppliedNames(policies, answers)
                && AllAnswer(policies, answers, Calm(old(engine.session.failures)))
                && (Calm(old(engine.session.failures)) ==> AllInForce(policies, active, engine.applied, engine.session.committed))
      ensures ending.NotBegun? ==> Valid() && engine.applied == old(engine.applied) && active == old(active)
      ensures ending.Stopping? ==> active == old(active)
      ensures ending.RemovalFailed? ==>
                && active == old(active) && |answers| == |policies|
                && (exists a :: a in active && a !in AppliedNames(policies, answers))
                && (engine.disposed
                    || (engine.session.failures > old(engine.session.failures) && Left(AppliedNames(policies, answers))))
      ensures halts >= old(halts) && misses >= old(misses) && unpublished >= old(unpublished)
      ensures ending.Stopping? ==> halts > old(halts)
      ensures ending.NotBegun? ==> misses > old(misses)
      ensures ending.PublishFailed? ==> unpublished > old(unpublished)
      ensures cycles == old(cycles) + [(policies, ending)]
    {
      ending, answers := Carry(policies);
      cycles := cycles + [(policies, ending)];
    }

    method Carry(policies: seq<Resolved>) returns (ending: Ending, answers: seq<Answer>)
      requires Valid()
      modifies `active, `halts, `misses, `unpublished, engine, engine.session
      ensures engine.Valid() && engine.session.failures >= old(engine.session.failures)
      ensures ending.Completed? || ending.PublishFailed? ==>
                && Valid() && Current(policies, engine.applied)
                && |answers| == |policies| && active == AppliedNames(policies, answers)
                && AllAnswer(policies, answers, Calm(old(engine.session.failures)))
                && (Calm(old(engine.session.failures)) ==> AllInForce(policies, active, engine.applied, engine.session.committed))
      ensures ending.NotBegun? ==> Valid() && engine.applied == old(engine.applied) && active == old(active)
      ensures ending.Stopping? ==> active == old(active)
      ensures ending.RemovalFailed? ==>
                && active == old(active) && |answers| == |policies|
                && (exists a :: a in active && a !in AppliedNames(policies, answers))
                && (engine.disposed
                    || (engine.session.failures > old(engine.session.failures) && Left(AppliedNames(policies, answers))))
      ensures halts >= old(halts) && misses >= old(misses) && unpublished >= old(unpublished)
      ensures ending.Stopping? ==> halts > old(halts)
      ensures ending.NotBegun? ==> misses > old(misses)
      ensures ending.PublishFailed? ==> unpublished > old(unpublished)
    {
      hide AllAnswer, LastCounts, AllInForce, AppliedNames;
      answers := [];
      var cancelled := Cancelled();
      if cancelled { return Stopping, answers; }
      var found := Find();
      if !found { return NotBegun, answers; }
      var ok, next;
      ok, next, answers := Accept(policies);
      if !ok { return Stopping, answers; }
      ghost var applied, wasCalm := engine.applied, Calm(old(engine.session.failures));
      ok := TakeBack(policies, next);
      if !ok { return RemovalFailed, answers; }
      ghost var calm := Calm(old(engine.session.failures));
      AnswersCalmer(policies, answers, wasCalm, calm);
      if calm {
        TakingBackCounts(policies, answers, applied, engine.applied, next);
        CalmIsInForce(policies, answers, next, engine.applied, engine.session.committed);
      }
      active := next;
      ok := Publish();
      ending := if ok then Completed else PublishFailed;
    }

    /** The adapters, the applications and the stored policies, read at the start of a cycle. */
    method Find() returns (ok: bool)
      modifies `misses
      ensures misses == if ok then old(misses) else old(misses) + 1
    {
      ok := *;
      if !ok { misses := misses + 1; }
    }

    /** One turn of the service's loop; `false` ends it: a stop, a removal that fails, or the
        report of the error. A turn that ends with an exception has removed everything, unless
        removing failed. */
    method Cycle(policies: seq<Resolved>) returns (ok: bool, ending: Ending)
      requires Valid()
      modifies this, engine, engine.session
      ensures engine.Valid() && engine.session.failures >= old(engine.session.failures)
      ensures halts >= old(halts) && misses >= old(misses) && unpublished >= old(unpublished)
      ensures ok ==> Valid() && (ending.Completed? ==> Current(policies, engine.applied))
      ensures !ending.Completed? && !ending.Stopping? ==>
                || (engine.applied == map[] && engine.session.committed == map[] && active == {})
                || (!ok && engine.session.failures > old(engine.session.failures))
      ensures ending.Stopping? ==> !ok
      ensures ending.Completed? ==> ok
      ensures !ok ==> Troubled(old(engine.session.failures), old(halts), old(unpublished))
      ensures cycles == old(cycles) + [(policies, ending)]
    {
      var answers;
      ending, answers := ApplyPolicies(policies);
      if ending.Completed? { return true, ending; }
      if ending.Stopping? { return false, ending; }
      ok := engine.RemoveAllRules();
      if !ok { return; }
      active := {};
      ok := Publish();
    }

    /** The service was stopped, or a call or a report failed, since it was so far. */
    ghost predicate Troubled(failures: nat, halts: nat, unpublished: nat)
      reads `halts, `unpublished, engine, engine.session
    {
      this.halts > halts || this.unpublished > unpublished || engine.session.failures > failures
    }

    /** The policies of the cycles carried out from the `from`-th on. */
    ghost predicate Carried(from: int, given: seq<seq<Resolved>>, n: int)
      reads `cycles
    {
      && 0 <= from <= |cycles| && |cycles| - from == n <= |given|
      && forall k | 0 <= k < n :: cycles[from + k].0 == given[k]
    }

    /** The whole service: it carries out its cycles in order until it is stopped or something
        fails, and however it ends, nothing of it is left in the filtering engine. */
    method Execute(given: seq<seq<Resolved>>) returns (ghost turns: nat)
      requires Valid()
      modifies this, engine, engine.session
      ensures engine.disposed && engine.applied == map[] && engine.session.committed == map[] && active == {}
      ensures Carried(|old(cycles)|, given, turns) && old(cycles) <= cycles
      ensures turns < |given| ==> Troubled(old(engine.session.failures), old(halts), old(unpublished))
    {
      hide Current;
      var ok, n := true, 0;
      while n < |given| && ok
        invariant n <= |given| && engine.Valid() && (ok ==> Valid())
        invariant engine.session.failures >= old(engine.session.failures)
        invariant halts >= old(halts) && unpublished >= old(unpublished)
        invariant !ok ==> Troubled(old(engine.session.failures), old(halts), old(unpublished))
        invariant Carried(|old(cycles)|, given, n) && old(cycles) <= cycles
      {
        var ending;
        ok, ending := Cycle(given[n]);
        n := n + 1;
      }
      turns := n;
      var _ := engine.RemoveAllRules();
      engine.Dispose();
      active := {};
      var _ := Publish();
    }
  }
}
