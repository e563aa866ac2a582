/** The agent's routing engine: one transaction replaces the whole set of rules. */
module RoutingEngine {
  import opened Common
  import opened PolicySession

  datatype Mode = Automatic | Ethernet | WiFi | Blocking
  datatype Rule = Rule(executable: Option<string>, mode: Mode, luid: nat, ipv4: bool, ipv6: bool, detail: string)

  function Active(rules: seq<Rule>): (r: seq<Rule>)
    ensures forall x :: x in r <==> x in rules && !x.mode.Automatic?
  {
    if rules == [] then []
    else if rules[|rules| - 1].mode.Automatic? then Active(rules[..|rules| - 1])
    else Active(rules[..|rules| - 1]) + [rules[|rules| - 1]]
  }

  lemma {:induction false} ActivePrefix(rules: seq<Rule>, k: nat)
    requires k <= |rules|
    ensures forall r | r in Active(rules[..k]) :: r in Active(rules)
  {
    if k == |rules| {
      assert rules[..k] == rules;
    } else {
      var n := |rules| - 1;
      assert rules[..n][..k] == rules[..k];
      ActivePrefix(rules[..n], k);
    }
  }

  lemma ActiveStep(rules: seq<Rule>, k: nat)
    requires k < |rules|
    ensures Active(rules[..k + 1]) == if rules[k].mode.Automatic? then Active(rules[..k]) else Active(rules[..k]) + [rules[k]]
  {
    assert rules[..k + 1][..k] == rules[..k];
  }

  lemma WantedStep(rules: seq<Rule>, r: Rule)
    ensures Wanted(rules + [r]) == Wanted(rules) + if r.executable.Some? then Policies(r) else []
  {
    assert (rules + [r])[..|rules|] == rules;
  }

  /** What one rule must put into the session, family by family. */
  function Policies(rule: Rule): seq<Policy>
    requires rule.executable.Some?
  {
    var target := if rule.mode.Blocking? then Blocked else Luid(rule.luid);
    (if rule.mode.Blocking? || rule.ipv4 then [Policy(rule.executable.value, 0, target)] else []) +
    (if rule.mode.Blocking? || rule.ipv6 then [Policy(rule.executable.value, 1, target)] else [])
  }

  /** What a rule asks for: both families of its executable blocked, or those it supports
      routed to its adapter. */
  predicate Asks(rule: Rule, p: Policy) {
    && !rule.mode.Automatic? && rule.executable == Some(p.path)
    && (if rule.mode.Blocking? then p.target == Blocked && (p.family == 0 || p.family == 1)
        else p.target == Luid(rule.luid) && ((p.family == 0 && rule.ipv4) || (p.family == 1 && rule.ipv6)))
  }

  /** Each such policy is put into the session once. */
  lemma PoliciesExactly(rule: Rule, p: Policy)
    requires rule.executable.Some? && !rule.mode.Automatic?
    ensures p in Policies(rule) <==> Asks(rule, p)
    ensures forall j, k | 0 <= j < k < |Policies(rule)| :: Policies(rule)[j] != Policies(rule)[k]
  {
  }

  /** A rule without a policy is one that names no executable, or no family. */
  lemma EmptyExactly(rule: Rule)
    ensures Empty(rule) <==> rule.executable.None? || (!rule.mode.Blocking? && !rule.ipv4 && !rule.ipv6)
  {
  }

  lemma {:induction false} WantedExactly(rules: seq<Rule>, p: Policy)
    requires forall r | r in rules :: !r.mode.Automatic?
    ensures p in Wanted(rules) <==> exists r :: r in rules && Asks(r, p)
  {
    if rules != [] {
      var n := |rules| - 1;
      WantedExactly(rules[..n], p);
      if rules[n].executable.Some? { PoliciesExactly(rules[n], p); }
      hide Policies;
      assert rules == rules[..n] + [rules[n]];
      if r :| r in rules && Asks(r, p) { assert r in rules[..n] || r == rules[n]; }
    }
  }

  ghost predicate Held(policies: map<Key, Policy>, p: Policy) {
    exists k :: k in policies && policies[k] == p
  }

  ghost predicate Asked(rules: seq<Rule>, p: Policy) {
    exists r :: r in rules && Asks(r, p)
  }

  /** So what the session holds is exactly what some rule applied last asks for. */
  lemma {:induction false} HeldIsAsked(rules: seq<Rule>, keys: seq<Key>, policies: map<Key, Policy>, p: Policy)
    requires Holds(keys, Wanted(Active(rules)), policies)
    ensures Held(policies, p) <==> Asked(rules, p)
  {
    CommittedIffWanted(keys, Wanted(Active(rules)), policies, p);
    WantedExactly(Active(rules), p);
    hide Holds, Wanted;
    if r :| r in rules && Asks(r, p) { assert r in Active(rules); }
  }

  /** A rule that names no executable or no family. */
  predicate Empty(rule: Rule) {
    rule.executable.None? || Policies(rule) == []
  }

  predicate Full(rules: seq<Rule>) {
    forall r | r in rules :: !Empty(r)
  }

  lemma FullGrows(rules: seq<Rule>, r: Rule)
    requires Full(rules) && !Empty(r)
    ensures Full(rules + [r])
  {
  }

  function Wanted(rules: seq<Rule>): seq<Policy> {
    if rules == [] then []
    else
      var last := rules[|rules| - 1];
      Wanted(rules[..|rules| - 1]) + if last.executable.Some? then Policies(last) else []
  }

  /** The session holds, under the tracked keys and no others, exactly what is wanted. */
  ghost predicate Holds(keys: seq<Key>, wanted: seq<Policy>, policies: map<Key, Policy>) {
    && |keys| == |wanted|
    && (forall j, k | 0 <= j < k < |keys| :: keys[j] != keys[k])
    && (forall k | 0 <= k < |keys| :: keys[k] in policies && policies[keys[k]] == wanted[k])
    && (forall k | k in policies :: k in keys)
  }

  /** A cached rule set is never one whose policies are absent. */
  lemma {:induction false} CommittedIffWanted(keys: seq<Key>, wanted: seq<Policy>, policies: map<Key, Policy>, p: Policy)
    requires Holds(keys, wanted, policies)
    ensures (exists k :: k in policies && policies[k] == p) <==> p in wanted
  {
    if k :| k in policies && policies[k] == p {
      var n :| 0 <= n < |keys| && keys[n] == k;
      assert wanted[n] == p;
    }
    if p in wanted {
      var n :| 0 <= n < |wanted| && wanted[n] == p;
      assert keys[n] in policies;
    }
  }

  class Engine {
    const session: Session
    var previous: seq<Rule>
    var keys: seq<Key>
    var poisoned: bool

    /** A poisoned engine tracks nothing; any other holds exactly the rules applied last. */
    ghost predicate Valid()
      reads this, session
    {
      if poisoned then previous == [] && keys == []
      else
        && session.Idle() && Holds(keys, Wanted(Active(previous)), session.committed)
        && Full(Active(previous))
    }

    constructor ()
      ensures Valid() && !poisoned && previous == [] && fresh(session)
    {
      session := new Session();
      previous, keys, poisoned := [], [], false;
    }

    /** A failure has a failed call of the session behind it, or a rule that has no policy. */
    ghost predicate Tried(ok: bool, was: nat, rules: seq<Rule>)
      reads session
    {
      session.failures >= was && (!ok ==> session.failures > was || exists r :: r in Active(rules) && Empty(r))
    }

    method DeleteAll() returns (ok: bool)
      requires session.open && !session.closed && forall k | k in session.pending :: k in keys
      modifies session`pending, session`failures
      ensures ok ==> session.pending == map[]
      ensures Tried(ok, old(session.failures), [])
    {
      ok := true;
      var k := 0;
      while k < |keys| && ok
        invariant 0 <= k <= |keys|
        invariant ok ==> forall j | j in session.pending :: j in keys[k..]
        invariant Tried(ok, old(session.failures), [])
      {
        ok := session.Delete(keys[k]);
        k := k + 1;
      }
      assert ok ==> session.pending.Keys == {};
    }

    ghost predicate Adding(added: seq<Key>, wanted: seq<Policy>)
      reads session
    {
      session.open && !session.closed && Holds(added, wanted, session.pending)
    }

    method AddPolicy(policy: Policy, added: seq<Key>, ghost wanted: seq<Policy>) returns (ok: bool, added': seq<Key>)
      requires Adding(added, wanted)
      modifies session`pending, session`failures
      ensures ok ==> Adding(added', wanted + [policy])
      ensures Tried(ok, old(session.failures), [])
    {
      ghost var before := session.pending;
      var key;
      ok, key := session.Add(policy);
      added' := added + [key];
      if ok {
        assert forall k | 0 <= k < |added| :: added'[k] == added[k] && added[k] in before && added[k] != key;
        forall k | k in session.pending ensures k in added' {
          if k != key {
            assert k in before && k in added;
          } else {
            assert added'[|added|] == key;
          }
        }
      }
    }

    /** `PolicySession::add`: one policy per family; a rule with none is refused. */
    method AddRule(rule: Rule, added: seq<Key>, ghost wanted: seq<Policy>) returns (ok: bool, added': seq<Key>)
      requires Adding(added, wanted)
      modifies session`pending, session`failures
      ensures session.failures >= old(session.failures) && (!ok ==> session.failures > old(session.failures) || Empty(rule))
      ensures ok ==> rule.executable.Some? && !Empty(rule) && Adding(added', wanted + Policies(rule))
    {
      added' := added;
      if rule.executable.None? { return false, added; }
      var policies := Policies(rule);
      ok := true;
      var k := 0;
      while k < |policies| && ok
        invariant 0 <= k <= |policies|
        invariant ok ==> Adding(added', wanted + policies[..k])
        invariant Tried(ok, old(session.failures), [])
      {
        assert wanted + policies[..k] + [policies[k]] == wanted + policies[..k + 1];
        ok, added' := AddPolicy(policies[k], added', wanted + policies[..k]);
        k := k + 1;
      }
      assert policies[..|policies|] == policies;
      ok := ok && policies != [];
    }

    method AddAll(rules: seq<Rule>) returns (ok: bool, added: seq<Key>)
      requires session.open && !session.closed && session.pending == map[]
      modifies session`pending, session`failures
      ensures Tried(ok, old(session.failures), rules)
      ensures ok ==> Adding(added, Wanted(Active(rules))) && Full(Active(rules))
    {
      ok, added := true, [];
      var k := 0;
      assert Active(rules[..0]) == [] && Adding(added, Wanted([])) && Full([]);
      hide Holds, Policies, Empty, Full, Active, Wanted, Adding;
      while k < |rules| && ok
        invariant 0 <= k <= |rules|
        invariant ok ==> Adding(added, Wanted(Active(rules[..k])))
        invariant ok ==> Full(Active(rules[..k]))
        invariant Tried(ok, old(session.failures), rules[..k])
      {
        ActiveStep(rules, k);
        if !rules[k].mode.Automatic? {
          ghost var done := Active(rules[..k]);
          WantedStep(done, rules[k]);
          ok, added := AddRule(rules[k], added, Wanted(done));
          if ok { FullGrows(done, rules[k]); }
          assert rules[k] in Active(rules[..k + 1]);
        }
        k := k + 1;
      }
      ActivePrefix(rules, k);
      assert rules[..|rules|] == rules;
    }

    /** A rejected application that was rolled back keeps the rules applied before; only a
        failed rollback ends the session. */
    method Apply(rules: seq<Rule>) returns (ok: bool)
      requires Valid()
      modifies this, session
      ensures Valid()
      ensures ok ==> !poisoned && previous == rules
      ensures ok ==> forall p :: Held(session.committed, p) <==> Asked(rules, p)
      ensures !ok ==> old(poisoned) || Tried(false, old(session.failures), rules)
      ensures !old(poisoned) && rules == old(previous) ==> ok && keys == old(keys) && session.committed == old(session.committed)
      ensures !ok && !poisoned ==> previous == old(previous) && keys == old(keys) && session.committed == old(session.committed)
      ensures old(poisoned) ==> !ok && poisoned
    {
      if poisoned { return false; }
      if rules == previous {
        forall p ensures Held(session.committed, p) <==> Asked(rules, p) { HeldIsAsked(rules, keys, session.committed, p); }
        return true;
      }
      ok := session.Begin();
      if !ok { return; }
      ok := DeleteAll();
      var added := [];
      if ok { ok, added := AddAll(rules); }
      if ok { ok := session.Commit(); }
      if ok {
        previous, keys := rules, added;
        forall p ensures Held(session.committed, p) <==> Asked(rules, p) { HeldIsAsked(rules, keys, session.committed, p); }
      } else {
        var aborted := session.Abort();
        if !aborted {
          poisoned := true;
          var _ := session.Close();
          keys, previous := [], [];
        }
      }
    }

    method Close() returns (ok: bool)
      requires Valid()
      modifies this, session
      ensures Valid() && poisoned && (ok ==> session.committed == map[])
      ensures session.closed && (!ok ==> session.failures > old(session.failures))
    {
      poisoned, previous, keys := true, [], [];
      ok := session.Close();
    }
  }
}
