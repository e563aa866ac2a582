/** The service's routing engine: one entry per application, kept in step with the filtering
    session whatever call fails. Application names are compared without case. */
module WfpEngine {
  import opened Common
  import opened PolicySession

  datatype Mode = Automatic | Ethernet | WiFi | Blocking

  datatype Application = Application(name: string, path: string, usable: bool)
  datatype Rule = Rule(enabled: bool, mode: Mode)
  datatype Interface = Interface(luid: nat, mode: Mode, ipv4: bool, ipv6: bool)

  /** What the machine answers during one call; `None` stands for an exception. */
  datatype Machine = Machine(ready: Option<bool>, interface: Option<Interface>)

  datatype Signature = Signature(path: string, mode: Mode, luid: nat, ipv4: bool, ipv6: bool)
  datatype Entry = Entry(signature: Signature, routeKeys: seq<Key>, blockIds: seq<Key>)

  datatype Answer = Applied | Removed | Threw

  function Fold(name: string): string {
    seq(|name|, k requires 0 <= k < |name| => if 'a' <= name[k] <= 'z' then name[k] - 32 as char else name[k])
  }

  lemma FoldTwice(name: string)
    ensures Fold(Fold(name)) == Fold(name)
  {
  }

  predicate IsLower(c: char) { 'a' <= c <= 'z' }

  /** Equal, or the same letter in the other case. */
  predicate SameLetter(a: char, b: char) {
    || a == b
    || (IsLower(a) && a as int - 32 == b as int)
    || (IsLower(b) && b as int - 32 == a as int)
  }

  /** Names are taken for the same exactly when they differ in nothing but case. */
  lemma FoldIgnoresCase(a: string, b: string)
    ensures Fold(a) == Fold(b) <==> |a| == |b| && forall k | 0 <= k < |a| :: SameLetter(a[k], b[k])
  {
    if Fold(a) == Fold(b) {
      forall k | 0 <= k < |a| ensures SameLetter(a[k], b[k]) { assert Fold(a)[k] == Fold(b)[k]; }
    }
  }

  predicate Blank(name: string) {
    forall k | 0 <= k < |name| :: name[k] == ' ' || name[k] == '\t'
  }

  function KeysOf(e: Entry): seq<Key> {
    e.routeKeys + e.blockIds
  }

  ghost function KeySet(e: Entry): set<Key> {
    set k | k in KeysOf(e)
  }

  /** The families a signature must be present in: both for a block. */
  function Families(s: Signature): seq<nat> {
    if s.mode.Blocking? then [0, 1]
    else (if s.ipv4 then [0] else []) + (if s.ipv6 then [1] else [])
  }

  function TargetOf(s: Signature): Target {
    if s.mode.Blocking? then Blocked else Luid(s.luid)
  }

  /** Exactly one policy per family, for that executable and that target. */
  ghost predicate Serves(keys: seq<Key>, families: seq<nat>, path: string, target: Target, policies: map<Key, Policy>) {
    && |keys| == |families|
    && forall k | 0 <= k < |keys| ::
         && keys[k] in policies
         && policies[keys[k]] == Policy(path, families[k], target)
  }

  ghost predicate Holds(e: Entry, policies: map<Key, Policy>) {
    && Serves(KeysOf(e), Families(e.signature), e.signature.path, TargetOf(e.signature), policies)
    && Families(e.signature) != []
    && (if e.signature.mode.Blocking? then e.routeKeys == [] else e.blockIds == [])
  }

  ghost predicate Apart(applied: map<string, Entry>) {
    forall a, b | a in applied && b in applied && a != b :: KeySet(applied[a]) !! KeySet(applied[b])
  }

  ghost predicate Owned(applied: map<string, Entry>, k: Key) {
    exists a :: a in applied && k in KeySet(applied[a])
  }

  /** The committed policies are the disjoint union of the entries' policies. */
  ghost predicate Tracks(applied: map<string, Entry>, policies: map<Key, Policy>) {
    && (forall a | a in applied :: Holds(applied[a], policies))
    && Apart(applied)
    && (forall k | k in policies :: Owned(applied, k))
  }

  function SignatureOf(app: Application, rule: Rule, machine: Machine): Signature
    requires rule.mode.Blocking? || machine.interface.Some?
  {
    if rule.mode.Blocking? then Signature(Fold(app.path), rule.mode, 0, true, true)
    else Signature(Fold(app.path), rule.mode, machine.interface.value.luid, machine.interface.value.ipv4, machine.interface.value.ipv6)
  }

  /** What a rule in force comes to in the session. A blocking rule is one block for each of
      the two families; any other is one route for each family that the adapter supports, to
      that adapter. All are for the application's own path. */
  ghost predicate Serving(e: Entry, app: Application, rule: Rule, machine: Machine, policies: map<Key, Policy>) {
    var path := Fold(app.path);
    if rule.mode.Blocking? then
      && e.routeKeys == [] && |e.blockIds| == 2
      && e.blockIds[0] in policies && policies[e.blockIds[0]] == Policy(path, 0, Blocked)
      && e.blockIds[1] in policies && policies[e.blockIds[1]] == Policy(path, 1, Blocked)
    else
      && machine.interface.Some? && e.blockIds == []
      && var i := machine.interface.value;
         && (i.ipv4 && i.ipv6 ==>
               && |e.routeKeys| == 2
               && e.routeKeys[0] in policies && policies[e.routeKeys[0]] == Policy(path, 0, Luid(i.luid))
               && e.routeKeys[1] in policies && policies[e.routeKeys[1]] == Policy(path, 1, Luid(i.luid)))
         && (i.ipv4 != i.ipv6 ==>
               && |e.routeKeys| == 1 && e.routeKeys[0] in policies
               && policies[e.routeKeys[0]] == Policy(path, if i.ipv4 then 0 else 1, Luid(i.luid)))
         && (i.ipv4 || i.ipv6)
  }

  /** An entry with the signature of a rule serves that rule. */
  lemma SignedIsServing(e: Entry, app: Application, rule: Rule, machine: Machine, policies: map<Key, Policy>)
    requires Holds(e, policies) && (rule.mode.Blocking? || machine.interface.Some?)
    requires e.signature == SignatureOf(app, rule, machine)
    ensures Serving(e, app, rule, machine, policies)
  {
    assert e.signature.mode.Blocking? ==> KeysOf(e) == e.blockIds;
    assert !e.signature.mode.Blocking? ==> KeysOf(e) == e.routeKeys;
  }

  /** The session after some policies have been taken out. */
  ghost function Minus(policies: map<Key, Policy>, keys: set<Key>): map<Key, Policy> {
    policies - keys
  }

  lemma HeldKeys(e: Entry, policies: map<Key, Policy>)
    requires Holds(e, policies)
    ensures KeySet(e) <= policies.Keys
  {
    forall k | k in KeySet(e) ensures k in policies {
      var n :| 0 <= n < |KeysOf(e)| && KeysOf(e)[n] == k;
    }
  }

  lemma HoldsElsewhere(e: Entry, p: map<Key, Policy>, q: map<Key, Policy>)
    requires Holds(e, p) && forall k | k in KeySet(e) :: k in q && q[k] == p[k]
    ensures Holds(e, q)
  {
    var keys := KeysOf(e);
    forall n | 0 <= n < |keys| ensures keys[n] in q && q[keys[n]] == p[keys[n]] {
      assert keys[n] in KeySet(e);
    }
  }

  lemma RemovingOneTracks(applied: map<string, Entry>, policies: map<Key, Policy>, a: string)
    requires Tracks(applied, policies) && a in applied
    ensures Tracks(applied - {a}, Minus(policies, KeySet(applied[a])))
  {
    hide Holds, KeySet;
    var rest, left := applied - {a}, Minus(policies, KeySet(applied[a]));
    forall b | b in rest ensures Holds(rest[b], left) {
      HeldKeys(applied[b], policies);
      assert KeySet(applied[a]) !! KeySet(applied[b]);
      HoldsElsewhere(applied[b], policies, left);
    }
    forall k | k in left ensures Owned(rest, k) {
      var b :| b in applied && k in KeySet(applied[b]);
      assert b in rest && rest[b] == applied[b];
    }
  }

  lemma AddingOneTracks(applied: map<string, Entry>, policies: map<Key, Policy>, a: string, e: Entry, all: map<Key, Policy>)
    requires Tracks(applied, policies) && a !in applied && Holds(e, all)
    requires KeySet(e) !! policies.Keys
    requires all.Keys == policies.Keys + KeySet(e)
    requires forall k | k in policies :: all[k] == policies[k]
    ensures Tracks(applied[a := e], all)
  {
    forall b | b in applied ensures Holds(applied[b], all) && KeySet(applied[b]) !! KeySet(e) {
      HeldKeys(applied[b], policies);
      HoldsElsewhere(applied[b], policies, all);
    }
    AddingKeepsOwned(applied, policies, a, e, all);
  }

  lemma AddingKeepsOwned(applied: map<string, Entry>, policies: map<Key, Policy>, a: string, e: Entry, all: map<Key, Policy>)
    requires a !in applied && all.Keys == policies.Keys + KeySet(e) && forall k | k in policies :: Owned(applied, k)
    ensures forall k | k in all :: Owned(applied[a := e], k)
  {
    var more := applied[a := e];
    forall k | k in all ensures Owned(more, k) {
      if k in KeySet(e) {
        assert k in KeySet(more[a]);
      } else {
        var b :| b in applied && k in KeySet(applied[b]);
        assert k in KeySet(more[b]);
      }
    }
  }

  /** Nothing tracked, nothing there. */
  lemma EmptyTracksEmpty(policies: map<Key, Policy>)
    requires Tracks(map[], policies)
    ensures policies == map[]
  {
    if k :| k in policies { assert false; }
  }

  ghost predicate Committed(policies: map<Key, Policy>, p: Policy) {
    exists k :: k in policies && policies[k] == p
  }

  predicate Asks(s: Signature, p: Policy) {
    p.path == s.path && p.family in Families(s) && p.target == TargetOf(s)
  }

  lemma CommittedIsSigned(applied: map<string, Entry>, policies: map<Key, Policy>, p: Policy)
    requires Tracks(applied, policies) && Committed(policies, p)
    ensures exists a :: a in applied && Asks(applied[a].signature, p)
  {
    hide Families, TargetOf;
    var k :| k in policies && policies[k] == p;
    assert Owned(applied, k);
    var a :| a in applied && k in KeySet(applied[a]);
    var e := applied[a];
    assert Holds(e, policies);
    var n :| 0 <= n < |KeysOf(e)| && KeysOf(e)[n] == k;
    assert Families(e.signature)[n] == p.family;
  }

  lemma SignedIsCommitted(e: Entry, policies: map<Key, Policy>, p: Policy)
    requires Holds(e, policies) && Asks(e.signature, p)
    ensures Committed(policies, p)
  {
    var n :| 0 <= n < |Families(e.signature)| && Families(e.signature)[n] == p.family;
    assert policies[KeysOf(e)[n]] == p;
  }

  /** What the session holds, read off the entries: a policy is committed exactly when some
      entry's signature asks for it, so an entry found in the cache is never one whose
      policies are absent. */
  lemma CommittedIffSigned(applied: map<string, Entry>, policies: map<Key, Policy>, p: Policy)
    requires Tracks(applied, policies)
    ensures Committed(policies, p) <==> exists a :: a in applied && Asks(applied[a].signature, p)
  {
    hide Asks, Committed, Holds;
    if Committed(policies, p) { CommittedIsSigned(applied, policies, p); }
    if a :| a in applied && Asks(applied[a].signature, p) { SignedIsCommitted(applied[a], policies, p); }
  }

  class Engine {
    const session: Session
    var applied: map<string, Entry>
    var disposed: bool

    /** After every call, whether it returned or threw: a disposed engine tracks nothing and
        nothing is left; otherwise the session holds exactly what the engine tracks. */
    ghost predicate Valid()
      reads this, session
    {
      if disposed then applied == map[] && session.committed == map[]
      else session.Idle() && Tracks(applied, session.committed)
    }

    constructor ()
      ensures Valid() && !disposed && applied == map[] && fresh(session)
    {
      session := new Session();
      applied, disposed := map[], false;
    }

    /** A failure has a failed call of the session behind it. */
    ghost predicate Tried(ok: bool, was: nat)
      reads session
    {
      session.failures >= was && (!ok ==> session.failures > was)
    }

    /** The catch blocks: roll back, or end the session when even that fails. */
    method GiveUp()
      requires !disposed && session.open && !session.closed && Tracks(applied, session.before)
      modifies this, session
      ensures Valid() && session.failures >= old(session.failures)
      ensures !disposed ==> applied == old(applied) && session.committed == old(session.before)
    {
      var ok := session.Abort();
      if !ok {
        session.Dispose();
        disposed := true;
        applied := map[];
      }
    }

    method Delete(e: Entry) returns (ok: bool)
      requires session.open && !session.closed
      modifies session`pending, session`failures
      ensures ok ==> session.pending == Minus(old(session.pending), KeySet(e))
      ensures Tried(ok, old(session.failures))
    {
      ok := true;
      var keys := KeysOf(e);
      var k := 0;
      while k < |keys| && ok
        invariant 0 <= k <= |keys|
        invariant ok ==> session.pending == Minus(old(session.pending), set n | n in keys[..k])
        invariant Tried(ok, old(session.failures))
      {
        assert keys[..k + 1] == keys[..k] + [keys[k]];
        ok := session.Delete(keys[k]);
        k := k + 1;
      }
      assert keys[..|keys|] == keys;
    }

    /** `keys` are new, serve the families done so far, and are all that was added. */
    ghost predicate Added(was: map<Key, Policy>, s: Signature, families: seq<nat>, keys: seq<Key>)
      reads session
    {
      && session.open && !session.closed
      && Serves(keys, families, s.path, TargetOf(s), session.pending)
      && (forall k | k in keys :: k !in was && k !in session.committed)
      && session.pending.Keys == was.Keys + (set k | k in keys)
      && (forall k | k in was :: session.pending[k] == was[k])
    }

    method AddFamily(s: Signature, ipVersion: nat, ghost was: map<Key, Policy>, ghost families: seq<nat>, keys: seq<Key>)
      returns (ok: bool, key: Key)
      requires Added(was, s, families, keys)
      modifies session`pending, session`failures
      ensures ok ==> Added(was, s, families + [ipVersion], keys + [key])
      ensures Tried(ok, old(session.failures))
    {
      ghost var before := session.pending;
      ok, key := session.Add(Policy(s.path, ipVersion, TargetOf(s)));
      if ok {
        ghost var all := keys + [key];
        assert forall k | 0 <= k < |keys| :: all[k] == keys[k] && keys[k] in before && keys[k] != key;
        assert (set k | k in all) == (set k | k in keys) + {key};
      }
    }

    /** The two rounds of the loop that fills the key lists. */
    method AddFamilies(path: string, s: Signature) returns (ok: bool, routeKeys: seq<Key>, blockIds: seq<Key>)
      requires session.open && !session.closed && Fold(path) == s.path
      modifies session`pending, session`failures
      ensures Tried(ok, old(session.failures))
      ensures ok ==> (if s.mode.Blocking? then routeKeys == [] else blockIds == [])
      ensures ok ==> Added(old(session.pending), s, Families(s), routeKeys + blockIds)
    {
      ok, routeKeys, blockIds := true, [], [];
      ghost var was := session.pending;
      ghost var done: seq<nat> := [];
      var ipVersion := 0;
      while ipVersion <= 1 && ok
        invariant 0 <= ipVersion <= 2
        invariant if s.mode.Blocking? then routeKeys == [] else blockIds == []
        invariant done == (if ipVersion == 0 then [] else if ipVersion == 2 then Families(s)
                           else if s.mode.Blocking? || s.ipv4 then [0] else [])
        invariant ok ==> Added(was, s, done, routeKeys + blockIds)
        invariant Tried(ok, old(session.failures))
      {
        if s.mode.Blocking? {
          var key;
          ok, key := AddFamily(s, ipVersion, was, done, routeKeys + blockIds);
          assert routeKeys + blockIds + [key] == routeKeys + (blockIds + [key]);
          blockIds, done := blockIds + [key], done + [ipVersion];
        } else if if ipVersion == 0 then s.ipv4 else s.ipv6 {
          var key;
          ok, key := AddFamily(s, ipVersion, was, done, routeKeys + blockIds);
          assert routeKeys + blockIds + [key] == routeKeys + [key] + blockIds;
          routeKeys, done := routeKeys + [key], done + [ipVersion];
        }
        ipVersion := ipVersion + 1;
      }
    }

    method RemoveRule(name: string) returns (ok: bool)
      requires Valid()
      modifies this, session
      ensures Valid()
      ensures ok ==> !disposed && applied == old(applied) - {Fold(name)}
      ensures session.failures >= old(session.failures)
      ensures !ok ==> old(disposed) || (Fold(name) in old(applied) && session.failures > old(session.failures))
      ensures !ok && !disposed ==> applied == old(applied) && session.committed == old(session.committed)
      ensures old(disposed) ==> !ok && disposed
    {
      var id := Fold(name);
      if disposed { return false; }
      if id !in applied { return true; }
      ok := session.Begin();
      if !ok { return; }
      ok := Delete(applied[id]);
      if ok { ok := session.Commit(); }
      if !ok { GiveUp(); return; }
      RemovingOneTracks(applied, old(session.committed), id);
      applied := applied - {id};
    }

    method RemoveAllRules() returns (ok: bool)
      requires Valid()
      modifies this, session
      ensures Valid()
      ensures ok ==> applied == map[] && session.committed == map[]
      ensures session.failures >= old(session.failures)
      ensures !ok ==> old(applied) != map[] && session.failures > old(session.failures)
      ensures !ok && !disposed ==> applied == old(applied) && session.committed == old(session.committed)
      ensures old(disposed) ==> ok && disposed
    {
      if disposed { return true; }
      if |applied| == 0 {
        assert applied == map[];
        EmptyTracksEmpty(session.committed);
        return true;
      }
      ok := session.Begin();
      if !ok { return; }
      var rest := applied;
      while rest.Keys != {} && ok
        invariant rest.Keys <= applied.Keys && forall a | a in rest :: rest[a] == applied[a]
        invariant session.open && !session.closed && session.before == old(session.committed)
        invariant !disposed && applied == old(applied)
        invariant ok ==> Tracks(rest, session.pending)
        invariant Tried(ok, old(session.failures))
        decreases rest.Keys, ok
      {
        var a :| a in rest;
        RemoveTracked(rest, a, session.pending, ok);
        ok := Delete(rest[a]);
        rest := rest - {a};
      }
      if ok { ok := session.Commit(); }
      if !ok { GiveUp(); return; }
      assert rest == map[];
      EmptyTracksEmpty(session.committed);
      applied := map[];
    }

    ghost method RemoveTracked(rest: map<string, Entry>, a: string, pending: map<Key, Policy>, ok: bool)
      requires a in rest && (ok ==> Tracks(rest, pending))
      ensures ok ==> Tracks(rest - {a}, Minus(pending, KeySet(rest[a])))
    {
      if ok { RemovingOneTracks(rest, pending, a); }
    }

    method ApplyRule(app: Application, rule: Rule, machine: Machine) returns (answer: Answer)
      requires Valid()
      modifies this, session
      ensures Valid()
      ensures answer.Applied? ==>
                && !disposed && rule.enabled && !rule.mode.Automatic?
                && (rule.mode.Blocking? || machine.interface.Some?)
                && Fold(app.name) in applied
                && applied[Fold(app.name)].signature == SignatureOf(app, rule, machine)
                && applied - {Fold(app.name)} == old(applied) - {Fold(app.name)}
      ensures answer.Applied? ==> Serving(applied[Fold(app.name)], app, rule, machine, session.committed)
      ensures answer.Applied? ==> Routable(rule, machine) && !Refused(app, rule, machine)
      ensures answer.Removed? ==> !disposed && applied == old(applied) - {Fold(app.name)}
      ensures answer.Removed? ==> !Refused(app, rule, machine)
      ensures answer.Removed? ==> !rule.enabled || rule.mode.Automatic? || (!rule.mode.Blocking? && machine.ready == Some(false))
      ensures answer.Threw? && !disposed ==> applied == old(applied) && session.committed == old(session.committed)
      ensures old(disposed) ==> answer.Threw? && disposed
      ensures session.failures >= old(session.failures)
      ensures answer.Threw? ==> old(disposed) || Refused(app, rule, machine) || session.failures > old(session.failures)
      ensures !old(disposed) && !Refused(app, rule, machine) && Routable(rule, machine) && Fold(app.name) in old(applied)
              && old(applied)[Fold(app.name)].signature == SignatureOf(app, rule, machine)
              ==> answer.Applied? && applied == old(applied) && session.committed == old(session.committed)
      ensures !old(disposed) && (!rule.enabled || rule.mode.Automatic?) ==> !answer.Applied?
    {
      if disposed || Blank(app.name) { return Threw; }
      if !rule.enabled || rule.mode.Automatic? {
        var ok := RemoveRule(app.name);
        return if ok then Removed else Threw;
      }
      if !app.usable { return Threw; }
      if !rule.mode.Blocking? {
        if machine.ready.None? { return Threw; }
        if !machine.ready.value {
          var ok := RemoveRule(app.name);
          return if ok then Removed else Threw;
        }
        if machine.interface.None? || machine.interface.value.mode != rule.mode { return Threw; }
        if !machine.interface.value.ipv4 && !machine.interface.value.ipv6 { return Threw; }
      }
      var ok := Install(Fold(app.name), app.path, SignatureOf(app, rule, machine));
      answer := if ok then Applied else Threw;
      if ok { SignedIsServing(applied[Fold(app.name)], app, rule, machine, session.committed); }
    }

    /** What the call refuses before it touches the session. */
    static predicate Refused(app: Application, rule: Rule, machine: Machine) {
      || Blank(app.name)
      || (rule.enabled && !rule.mode.Automatic?
          && (!app.usable || (!rule.mode.Blocking? && (machine.ready.None? || (machine.ready.value && BadTarget(rule, machine))))))
    }

    static predicate BadTarget(rule: Rule, machine: Machine) {
      || machine.interface.None? || machine.interface.value.mode != rule.mode
      || (!machine.interface.value.ipv4 && !machine.interface.value.ipv6)
    }

    static predicate Routable(rule: Rule, machine: Machine) {
      && rule.enabled && !rule.mode.Automatic?
      && (rule.mode.Blocking? || (machine.ready == Some(true) && machine.interface.Some?))
    }

    /** The signature check and the transaction of `ApplyRule`. */
    method Install(id: string, path: string, signature: Signature) returns (ok: bool)
      requires Valid() && !disposed && Fold(path) == signature.path && Families(signature) != []
      modifies this, session
      ensures Valid()
      ensures ok ==> !disposed && id in applied && applied[id].signature == signature && applied - {id} == old(applied) - {id}
      ensures Tried(ok, old(session.failures))
      ensures id in old(applied) && old(applied)[id].signature == signature ==>
                ok && applied == old(applied) && session.committed == old(session.committed)
      ensures !ok && !disposed ==> applied == old(applied) && session.committed == old(session.committed)
    {
      hide Tracks;
      if id in applied && applied[id].signature == signature { return true; }
      ok := session.Begin();
      if !ok { return; }
      if id in applied { ok := Delete(applied[id]); }
      ghost var left := session.pending;
      if ok { LeftTracks(applied, session.before, id, left); }
      var routeKeys, blockIds := [], [];
      if ok { ok, routeKeys, blockIds := AddFamilies(path, signature); }
      var entry := Entry(signature, routeKeys, blockIds);
      if ok { AddingOneTracks(applied - {id}, left, id, entry, session.pending); }
      if ok { ok := session.Commit(); }
      if !ok { GiveUp(); return; }
      assert (applied - {id})[id := entry] == applied[id := entry];
      applied := applied[id := entry];
    }

    static lemma LeftTracks(applied: map<string, Entry>, before: map<Key, Policy>, id: string, left: map<Key, Policy>)
      requires Tracks(applied, before)
      requires left == if id in applied then Minus(before, KeySet(applied[id])) else before
      ensures Tracks(applied - {id}, left)
    {
      if id in applied { RemovingOneTracks(applied, before, id); } else { assert applied - {id} == applied; }
    }

    method Dispose()
      requires Valid()
      modifies this, session
      ensures Valid() && disposed && session.failures == old(session.failures)
    {
      if disposed { return; }
      session.Dispose();
      applied := map[];
      disposed := true;
    }
  }
}
