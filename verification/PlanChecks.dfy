/** What the checks of the default connection are for: when a plan is accepted, what a
    verified or validated request says of the machine, and when a journal can be used. */
module PlanChecks {
  import opened Common
  import opened DefaultConnection
  import opened WriteAhead
  import opened OrphanedHelper

  // ----- when a plan is accepted -----

  /** Everything is as Windows must report it, and `preferred` has a route. */
  predicate Plannable(s: Snapshot, preferred: Id, managed: seq<Id>) {
    && ValidSnapshot(s)
    && Find(s, preferred).Some? && Find(s, preferred).value.connected && Find(s, preferred).value.defaultRoute.Some?
    && Find(s, preferred).value.defaultRoute.value + 55 <= 4294967295
    && SteadyOnes(s, preferred, managed)
  }

  /** 5 for the chosen adapter, and for the others 55 more than its route: changes that
      concern exactly the interfaces with a default route and those changed before. */
  predicate Prefers(s: Snapshot, preferred: Id, managed: seq<Id>, changes: seq<Metric>) {
    && (forall k | 0 <= k < |changes| ::
          exists i :: i in s.interfaces && (i.id == preferred || i.defaultRoute.Some? || i.id in managed) && changes[k].id == i.id)
    && (forall i | i in s.interfaces && (i.id == preferred || i.defaultRoute.Some? || i.id in managed) :: Names(changes, i.id))
    && Find(s, preferred).Some? && Find(s, preferred).value.defaultRoute.Some?
    && (forall k | 0 <= k < |changes| ::
          changes[k] == Metric(changes[k].id, false,
                               if changes[k].id == preferred then 5 else Find(s, preferred).value.defaultRoute.value + 55))
  }

  predicate Steady(i: Interface) {
    if i.automatic then i.saved.None? || i.saved == Some(0) else i.saved == Some(i.metric)
  }

  predicate AllSteady(interfaces: seq<Interface>) {
    forall k | 0 <= k < |interfaces| :: Matches(MetricOf(interfaces[k]), interfaces[k])
  }

  predicate SteadyOnes(s: Snapshot, preferred: Id, managed: seq<Id>) {
    forall i | i in s.interfaces && (i.id == preferred || i.defaultRoute.Some? || i.id in managed) :: Steady(i)
  }

  lemma SteadyExactly(s: Snapshot, preferred: Id, managed: seq<Id>)
    ensures AllSteady(AffectedOf(s.interfaces, preferred, managed)) <==> SteadyOnes(s, preferred, managed)
  {
    var affected := AffectedOf(s.interfaces, preferred, managed);
    if !SteadyOnes(s, preferred, managed) {
      var i :| i in s.interfaces && (i.id == preferred || i.defaultRoute.Some? || i.id in managed) && !Steady(i);
      assert i in affected;
      var k :| 0 <= k < |affected| && affected[k] == i;
    } else {
      forall k | 0 <= k < |affected| ensures Matches(MetricOf(affected[k]), affected[k]) {
        assert affected[k] in affected;
        assert Steady(affected[k]);
      }
    }
  }

  /** A route of a connection that the plan leaves alone is at least as cheap as the chosen
      adapter's route will be. */
  predicate Outbid(s: Snapshot, preferred: Id, managed: seq<Id>)
    requires Find(s, preferred).Some? && Find(s, preferred).value.defaultRoute.Some?
  {
    exists k :: 0 <= k < |s.routes| && Foreign(s, preferred, managed, s.routes[k].index)
             && s.routes[k].interfaceMetric + s.routes[k].routeMetric <= Find(s, preferred).value.defaultRoute.value + 5
  }

  predicate Foreign(s: Snapshot, preferred: Id, managed: seq<Id>, index: nat) {
    forall i | i in s.interfaces && (i.id == preferred || i.defaultRoute.Some? || i.id in managed) :: i.index != index
  }

  predicate NoneHas(interfaces: seq<Interface>, index: nat) {
    forall j | 0 <= j < |interfaces| :: interfaces[j].index != index
  }

  lemma ForeignExactly(s: Snapshot, preferred: Id, managed: seq<Id>, index: nat)
    ensures Foreign(s, preferred, managed, index) <==> NoneHas(AffectedOf(s.interfaces, preferred, managed), index)
  {
    var affected := AffectedOf(s.interfaces, preferred, managed);
    if !Foreign(s, preferred, managed, index) {
      var i :| i in s.interfaces && (i.id == preferred || i.defaultRoute.Some? || i.id in managed) && i.index == index;
      assert i in affected;
      var j :| 0 <= j < |affected| && affected[j] == i;
      assert AffectedOf(s.interfaces, preferred, managed)[j].index == index;
    } else {
      forall j | 0 <= j < |affected| ensures affected[j].index != index { assert affected[j] in affected; }
    }
  }

  /** A plan is refused exactly when it could not be made, or would not make the chosen
      adapter the default. */
  lemma PlanExactly(s: Snapshot, preferred: Id, managed: seq<Id>)
    ensures Plan(s, preferred, managed).Some? <==> Plannable(s, preferred, managed) && !Outbid(s, preferred, managed)
  {
    SteadyExactly(s, preferred, managed);
    forall index: nat { ForeignExactly(s, preferred, managed, index); }
    hide ValidSnapshot, Foreign, Matches, AffectedOf, SteadyOnes;
  }

  lemma PlanPrefers(s: Snapshot, preferred: Id, managed: seq<Id>)
    requires Plan(s, preferred, managed).Some?
    ensures Prefers(s, preferred, managed, Plan(s, preferred, managed).value)
  {
    var changes := Plan(s, preferred, managed).value;
    var affected := AffectedOf(s.interfaces, preferred, managed);
    forall i | i in s.interfaces && (i.id == preferred || i.defaultRoute.Some? || i.id in managed) ensures Names(changes, i.id) {
      assert i in affected;
      var k :| 0 <= k < |affected| && affected[k] == i;
      assert changes[k].id == i.id;
    }
    forall k | 0 <= k < |changes|
      ensures exists i :: i in s.interfaces && (i.id == preferred || i.defaultRoute.Some? || i.id in managed) && changes[k].id == i.id
    {
      assert affected[k] in affected;
    }
  }

  // ----- what a verified and a validated request say -----

  /** The chosen adapter is connected, and one of its routes is cheaper than every route of
      any other connection. */
  lemma VerifiedIsDefault(r: Request, after: Snapshot)
    requires VerifyAfter(r, after) && r.preferred.Some?
    ensures
      exists i, k ::
        && i in after.interfaces && i.id == r.preferred.value && i.connected
        && 0 <= k < |after.routes| && after.routes[k].index == i.index
        && forall n | 0 <= n < |after.routes| && after.routes[n].index != i.index ::
             after.routes[k].interfaceMetric + after.routes[k].routeMetric < after.routes[n].interfaceMetric + after.routes[n].routeMetric
  {
    hide ValidSnapshot, Matches;
    var i := Find(after, r.preferred.value).value;
    var best := Best(after.routes).value;
    var k :| 0 <= k < |after.routes| && after.routes[k] == best;
    assert i in after.interfaces;
  }

  /** The index and the two metrics of each route. */
  function Rows(routes: seq<Route>): (r: seq<(nat, nat, nat)>)
    ensures |r| == |routes|
    ensures forall k | 0 <= k < |r| :: r[k] == (routes[k].index, routes[k].interfaceMetric, routes[k].routeMetric)
  {
    seq(|routes|, k requires 0 <= k < |routes| => (routes[k].index, routes[k].interfaceMetric, routes[k].routeMetric))
  }

  lemma {:induction false} RowsAreCounted(routes: seq<Route>)
    ensures RouteRows(routes) == multiset(Rows(routes))
  {
    if routes != [] {
      RowsAreCounted(routes[1..]);
      assert Rows(routes) == [Rows(routes)[0]] + Rows(routes[1..]);
    }
  }

  /** A validated request finds every interface it changes, and every route of the machine,
      as they were when it was made. */
  lemma ValidatedIsUnchanged(r: Request, actual: Snapshot, k: nat)
    requires ValidateAgainst(r, actual) && k < |r.changes|
    ensures multiset(Rows(actual.routes)) == multiset(Rows(r.expected.routes))
    ensures
      var a, e := Find(actual, r.changes[k].id), Find(r.expected, r.changes[k].id);
      && a.Some? && e.Some?
      && a.value.index == e.value.index && a.value.kind == e.value.kind && a.value.connected == e.value.connected
      && a.value.defaultRoute == e.value.defaultRoute && a.value.automatic == e.value.automatic
      && (if a.value.automatic then NoSaved(a.value.saved) else a.value.metric == e.value.metric && a.value.saved == Some(e.value.metric))
  {
    RowsAreCounted(actual.routes);
    RowsAreCounted(r.expected.routes);
  }

  /** What it asks for is what the plan for the chosen adapter would be now, so once Windows
      has installed it the verification succeeds. */
  lemma ValidatedVerifies(r: Request, actual: Snapshot)
    requires ValidateAgainst(r, actual) && r.preferred.Some?
    ensures VerifyAfter(r, After(actual, r.changes))
  {
    var managed := Ids(r.changes);
    var plan := Plan(actual, r.preferred.value, managed).value;
    PlannedChangesVerify(actual, r.preferred.value, managed);
    SameAfter(actual, plan, r.changes);
    forall k | 0 <= k < |r.changes|
      ensures
        var original, now := Find(r.expected, r.changes[k].id), Find(After(actual, plan), r.changes[k].id);
        && original.Some? && now.Some? && now.value.index == original.value.index && now.value.kind == original.value.kind
        && Matches(r.changes[k], now.value)
    {
      assert r.changes[k] in multiset(r.changes);
      var n :| 0 <= n < |plan| && plan[n] == r.changes[k];
    }
  }

  lemma SameAfter(s: Snapshot, a: seq<Metric>, b: seq<Metric>)
    requires multiset(a) == multiset(b) && ValidMetrics(b, true)
    ensures After(s, a) == After(s, b)
  {
    forall i: Interface ensures Installed(i, a) == Installed(i, b) { SameInstalled(i, a, b); }
    assert After(s, a).interfaces == After(s, b).interfaces;
    assert After(s, a).routes == After(s, b).routes;
  }

  lemma SameInstalled(i: Interface, a: seq<Metric>, b: seq<Metric>)
    requires multiset(a) == multiset(b) && ValidMetrics(b, true)
    ensures Installed(i, a) == Installed(i, b)
  {
    if k :| 0 <= k < |a| && a[k].id == i.id {
      assert a[k] in multiset(a);
      assert ChangeOf(a, i.id) in multiset(b) && ChangeOf(a, i.id) in b;
    } else {
      forall k | 0 <= k < |b| ensures b[k].id != i.id { assert b[k] in multiset(b); }
    }
  }

  // ----- what is prepared is accepted -----

  /** A request just prepared is valid against the read it was made from: the helper refuses
      only what it finds changed. */
  lemma PreparedIsValid(s: Snapshot, preferred: Id, existing: Option<Journal>)
    requires Prepare(s, preferred, existing).Some?
    ensures ValidateAgainst(Prepare(s, preferred, existing).value.1, s)
  {
    var j := if existing.Some? then existing.value else Journal([], [], []);
    var managed := Ids(j.original);
    var changes := Prepare(s, preferred, existing).value.1.changes;
    PlanPrefers(s, preferred, managed);
    SamePlan(s, preferred, managed, changes);
    PlanIsValid(s, preferred, managed);
    assert Plan(s, preferred, managed) == Some(changes);
    hide Prefers, Prepare, ValidJournal, CheckKnown;
    AsExpected(s, preferred, managed, changes);
  }

  lemma AsExpected(s: Snapshot, preferred: Id, managed: seq<Id>, changes: seq<Metric>)
    requires Plan(s, preferred, managed) == Some(changes) && Plan(s, preferred, Ids(changes)) == Some(changes)
    requires ValidMetrics(changes, true)
    ensures ValidateAgainst(Request(s, changes, Some(preferred)), s)
  {
    forall k | 0 <= k < |changes| ensures Find(s, changes[k].id).Some? && Matches(MetricOf(Find(s, changes[k].id).value), Find(s, changes[k].id).value) {
      PlannedAreSteady(s, preferred, managed, k);
    }
    assert ValidSnapshot(s);
    hide Plan, ValidSnapshot, ValidMetrics, Matches;
  }

  lemma PlanIsValid(s: Snapshot, preferred: Id, managed: seq<Id>)
    requires Plan(s, preferred, managed).Some?
    ensures ValidMetrics(Plan(s, preferred, managed).value, true)
  {
    var changes, affected := Plan(s, preferred, managed).value, AffectedOf(s.interfaces, preferred, managed);
    AffectedOnce(s.interfaces, preferred, managed);
    assert Find(s, preferred).value in affected;
    forall k | 0 <= k < |changes| ensures changes[k].id != 0 { assert affected[k] in s.interfaces; }
  }

  lemma {:induction false} AffectedOnce(interfaces: seq<Interface>, preferred: Id, managed: seq<Id>)
    requires forall a, b | 0 <= a < b < |interfaces| :: interfaces[a].id != interfaces[b].id
    ensures
      var affected := AffectedOf(interfaces, preferred, managed);
      |affected| <= |interfaces| && forall a, b | 0 <= a < b < |affected| :: affected[a].id != affected[b].id
  {
    if interfaces != [] {
      AffectedOnce(interfaces[1..], preferred, managed);
      var rest := AffectedOf(interfaces[1..], preferred, managed);
      forall k | 0 <= k < |rest| ensures rest[k].id != interfaces[0].id {
        assert rest[k] in rest;
        var n :| 0 <= n < |interfaces[1..]| && interfaces[1..][n] == rest[k];
        assert interfaces[n + 1] == rest[k];
      }
    }
  }

  /** Planning again for the interfaces of a plan gives the same plan. */
  lemma SamePlan(s: Snapshot, preferred: Id, managed: seq<Id>, changes: seq<Metric>)
    requires Plan(s, preferred, managed) == Some(changes)
    ensures Plan(s, preferred, Ids(changes)) == Some(changes)
  {
    PlanPrefers(s, preferred, managed);
    assert Unique(s);
    hide Plan, ValidSnapshot, Prefers, Affected;
    forall i | i in s.interfaces ensures Affected(i, preferred, managed) <==> Affected(i, preferred, Ids(changes)) {
      SameAffected(s, preferred, managed, changes, i);
    }
    SameAffectedOf(s.interfaces, preferred, managed, Ids(changes));
    PlanIsOfAffected(s, preferred, managed, Ids(changes));
  }

  lemma PlanIsOfAffected(s: Snapshot, preferred: Id, a: seq<Id>, b: seq<Id>)
    requires AffectedOf(s.interfaces, preferred, a) == AffectedOf(s.interfaces, preferred, b)
    ensures Plan(s, preferred, a) == Plan(s, preferred, b)
  {
    hide ValidSnapshot, Matches;
  }

  lemma SameAffected(s: Snapshot, preferred: Id, managed: seq<Id>, changes: seq<Metric>, i: Interface)
    requires Unique(s) && Prefers(s, preferred, managed, changes) && i in s.interfaces
    ensures Affected(i, preferred, managed) <==> Affected(i, preferred, Ids(changes))
  {
    if Affected(i, preferred, managed) {
      var k :| 0 <= k < |changes| && changes[k].id == i.id;
      assert Ids(changes)[k] == i.id;
    }
    if i.id in Ids(changes) {
      var k :| 0 <= k < |changes| && changes[k].id == i.id;
    }
  }

  lemma {:induction false} SameAffectedOf(interfaces: seq<Interface>, preferred: Id, a: seq<Id>, b: seq<Id>)
    requires forall i | i in interfaces :: Affected(i, preferred, a) <==> Affected(i, preferred, b)
    ensures AffectedOf(interfaces, preferred, a) == AffectedOf(interfaces, preferred, b)
  {
    if interfaces != [] { SameAffectedOf(interfaces[1..], preferred, a, b); }
  }

  /** So is the request of a restoration. */
  lemma RestorationIsValid(j: Journal, s: Snapshot)
    requires Restoration(j, s).Some? && Restoration(j, s).value.Some?
    ensures ValidateAgainst(Restoration(j, s).value.value, s)
  {
    hide ValidSnapshot;
    var changes := Unrestored(j.original, s);
    UnrestoredOnce(j.original, s);
    forall m | m in changes ensures m.id != 0 && (m.automatic || m.metric > 0) && Unmoved(s, m.id) { OneUnmoved(j, s, m); }
    hide Matches, Lists, Find, Unrestored, CheckKnown, ValidJournal;
  }

  predicate Unmoved(s: Snapshot, id: Id) {
    Find(s, id).Some? && Matches(MetricOf(Find(s, id).value), Find(s, id).value)
  }

  lemma OneUnmoved(j: Journal, s: Snapshot, m: Metric)
    requires CheckKnown(j, s) && m in Unrestored(j.original, s)
    ensures m.id != 0 && (m.automatic || m.metric > 0) && Unmoved(s, m.id)
  {
    hide ValidSnapshot;
    var n :| 0 <= n < |j.original| && j.original[n] == m;
  }

  lemma {:induction false} UnrestoredOnce(original: seq<Metric>, s: Snapshot)
    requires Once(original)
    ensures Once(Unrestored(original, s)) && |Unrestored(original, s)| <= |original|
  {
    hide Find, Matches;
    if original != [] {
      var rest := Unrestored(original[1..], s);
      UnrestoredOnce(original[1..], s);
      forall k | 0 <= k < |rest| ensures rest[k].id != original[0].id {
        assert rest[k] in rest;
        var n :| 0 <= n < |original[1..]| && original[1..][n] == rest[k];
        assert original[n + 1] == rest[k];
      }
    }
  }

  // ----- when a journal can be used -----

  lemma {:induction false} UpsertedStay(metrics: seq<Metric>, changes: seq<Metric>, k: nat)
    requires k < |changes| && Once(changes)
    ensures changes[k] in UpsertAll(metrics, changes)
  {
    var last := |changes| - 1;
    if k < last {
      UpsertedStay(metrics, changes[..last], k);
      assert changes[..last][k] == changes[k];
    }
  }

  /** Every interface of a prepared journal is changed by its request. */
  lemma PreparedIsChanged(s: Snapshot, preferred: Id, existing: Option<Journal>, o: Metric)
    requires Prepare(s, preferred, existing).Some? && o in Prepare(s, preferred, existing).value.0.original
    ensures Names(Prepare(s, preferred, existing).value.1.changes, o.id)
  {
    PreparedShape(s, preferred, existing);
    var j := if existing.Some? then existing.value else Journal([], [], []);
    if o in j.original {
      var n :| 0 <= n < |j.original| && j.original[n] == o;
      assert Ids(j.original)[n] == o.id;
      PlanNames(s, preferred, Ids(j.original), Find(s, o.id).value);
    }
  }

  /** The interface is as it was read before, or as it was asked for. */
  predicate Halfway(before: Snapshot, request: Request, s: Snapshot, o: Metric) {
    && Find(s, o.id).Some? && Find(before, o.id).Some?
    && (Matches(MetricOf(Find(before, o.id).value), Find(s, o.id).value)
        || exists k :: 0 <= k < |request.changes| && Matches(request.changes[k], Find(s, o.id).value))
  }

  /** However far the writes came, a machine on which each of them happened whole or not at all
      can be restored from the journal saved before. */
  lemma PreparedStaysKnown(before: Snapshot, preferred: Id, existing: Option<Journal>, s: Snapshot)
    requires Prepare(before, preferred, existing).Some? && ValidSnapshot(s)
    requires
      var (journal, request) := Prepare(before, preferred, existing).value;
      forall o | o in journal.original :: Halfway(before, request, s, o)
    ensures Restoration(Prepare(before, preferred, existing).value.0, s).Some?
  {
    var (journal, request) := Prepare(before, preferred, existing).value;
    forall k | 0 <= k < |journal.original|
      ensures
        var i := Find(s, journal.original[k].id);
        i.Some? && (Lists(journal.applied, i.value) || Lists(journal.previous, i.value))
    {
      assert journal.original[k] in journal.original;
      assert Halfway(before, request, s, journal.original[k]);
      HalfwayIsListed(before, preferred, existing, s, journal.original[k]);
    }
    assert ValidJournal(journal);
    hide ValidJournal, ValidSnapshot, Lists, Prepare;
  }

  lemma HalfwayIsListed(before: Snapshot, preferred: Id, existing: Option<Journal>, s: Snapshot, o: Metric)
    requires Prepare(before, preferred, existing).Some? && o in Prepare(before, preferred, existing).value.0.original
    requires Halfway(before, Prepare(before, preferred, existing).value.1, s, o)
    ensures
      var journal, i := Prepare(before, preferred, existing).value.0, Find(s, o.id).value;
      Lists(journal.applied, i) || Lists(journal.previous, i)
  {
    hide ValidSnapshot;
    var (journal, request) := Prepare(before, preferred, existing).value;
    var i := Find(s, o.id).value;
    var j := if existing.Some? then existing.value else Journal([], [], []);
    var changes := request.changes;
    var current := CurrentOf(changes, before);
    PlanIsValid(before, preferred, Ids(j.original));
    assert Once(changes);
    if Matches(MetricOf(Find(before, o.id).value), i) {
      PreparedIsChanged(before, preferred, existing, o);
      var k :| 0 <= k < |changes| && changes[k].id == o.id;
      CurrentStays(j.applied, changes, before, k);
      hide Prepare, Halfway;
      assert MetricOf(Find(before, o.id).value) in journal.previous;
    } else {
      var k :| 0 <= k < |changes| && Matches(changes[k], i);
      hide Prepare, Halfway;
      UpsertedStay(j.applied, changes, k);
    }
  }

  lemma CurrentStays(metrics: seq<Metric>, changes: seq<Metric>, s: Snapshot, k: nat)
    requires k < |changes| && Once(changes) && forall n | 0 <= n < |changes| :: Find(s, changes[n].id).Some?
    ensures MetricOf(Find(s, changes[k].id).value) in UpsertAll(metrics, CurrentOf(changes, s))
  {
    var current := CurrentOf(changes, s);
    forall n | 0 <= n < |current| ensures current[n].id == changes[n].id {}
    UpsertedStay(metrics, current, k);
  }

  /** When a journal can be used: every interface it is for holds a value recorded for it. */
  lemma RestorableExactly(j: Journal, s: Snapshot, now: map<Id, Setting>)
    requires ValidJournal(j) && ValidSnapshot(s) && Reflects(s, now)
    requires forall k | 0 <= k < |j.original| :: Find(s, j.original[k].id).Some?
    ensures Restoration(j, s).Some?
       <==> forall k | 0 <= k < |j.original| ::
              j.original[k].id in now && (Fits(j.original[k], now[j.original[k].id]) || Recorded(j, j.original[k].id, now[j.original[k].id]))
  {
    hide ValidSnapshot, ValidMetrics;
    forall k | 0 <= k < |j.original|
      ensures
        var o, i := j.original[k], Find(s, j.original[k].id).value;
        && o.id in now
        && (Lists(j.applied, i) || Lists(j.previous, i) || Lists(j.original, i) <==> Fits(o, now[o.id]) || Recorded(j, o.id, now[o.id]))
    {
      KnownExactly(j, s, now, k);
    }
  }

  lemma KnownExactly(j: Journal, s: Snapshot, now: map<Id, Setting>, k: nat)
    requires ValidJournal(j) && Reflects(s, now) && k < |j.original| && Find(s, j.original[k].id).Some?
    ensures
      var o, i := j.original[k], Find(s, j.original[k].id).value;
      && o.id in now
      && (Lists(j.applied, i) || Lists(j.previous, i) || Lists(j.original, i) <==> Fits(o, now[o.id]) || Recorded(j, o.id, now[o.id]))
  {
    var o, i := j.original[k], Find(s, j.original[k].id).value;
    forall m: Metric | m.id == o.id ensures Matches(m, i) <==> Fits(m, now[o.id]) { Machine.FoundFits(m, s, now); }
    assert i.id == o.id && forall m: Metric :: Matches(m, i) ==> m.id == o.id;
    if n :| 0 <= n < |j.original| && Matches(j.original[n], i) { OneOriginal(j, j.original[n], o); }
    hide Reflects, Matches, Fits;
  }

  // ----- a write that reached one store only -----

  /** If the computer stops after a write that reached only one of the two stores, the journal
      still has the setting the interface had before, and yet no restoration is offered: what
      the interface holds was never recorded, and is taken for a change made outside. */
  lemma TornWriteBlocksRestoration(s: Snapshot)
    requires ValidSnapshot(s) && Reflects(s, TORN.now)
    ensures Prepare(BEFORE, 1, None) == Some((JOURNAL, Request(BEFORE, [PREFERRED], Some(1))))
    ensures TORN == Landed(Point(SETTINGS, Some(JOURNAL), map[]), PREFERRED, true, false, 0)
    ensures Good(TORN) && Remembers(TORN.disk, 1, SETTINGS[1])
    ensures Restoration(JOURNAL, s).None?
  {
    FirstPreparation();
    TornIsGood();
    JournalIsValid();
    if Find(s, 1).Some? {
      Machine.FoundFits(AUTOMATIC, s, TORN.now);
      Machine.FoundFits(PREFERRED, s, TORN.now);
    }
    hide ValidSnapshot, Reflects, Matches, Prepare, Good, Remembers, ValidJournal;
    assert JOURNAL.original[0].id == 1;
  }

  lemma TornIsGood()
    ensures TORN == Landed(Point(SETTINGS, Some(JOURNAL), map[]), PREFERRED, true, false, 0)
    ensures Good(TORN) && Remembers(TORN.disk, 1, SETTINGS[1])
  {
    var start := Point(SETTINGS, Some(JOURNAL), map[]);
    assert JOURNAL.original[0] == AUTOMATIC && Fits(AUTOMATIC, SETTINGS[1]);
    assert Remembers(start.disk, 1, SETTINGS[1]);
    JournalIsValid();
    LandingIsGood(start, PREFERRED, true, false, 0);
  }

  const TORN := Point(map[1 := Setting(false, 5, None)], Some(JOURNAL), map[1 := Setting(true, 25, None)])
}
