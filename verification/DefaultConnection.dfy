/** Which adapter Windows prefers for IPv4: planning the metrics that make one adapter the
    default, checking what Windows reports, and the recovery journal. No effects here. */
module DefaultConnection {
  import opened Common

  const LIMIT := 64
  const MAX_ROUTES := 256
  const MAX_NAME := 1024
  const U32_MAX := 0xFFFF_FFFF

  /** A nil identifier is 0. */
  type Id = nat
  datatype Kind = Cable | Wifi
  datatype Interface = Interface(
    id: Id, name: string, kind: Kind, index: nat, connected: bool,
    automatic: bool, metric: nat, defaultRoute: Option<nat>, saved: Option<nat>)
  datatype Route = Route(index: nat, name: string, interfaceMetric: nat, routeMetric: nat) {
    function Total(): nat { interfaceMetric + routeMetric }
  }
  datatype Snapshot = Snapshot(interfaces: seq<Interface>, routes: seq<Route>)
  datatype Metric = Metric(id: Id, automatic: bool, metric: nat)

  predicate ValidName(s: string) {
    0 < |s| <= MAX_NAME && forall k | 0 <= k < |s| :: s[k] >= ' ' && s[k] != '\U{007F}'
  }

  predicate Unique(s: Snapshot) {
    forall a, b | 0 <= a < b < |s.interfaces| ::
      s.interfaces[a].id != s.interfaces[b].id && s.interfaces[a].index != s.interfaces[b].index
  }

  /** `m` is the least route metric of the adapter with that index. */
  predicate LeastRoute(routes: seq<Route>, index: nat, m: Option<nat>) {
    match m
    case None => forall k | 0 <= k < |routes| :: routes[k].index != index
    case Some(least) =>
      && (exists k :: 0 <= k < |routes| && routes[k].index == index && routes[k].routeMetric == least)
      && (forall k | 0 <= k < |routes| && routes[k].index == index :: least <= routes[k].routeMetric)
  }

  predicate ValidSnapshot(s: Snapshot) {
    && |s.interfaces| <= LIMIT && |s.routes| <= MAX_ROUTES
    && (forall a | 0 <= a < |s.interfaces| ::
          s.interfaces[a].id != 0 && s.interfaces[a].index != 0 && ValidName(s.interfaces[a].name))
    && Unique(s)
    && (forall k | 0 <= k < |s.routes| :: s.routes[k].index != 0 && ValidName(s.routes[k].name))
    && (forall k, a | 0 <= k < |s.routes| && 0 <= a < |s.interfaces| && s.interfaces[a].index == s.routes[k].index ::
          s.interfaces[a].connected && s.interfaces[a].metric == s.routes[k].interfaceMetric)
    && (forall a | 0 <= a < |s.interfaces| && s.interfaces[a].connected ::
          LeastRoute(s.routes, s.interfaces[a].index, s.interfaces[a].defaultRoute))
  }

  function FindIn(interfaces: seq<Interface>, id: Id): (r: Option<Interface>)
    ensures r.Some? ==> r.value in interfaces && r.value.id == id
    ensures r.None? ==> forall i | i in interfaces :: i.id != id
  {
    if interfaces == [] then None
    else if interfaces[0].id == id then Some(interfaces[0])
    else FindIn(interfaces[1..], id)
  }

  function Find(s: Snapshot, id: Id): (r: Option<Interface>)
    ensures r.Some? ==> r.value in s.interfaces && r.value.id == id
  {
    FindIn(s.interfaces, id)
  }

  lemma FindsIt(s: Snapshot, a: nat)
    requires Unique(s) && a < |s.interfaces|
    ensures Find(s, s.interfaces[a].id) == Some(s.interfaces[a])
  {
    var r := Find(s, s.interfaces[a].id);
    assert s.interfaces[a] in s.interfaces;
    var b :| 0 <= b < |s.interfaces| && s.interfaces[b] == r.value;
    assert a == b;
  }

  function MetricOf(i: Interface): Metric {
    Metric(i.id, i.automatic, i.metric)
  }

  /** The active and the saved setting of `i` are both what `m` asks for. */
  predicate Matches(m: Metric, i: Interface) {
    && m.id == i.id
    && m.automatic == i.automatic
    && (if m.automatic then i.saved.None? || i.saved == Some(0) else m.metric == i.metric && i.saved == Some(m.metric))
  }

  predicate ValidMetrics(metrics: seq<Metric>, nonempty: bool) {
    && |metrics| <= LIMIT
    && (nonempty ==> metrics != [])
    && (forall k | 0 <= k < |metrics| :: metrics[k].id != 0 && (metrics[k].automatic || metrics[k].metric > 0))
    && (forall j, k | 0 <= j < k < |metrics| :: metrics[j].id != metrics[k].id)
  }

  // ----- planning -----

  predicate Affected(i: Interface, preferred: Id, managed: seq<Id>) {
    i.id == preferred || i.defaultRoute.Some? || i.id in managed
  }

  function AffectedOf(interfaces: seq<Interface>, preferred: Id, managed: seq<Id>): (r: seq<Interface>)
    ensures forall i :: i in r <==> i in interfaces && Affected(i, preferred, managed)
  {
    if interfaces == [] then []
    else
      var rest := AffectedOf(interfaces[1..], preferred, managed);
      if Affected(interfaces[0], preferred, managed) then [interfaces[0]] + rest else rest
  }

  function Planned(i: Interface, preferred: Id, total: nat): Metric {
    Metric(i.id, false, if i.id == preferred then 5 else total + 50)
  }

  function Plan(s: Snapshot, preferred: Id, managed: seq<Id>): Option<seq<Metric>> {
    if !ValidSnapshot(s) then None
    else
      var selected := Find(s, preferred);
      if selected.None? || !selected.value.connected || selected.value.defaultRoute.None? then None
      else
        var affected := AffectedOf(s.interfaces, preferred, managed);
        var total := selected.value.defaultRoute.value + 5;
        if !(forall k | 0 <= k < |affected| :: Matches(MetricOf(affected[k]), affected[k])) then None
        else if total + 50 > U32_MAX then None
        else if exists k :: 0 <= k < |s.routes| && s.routes[k].Total() <= total
                       && forall j | 0 <= j < |affected| :: affected[j].index != s.routes[k].index then None
        else Some(seq(|affected|, k requires 0 <= k < |affected| => Planned(affected[k], preferred, total)))
  }

  datatype Request = Request(expected: Snapshot, changes: seq<Metric>, preferred: Option<Id>)

  /** The route with the least total; the first one among equals. */
  function Best(routes: seq<Route>): (r: Option<Route>)
    ensures r.None? <==> routes == []
    ensures r.Some? ==> r.value in routes && forall k | 0 <= k < |routes| :: r.value.Total() <= routes[k].Total()
  {
    if routes == [] then None
    else
      var rest := Best(routes[1..]);
      if rest.None? || routes[0].Total() <= rest.value.Total() then Some(routes[0]) else rest
  }

  predicate IsDefault(s: Snapshot, index: nat) {
    var best := Best(s.routes);
    && best.Some? && best.value.index == index
    && forall k | 0 <= k < |s.routes| && s.routes[k].index != index :: best.value.Total() < s.routes[k].Total()
  }

  predicate VerifyAfter(r: Request, after: Snapshot) {
    && ValidSnapshot(after)
    && (forall k | 0 <= k < |r.changes| ::
          var original, actual := Find(r.expected, r.changes[k].id), Find(after, r.changes[k].id);
          && original.Some? && actual.Some?
          && actual.value.index == original.value.index && actual.value.kind == original.value.kind
          && Matches(r.changes[k], actual.value))
    && (r.preferred.Some? ==>
          var i := Find(after, r.preferred.value);
          i.Some? && i.value.connected && IsDefault(after, i.value.index))
  }

  /** The index, both metrics and nothing else of a route: names may differ. */
  function RouteRows(routes: seq<Route>): multiset<(nat, nat, nat)> {
    if routes == [] then multiset{}
    else multiset{(routes[0].index, routes[0].interfaceMetric, routes[0].routeMetric)} + RouteRows(routes[1..])
  }

  function Ids(metrics: seq<Metric>): (r: seq<Id>)
    ensures |r| == |metrics| && forall k | 0 <= k < |r| :: r[k] == metrics[k].id
  {
    seq(|metrics|, k requires 0 <= k < |metrics| => metrics[k].id)
  }

  predicate ValidateAgainst(r: Request, actual: Snapshot) {
    && ValidSnapshot(actual) && ValidSnapshot(r.expected) && ValidMetrics(r.changes, true)
    && RouteRows(actual.routes) == RouteRows(r.expected.routes)
    && (forall k | 0 <= k < |r.changes| ::
          var a, e := Find(actual, r.changes[k].id), Find(r.expected, r.changes[k].id);
          && a.Some? && e.Some?
          && a.value.index == e.value.index && a.value.kind == e.value.kind
          && a.value.connected == e.value.connected && a.value.defaultRoute == e.value.defaultRoute
          && Matches(MetricOf(e.value), a.value))
    && (r.preferred.Some? ==>
          var expected := Plan(actual, r.preferred.value, Ids(r.changes));
          expected.Some? && multiset(expected.value) == multiset(r.changes))
  }

  // ----- a planned change makes the chosen adapter the default -----

  /** What Windows reports once every change has been written and nothing else moved. */
  function Installed(i: Interface, changes: seq<Metric>): Interface {
    if exists k :: 0 <= k < |changes| && changes[k].id == i.id then
      var m := ChangeOf(changes, i.id);
      i.(automatic := false, metric := m.metric, saved := Some(m.metric))
    else i
  }

  function ChangeOf(changes: seq<Metric>, id: Id): (m: Metric)
    requires exists k :: 0 <= k < |changes| && changes[k].id == id
    ensures m in changes && m.id == id
  {
    if changes[0].id == id then changes[0]
    else
      assert exists k :: 0 <= k < |changes[1..]| && changes[1..][k].id == id by {
        var k :| 0 <= k < |changes| && changes[k].id == id;
        assert changes[1..][k - 1] == changes[k];
      }
      ChangeOf(changes[1..], id)
  }

  function InstalledRoute(r: Route, interfaces: seq<Interface>): Route {
    if exists a :: 0 <= a < |interfaces| && interfaces[a].index == r.index then
      r.(interfaceMetric := IndexMetric(interfaces, r.index))
    else r
  }

  function IndexMetric(interfaces: seq<Interface>, index: nat): (m: nat)
    requires exists a :: 0 <= a < |interfaces| && interfaces[a].index == index
    ensures exists a :: 0 <= a < |interfaces| && interfaces[a].index == index && interfaces[a].metric == m
  {
    if interfaces[0].index == index then interfaces[0].metric
    else
      assert exists a :: 0 <= a < |interfaces[1..]| && interfaces[1..][a].index == index by {
        var a :| 0 <= a < |interfaces| && interfaces[a].index == index;
        assert interfaces[1..][a - 1] == interfaces[a];
      }
      var m := IndexMetric(interfaces[1..], index);
      assert exists a :: 0 <= a < |interfaces| && interfaces[a].index == index && interfaces[a].metric == m by {
        var a :| 0 <= a < |interfaces[1..]| && interfaces[1..][a].index == index && interfaces[1..][a].metric == m;
        assert interfaces[a + 1] == interfaces[1..][a];
      }
      m
  }

  function After(s: Snapshot, changes: seq<Metric>): Snapshot {
    var interfaces := seq(|s.interfaces|, a requires 0 <= a < |s.interfaces| => Installed(s.interfaces[a], changes));
    Snapshot(interfaces, seq(|s.routes|, k requires 0 <= k < |s.routes| => InstalledRoute(s.routes[k], interfaces)))
  }

  lemma PlanCovers(s: Snapshot, preferred: Id, managed: seq<Id>, a: nat)
    requires Plan(s, preferred, managed).Some? && a < |s.interfaces|
    ensures
      var changes := Plan(s, preferred, managed).value;
      var i := s.interfaces[a];
      var total := Find(s, preferred).value.defaultRoute.value + 5;
      Installed(i, changes) ==
        if Affected(i, preferred, managed)
        then i.(automatic := false, metric := if i.id == preferred then 5 else total + 50,
                saved := Some(if i.id == preferred then 5 else total + 50))
        else i
  {
    var changes := Plan(s, preferred, managed).value;
    var i := s.interfaces[a];
    var affected := AffectedOf(s.interfaces, preferred, managed);
    if Affected(i, preferred, managed) {
      assert i in affected;
      var k :| 0 <= k < |affected| && affected[k] == i;
      assert changes[k].id == i.id;
    } else {
      forall k | 0 <= k < |changes| ensures changes[k].id != i.id {
        assert affected[k] in s.interfaces;
      }
    }
  }

  lemma AfterRoute(s: Snapshot, changes: seq<Metric>, k: nat, a: nat)
    requires Unique(s) && k < |s.routes| && a < |s.interfaces| && s.interfaces[a].index == s.routes[k].index
    ensures After(s, changes).routes[k] == s.routes[k].(interfaceMetric := Installed(s.interfaces[a], changes).metric)
  {
    var interfaces := After(s, changes).interfaces;
    assert interfaces[a].index == s.routes[k].index;
    var b :| 0 <= b < |interfaces| && interfaces[b].index == s.routes[k].index
          && interfaces[b].metric == IndexMetric(interfaces, s.routes[k].index);
    assert s.interfaces[a].index == s.interfaces[b].index;
  }

  lemma AfterForeignRoute(s: Snapshot, changes: seq<Metric>, k: nat)
    requires k < |s.routes| && forall a | 0 <= a < |s.interfaces| :: s.interfaces[a].index != s.routes[k].index
    ensures After(s, changes).routes[k] == s.routes[k]
  {
    var interfaces := After(s, changes).interfaces;
    assert forall a | 0 <= a < |interfaces| :: interfaces[a].index == s.interfaces[a].index;
  }

  lemma AfterIsValid(s: Snapshot, changes: seq<Metric>)
    requires ValidSnapshot(s)
    ensures ValidSnapshot(After(s, changes))
  {
    var t := After(s, changes);
    forall k, a | 0 <= k < |t.routes| && 0 <= a < |t.interfaces| && t.interfaces[a].index == t.routes[k].index
      ensures t.interfaces[a].connected && t.interfaces[a].metric == t.routes[k].interfaceMetric
    {
      AfterRoute(s, changes, k, a);
      assert s.interfaces[a].index == s.routes[k].index;
    }
    forall a | 0 <= a < |t.interfaces| && t.interfaces[a].connected
      ensures LeastRoute(t.routes, t.interfaces[a].index, t.interfaces[a].defaultRoute)
    {
      assert LeastRoute(s.routes, s.interfaces[a].index, s.interfaces[a].defaultRoute);
      if s.interfaces[a].defaultRoute.Some? {
        var k :| 0 <= k < |s.routes| && s.routes[k].index == s.interfaces[a].index
              && s.routes[k].routeMetric == s.interfaces[a].defaultRoute.value;
        assert t.routes[k].index == t.interfaces[a].index;
      }
    }
  }

  /** A plan that is accepted does what it is for: once Windows has installed it, the chosen
      adapter is the default and the whole verification succeeds. */
  lemma PlannedChangesVerify(s: Snapshot, preferred: Id, managed: seq<Id>)
    requires Plan(s, preferred, managed).Some?
    ensures
      var changes := Plan(s, preferred, managed).value;
      VerifyAfter(Request(s, changes, Some(preferred)), After(s, changes))
  {
    var changes := Plan(s, preferred, managed).value;
    var t := After(s, changes);
    AfterIsValid(s, changes);
    forall k | 0 <= k < |changes|
      ensures
        var original, actual := Find(s, changes[k].id), Find(t, changes[k].id);
        && original.Some? && actual.Some?
        && actual.value.index == original.value.index && actual.value.kind == original.value.kind
        && Matches(changes[k], actual.value)
    {
      PlannedChangeMatches(s, preferred, managed, k);
    }
    PreferredBecomesDefault(s, preferred, managed);
  }

  lemma PlannedChangeMatches(s: Snapshot, preferred: Id, managed: seq<Id>, k: nat)
    requires Plan(s, preferred, managed).Some? && k < |Plan(s, preferred, managed).value|
    ensures
      var changes := Plan(s, preferred, managed).value;
      var original, actual := Find(s, changes[k].id), Find(After(s, changes), changes[k].id);
      && original.Some? && actual.Some?
      && actual.value.index == original.value.index && actual.value.kind == original.value.kind
      && Matches(changes[k], actual.value)
  {
    var changes := Plan(s, preferred, managed).value;
    var affected := AffectedOf(s.interfaces, preferred, managed);
    assert affected[k] in s.interfaces;
    var a :| 0 <= a < |s.interfaces| && s.interfaces[a] == affected[k];
    FindsIt(s, a);
    AfterIsValid(s, changes);
    FindsIt(After(s, changes), a);
    PlanCovers(s, preferred, managed, a);
    assert After(s, changes).interfaces[a] == Installed(s.interfaces[a], changes);
  }

  /** Every route of another interface costs more than the chosen interface's cheapest. */
  lemma OthersCostMore(s: Snapshot, preferred: Id, managed: seq<Id>, k: nat)
    requires Plan(s, preferred, managed).Some? && k < |s.routes|
    requires s.routes[k].index != Find(s, preferred).value.index
    ensures
      var t := After(s, Plan(s, preferred, managed).value);
      Find(s, preferred).value.defaultRoute.value + 5 < t.routes[k].Total()
  {
    hide Find, IndexMetric;
    var changes := Plan(s, preferred, managed).value;
    if a :| 0 <= a < |s.interfaces| && s.interfaces[a].index == s.routes[k].index {
      AfterRoute(s, changes, k, a);
      PlanCovers(s, preferred, managed, a);
      assert s.interfaces[a].connected;
      assert LeastRoute(s.routes, s.interfaces[a].index, s.interfaces[a].defaultRoute);
      assert Affected(s.interfaces[a], preferred, managed);
    } else {
      AfterForeignRoute(s, changes, k);
      var affected := AffectedOf(s.interfaces, preferred, managed);
      assert forall j | 0 <= j < |affected| :: affected[j] in s.interfaces;
    }
  }

  /** The chosen interface keeps its index, and its cheapest route costs what the plan says. */
  lemma PreferredRoute(s: Snapshot, preferred: Id, managed: seq<Id>) returns (least: nat)
    requires Plan(s, preferred, managed).Some?
    ensures
      var t, selected := After(s, Plan(s, preferred, managed).value), Find(s, preferred).value;
      && Find(t, preferred).Some? && Find(t, preferred).value.connected && Find(t, preferred).value.index == selected.index
      && least < |t.routes| && t.routes[least].index == selected.index
      && t.routes[least].Total() == selected.defaultRoute.value + 5
  {
    var changes := Plan(s, preferred, managed).value;
    var t := After(s, changes);
    var selected := Find(s, preferred).value;
    var p :| 0 <= p < |s.interfaces| && s.interfaces[p] == selected;
    PlanCovers(s, preferred, managed, p);
    AfterIsValid(s, changes);
    FindsIt(t, p);
    assert LeastRoute(s.routes, selected.index, selected.defaultRoute);
    least :| 0 <= least < |s.routes| && s.routes[least].index == selected.index
          && s.routes[least].routeMetric == selected.defaultRoute.value;
    AfterRoute(s, changes, least, p);
  }

  lemma PreferredBecomesDefault(s: Snapshot, preferred: Id, managed: seq<Id>)
    requires Plan(s, preferred, managed).Some?
    ensures
      var t := After(s, Plan(s, preferred, managed).value);
      Find(t, preferred).Some? && Find(t, preferred).value.connected && IsDefault(t, Find(t, preferred).value.index)
  {
    var least := PreferredRoute(s, preferred, managed);
    var t, selected := After(s, Plan(s, preferred, managed).value), Find(s, preferred).value;
    assert forall k | 0 <= k < |t.routes| :: t.routes[k].index == s.routes[k].index;
    hide Plan, Find, InstalledRoute, Installed;
    forall k | 0 <= k < |t.routes| && t.routes[k].index != selected.index
      ensures selected.defaultRoute.value + 5 < t.routes[k].Total()
    {
      OthersCostMore(s, preferred, managed, k);
    }
    var best := Best(t.routes);
    assert best.Some? && best.value.Total() <= t.routes[least].Total();
  }

  // ----- the journal -----

  datatype Journal = Journal(original: seq<Metric>, applied: seq<Metric>, previous: seq<Metric>)

  predicate Names(metrics: seq<Metric>, id: Id) {
    exists k :: 0 <= k < |metrics| && metrics[k].id == id
  }

  predicate ValidJournal(j: Journal) {
    && ValidMetrics(j.original, true) && ValidMetrics(j.applied, false) && ValidMetrics(j.previous, false)
    && (forall k | 0 <= k < |j.applied| :: Names(j.original, j.applied[k].id))
    && (forall k | 0 <= k < |j.previous| :: Names(j.original, j.previous[k].id))
  }

  predicate Lists(metrics: seq<Metric>, i: Interface) {
    exists k :: 0 <= k < |metrics| && Matches(metrics[k], i)
  }

  predicate CheckKnown(j: Journal, s: Snapshot) {
    && ValidJournal(j) && ValidSnapshot(s)
    && (forall k | 0 <= k < |j.original| ::
          var i := Find(s, j.original[k].id);
          i.Some? && (Lists(j.applied, i.value) || Lists(j.previous, i.value) || Lists(j.original, i.value)))
  }

  function Without(metrics: seq<Metric>, id: Id): (r: seq<Metric>)
    ensures forall m :: m in r <==> m in metrics && m.id != id
  {
    if metrics == [] then []
    else if metrics[0].id == id then Without(metrics[1..], id)
    else [metrics[0]] + Without(metrics[1..], id)
  }

  function Upsert(metrics: seq<Metric>, m: Metric): (r: seq<Metric>)
    ensures forall x :: x in r <==> x == m || (x in metrics && x.id != m.id)
  {
    Without(metrics, m.id) + [m]
  }

  /** Originals already recorded are kept; the current metric of each new change is added. */
  function AddOriginals(original: seq<Metric>, changes: seq<Metric>, s: Snapshot): seq<Metric>
    requires forall k | 0 <= k < |changes| :: Find(s, changes[k].id).Some?
  {
    if changes == [] then original
    else
      var last := changes[|changes| - 1];
      var r := AddOriginals(original, changes[..|changes| - 1], s);
      if Names(r, last.id) then r else r + [MetricOf(Find(s, last.id).value)]
  }

  ghost predicate Extends(original: seq<Metric>, r: seq<Metric>, changes: seq<Metric>, s: Snapshot) {
    && original <= r
    && (forall m | m in r && m !in original ::
          !Names(original, m.id) && Find(s, m.id).Some? && m == MetricOf(Find(s, m.id).value) && Names(changes, m.id))
    && (forall k | 0 <= k < |changes| :: Names(r, changes[k].id))
  }

  lemma {:induction false} AddOriginalsShape(original: seq<Metric>, changes: seq<Metric>, s: Snapshot)
    requires forall k | 0 <= k < |changes| :: Find(s, changes[k].id).Some?
    ensures Extends(original, AddOriginals(original, changes, s), changes, s)
  {
    if changes != [] {
      var last := |changes| - 1;
      AddOriginalsShape(original, changes[..last], s);
      var r := AddOriginals(original, changes[..last], s);
      assert changes == changes[..last] + [changes[last]];
      OneMoreChange(original, r, changes[..last], changes[last], s);
      if !Names(r, changes[last].id) {
        OneMoreOriginal(original, r, changes, last, s);
      }
      hide Extends;
    }
  }

  /** Another change to an interface that is already named. */
  lemma OneMoreChange(original: seq<Metric>, r: seq<Metric>, changes: seq<Metric>, c: Metric, s: Snapshot)
    requires Extends(original, r, changes, s)
    ensures Names(r, c.id) ==> Extends(original, r, changes + [c], s)
  {
    hide Find;
    forall m | m in r && m !in original ensures Names(changes + [c], m.id) {
      NamesGrows(changes, [c], m.id);
    }
  }

  /** A change to an interface not named yet: its present metric is recorded. */
  lemma OneMoreOriginal(original: seq<Metric>, r: seq<Metric>, changes: seq<Metric>, last: nat, s: Snapshot)
    requires last + 1 == |changes| && Find(s, changes[last].id).Some?
    requires Extends(original, r, changes[..last], s) && !Names(r, changes[last].id)
    ensures Extends(original, r + [MetricOf(Find(s, changes[last].id).value)], changes, s)
  {
    var id, m := changes[last].id, MetricOf(Find(s, changes[last].id).value);
    hide Find;
    NamesGrows(original, r[|original|..], id);
    assert r == original + r[|original|..];
    assert (r + [m])[|r|].id == id;
    forall k | 0 <= k < last ensures Names(r + [m], changes[k].id) {
      assert changes[..last][k] == changes[k];
      NamesGrows(r, [m], changes[k].id);
    }
    forall x | x in r && x !in original ensures Names(changes, x.id) {
      NamesGrows(changes[..last], [changes[last]], x.id);
      assert changes == changes[..last] + [changes[last]];
    }
  }

  lemma NamesGrows(a: seq<Metric>, b: seq<Metric>, id: Id)
    ensures Names(a, id) ==> Names(a + b, id)
  {
    if k :| 0 <= k < |a| && a[k].id == id { assert (a + b)[k].id == id; }
  }

  function UpsertAll(metrics: seq<Metric>, changes: seq<Metric>): seq<Metric> {
    if changes == [] then metrics
    else Upsert(UpsertAll(metrics, changes[..|changes| - 1]), changes[|changes| - 1])
  }

  function CurrentOf(changes: seq<Metric>, s: Snapshot): (r: seq<Metric>)
    requires forall k | 0 <= k < |changes| :: Find(s, changes[k].id).Some?
    ensures |r| == |changes| && forall k | 0 <= k < |r| :: r[k] == MetricOf(Find(s, changes[k].id).value)
  {
    seq(|changes|, k requires 0 <= k < |changes| => MetricOf(Find(s, changes[k].id).value))
  }

  function Prepare(s: Snapshot, preferred: Id, existing: Option<Journal>): Option<(Journal, Request)> {
    if existing.Some? && !CheckKnown(existing.value, s) then None
    else
      var j := if existing.Some? then existing.value else Journal([], [], []);
      var plan := Plan(s, preferred, Ids(j.original));
      if plan.None? || exists k :: 0 <= k < |plan.value| && Find(s, plan.value[k].id).None? then None
      else
        var changes := plan.value;
        var prepared := Journal(AddOriginals(j.original, changes, s), UpsertAll(j.applied, changes),
                                UpsertAll(j.applied, CurrentOf(changes, s)));
        if !ValidJournal(prepared) then None else Some((prepared, Request(s, changes, Some(preferred))))
  }

  function Unrestored(original: seq<Metric>, s: Snapshot): (r: seq<Metric>)
    ensures forall m :: m in r <==> m in original && Find(s, m.id).Some? && !Matches(m, Find(s, m.id).value)
  {
    if original == [] then []
    else
      var rest := Unrestored(original[1..], s);
      var i := Find(s, original[0].id);
      if i.Some? && !Matches(original[0], i.value) then [original[0]] + rest else rest
  }

  /** `None` is an error; `Some(None)` says that nothing is left to restore. */
  function Restoration(j: Journal, s: Snapshot): Option<Option<Request>> {
    if !CheckKnown(j, s) then None
    else
      var changes := Unrestored(j.original, s);
      Some(if changes == [] then None else Some(Request(s, changes, None)))
  }

  function Confirmed(j: Journal, s: Snapshot): Option<Journal> {
    if && ValidSnapshot(s)
       && forall k | 0 <= k < |j.applied| :: Find(s, j.applied[k].id).Some? && Matches(j.applied[k], Find(s, j.applied[k].id).value)
    then Some(j.(previous := [])) else None
  }

  /** Nothing is left to restore exactly when every recorded original is active again. */
  lemma NothingToRestoreIff(j: Journal, s: Snapshot)
    requires Restoration(j, s).Some?
    ensures Restoration(j, s).value.None?
       <==> forall k | 0 <= k < |j.original| :: Matches(j.original[k], Find(s, j.original[k].id).value)
  {
    var changes := Unrestored(j.original, s);
    if changes != [] { assert changes[0] in j.original; }
    forall k | 0 <= k < |j.original| && changes == [] ensures Matches(j.original[k], Find(s, j.original[k].id).value) {
      assert j.original[k] !in changes;
    }
  }
}
