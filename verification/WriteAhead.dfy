/** Changing the default connection with a recovery journal written first.

    `Machine` is the computer: the setting Windows keeps for every interface and the journal
    file. Reads and writes may fail, a failed write may have changed either of the two
    stores, and everything else a read reports (connections, routes, indexes, names) is up
    to Windows. `base` and `history` exist only to state what is proved: the setting each
    interface had before NetLane first wrote to it, and every point at which the computer
    could have stopped. */
module WriteAhead {
  import opened Common
  import opened DefaultConnection

  datatype Setting = Setting(automatic: bool, metric: nat, saved: Option<nat>)

  datatype Point = Point(now: map<Id, Setting>, disk: Option<Journal>, base: map<Id, Setting>)

  predicate NoSaved(saved: Option<nat>) {
    saved.None? || saved == Some(0)
  }

  /** `m` describes this setting; Windows chooses the number of an automatic metric. */
  predicate Fits(m: Metric, st: Setting) {
    && m.automatic == st.automatic
    && (if m.automatic then NoSaved(st.saved) else m.metric == st.metric && st.saved == Some(m.metric))
  }

  /** The active and the persistent store, which a failed writer may update one by one. */
  predicate ActiveFits(m: Metric, st: Setting) {
    m.automatic == st.automatic && (m.automatic || m.metric == st.metric)
  }

  predicate SavedFits(m: Metric, st: Setting) {
    if m.automatic then NoSaved(st.saved) else st.saved == Some(m.metric)
  }

  /** Each store holds the original or the change: nobody else has written to it. */
  predicate Ours(original: Metric, change: Metric, st: Setting) {
    && (ActiveFits(original, st) || ActiveFits(change, st))
    && (SavedFits(original, st) || SavedFits(change, st))
  }

  predicate Same(a: Setting, b: Setting) {
    a == b || (a.automatic && b.automatic && NoSaved(a.saved) && NoSaved(b.saved))
  }

  /** What a read may report of the settings. */
  predicate Reflects(s: Snapshot, now: map<Id, Setting>) {
    forall k | 0 <= k < |s.interfaces| ::
      var i := s.interfaces[k];
      && i.id in now
      && i.automatic == now[i.id].automatic
      && (i.automatic || i.metric == now[i.id].metric)
      && i.saved == now[i.id].saved
  }

  /** What an interface is, apart from how it is set. */
  datatype Identity = Identity(index: nat, kind: Kind)

  /** A valid read that shows every interface there is, as it is. */
  ghost predicate Shows(s: Snapshot, known: map<Id, Identity>) {
    && ValidSnapshot(s)
    && (forall i | i in s.interfaces :: i.id in known && known[i.id] == Identity(i.index, i.kind))
    && (forall id | id in known :: Find(s, id).Some?)
  }

  /** The read found this interface where it is now. */
  lemma ShownAsKnown(s: Snapshot, known: map<Id, Identity>, i: Interface)
    requires Shows(s, known) && i.id in known && known[i.id] == Identity(i.index, i.kind)
    ensures
      var found := Find(s, i.id);
      found.Some? && found.value.index == i.index && found.value.kind == i.kind
  {
  }

  /** A journal entry other than an original describes this setting. */
  predicate Recorded(j: Journal, id: Id, st: Setting) {
    || (exists k :: 0 <= k < |j.applied| && j.applied[k].id == id && Fits(j.applied[k], st))
    || (exists k :: 0 <= k < |j.previous| && j.previous[k].id == id && Fits(j.previous[k], st))
  }

  predicate Remembers(disk: Option<Journal>, id: Id, st: Setting) {
    disk.Some? && exists k :: 0 <= k < |disk.value.original| && disk.value.original[k].id == id && Fits(disk.value.original[k], st)
  }

  /** Every interface that holds a value written by NetLane has its own earlier setting in
      the journal on disk. */
  predicate Recoverable(p: Point) {
    forall id | id in p.base :: Remembers(p.disk, id, p.base[id])
  }

  /** An interface that NetLane has not written to is not taken for one that it has. */
  predicate Honest(p: Point) {
    p.disk.Some? ==>
      && ValidJournal(p.disk.value)
      && forall k | 0 <= k < |p.disk.value.original| ::
           var o := p.disk.value.original[k];
           o.id in p.now && o.id !in p.base ==> Fits(o, p.now[o.id]) || !Recorded(p.disk.value, o.id, p.now[o.id])
  }

  predicate Good(p: Point) {
    Recoverable(p) && Honest(p)
  }

  // ----- pure steps of the argument -----

  lemma MatchedFits(m: Metric, s: Snapshot, now: map<Id, Setting>)
    requires Reflects(s, now) && Find(s, m.id).Some? && Matches(m, Find(s, m.id).value)
    ensures m.id in now && Fits(m, now[m.id])
  {
  }

  lemma FittingIsSame(m: Metric, a: Setting, b: Setting)
    requires Fits(m, a) && Fits(m, b)
    ensures Same(a, b)
  {
  }

  lemma SameOriginal(j: Journal, a: nat, b: nat)
    requires ValidJournal(j) && a < |j.original| && b < |j.original| && j.original[a].id == j.original[b].id
    ensures a == b
  {
  }

  /** A known interface that NetLane has not written to has its recorded original. */
  lemma KnownUnwritten(p: Point, s: Snapshot, k: nat)
    requires p.disk.Some? && Honest(p) && Reflects(s, p.now) && CheckKnown(p.disk.value, s)
    requires k < |p.disk.value.original| && p.disk.value.original[k].id !in p.base
    ensures p.disk.value.original[k].id in p.now && Fits(p.disk.value.original[k], p.now[p.disk.value.original[k].id])
  {
    var j := p.disk.value;
    var o := j.original[k];
    var i := Find(s, o.id).value;
    if n :| 0 <= n < |j.applied| && Matches(j.applied[n], i) {
      assert Recorded(j, o.id, p.now[o.id]);
    } else if n :| 0 <= n < |j.previous| && Matches(j.previous[n], i) {
      assert Recorded(j, o.id, p.now[o.id]);
    } else {
      var n :| 0 <= n < |j.original| && Matches(j.original[n], i);
      SameOriginal(j, k, n);
    }
  }

  lemma PlannedAreSteady(s: Snapshot, preferred: Id, managed: seq<Id>, k: nat)
    requires Plan(s, preferred, managed).Some? && k < |Plan(s, preferred, managed).value|
    ensures
      var i := Find(s, Plan(s, preferred, managed).value[k].id);
      i.Some? && Matches(MetricOf(i.value), i.value)
  {
    var affected := AffectedOf(s.interfaces, preferred, managed);
    assert affected[k] in s.interfaces;
    var a :| 0 <= a < |s.interfaces| && s.interfaces[a] == affected[k];
    FindsIt(s, a);
  }

  lemma PlanNames(s: Snapshot, preferred: Id, managed: seq<Id>, i: Interface)
    requires Plan(s, preferred, managed).Some? && i in s.interfaces && i.id in managed
    ensures Names(Plan(s, preferred, managed).value, i.id)
  {
    var affected := AffectedOf(s.interfaces, preferred, managed);
    assert i in affected;
    var k :| 0 <= k < |affected| && affected[k] == i;
    assert Plan(s, preferred, managed).value[k].id == i.id;
  }

  lemma {:induction false} UpsertedAreNew(metrics: seq<Metric>, changes: seq<Metric>, m: Metric)
    requires m in UpsertAll(metrics, changes)
    ensures m in changes || (m in metrics && !Names(changes, m.id))
  {
    if changes != [] {
      var last := |changes| - 1;
      if m != changes[last] {
        UpsertedAreNew(metrics, changes[..last], m);
      }
    }
  }

  /** A read that verifies the request also confirms the journal: nothing that was applied
      before is left out of a new plan. */
  lemma VerifiedIsConfirmed(s: Snapshot, preferred: Id, existing: Option<Journal>, current: Snapshot)
    requires Prepare(s, preferred, existing).Some? && VerifyAfter(Prepare(s, preferred, existing).value.1, current)
    ensures Confirmed(Prepare(s, preferred, existing).value.0, current).Some?
  {
    var (journal, request) := Prepare(s, preferred, existing).value;
    var j := if existing.Some? then existing.value else Journal([], [], []);
    forall k | 0 <= k < |journal.applied|
      ensures Find(current, journal.applied[k].id).Some? && Matches(journal.applied[k], Find(current, journal.applied[k].id).value)
    {
      var m := journal.applied[k];
      UpsertedAreNew(j.applied, request.changes, m);
      if m !in request.changes { AppliedAreChanged(s, preferred, j, m); }
      var n :| 0 <= n < |request.changes| && request.changes[n] == m;
    }
  }

  lemma AppliedAreChanged(s: Snapshot, preferred: Id, j: Journal, m: Metric)
    requires CheckKnown(j, s) && m in j.applied && Plan(s, preferred, Ids(j.original)).Some?
    ensures Names(Plan(s, preferred, Ids(j.original)).value, m.id)
  {
    var a :| 0 <= a < |j.applied| && j.applied[a] == m;
    assert Names(j.original, m.id);
    var k :| 0 <= k < |j.original| && j.original[k].id == m.id;
    assert Ids(j.original)[k] == m.id;
    PlanNames(s, preferred, Ids(j.original), Find(s, m.id).value);
  }

  /** Once a restoration is in force, a read of every interface finds nothing left to restore. */
  lemma RestorationIsDone(j: Journal, before: Snapshot, was: map<Id, Setting>, s: Snapshot, now: map<Id, Setting>, known: map<Id, Identity>)
    requires Restoration(j, before).Some? && Reflects(before, was) && Reflects(s, now)
    requires Shows(before, known) && Shows(s, known)
    requires
      var request := Restoration(j, before).value;
      if request.Some? then InForce(request.value.changes, was, now) else now == was
    ensures Restoration(j, s) == Some(None)
  {
    var changes := Unrestored(j.original, before);
    forall k | 0 <= k < |j.original| ensures Find(s, j.original[k].id).Some? && Matches(j.original[k], Find(s, j.original[k].id).value) {
      var o := j.original[k];
      assert o in j.original;
      var i := Find(before, o.id).value;
      Machine.FoundFits(o, before, was);
      Machine.FoundFits(o, s, now);
      if o in changes {
        var n :| 0 <= n < |changes| && changes[n] == o;
      } else {
        RestoredOnce(j, before, o);
      }
    }
    hide Reflects, Shows, InForce, ValidSnapshot;
    NoneUnrestored(j, s);
  }

  lemma OneOriginal(j: Journal, a: Metric, b: Metric)
    requires ValidJournal(j) && a in j.original && b in j.original && a.id == b.id
    ensures a == b
  {
  }

  lemma RestoredOnce(j: Journal, s: Snapshot, o: Metric)
    requires ValidJournal(j) && o in j.original && o !in Unrestored(j.original, s)
    ensures !Names(Unrestored(j.original, s), o.id)
  {
    var changes := Unrestored(j.original, s);
    if n :| 0 <= n < |changes| && changes[n].id == o.id {
      OneOriginal(j, changes[n], o);
    }
  }

  lemma NoneUnrestored(j: Journal, s: Snapshot)
    requires ValidJournal(j) && ValidSnapshot(s)
    requires forall k | 0 <= k < |j.original| :: Find(s, j.original[k].id).Some? && Matches(j.original[k], Find(s, j.original[k].id).value)
    ensures Restoration(j, s) == Some(None)
  {
    forall k | 0 <= k < |j.original| ensures Lists(j.original, Find(s, j.original[k].id).value) {}
    var changes := Unrestored(j.original, s);
    if changes != [] { NothingUnrestored(j, s, changes[0]); }
  }

  lemma NothingUnrestored(j: Journal, s: Snapshot, m: Metric)
    requires forall k | 0 <= k < |j.original| :: Find(s, j.original[k].id).Some? && Matches(j.original[k], Find(s, j.original[k].id).value)
    ensures m !in Unrestored(j.original, s)
  {
  }

  /** What `prepare` records: every earlier original, and the present metric of each new change. */
  lemma PreparedShape(s: Snapshot, preferred: Id, existing: Option<Journal>)
    requires Prepare(s, preferred, existing).Some?
    ensures
      var kept := if existing.Some? then existing.value.original else [];
      var (journal, request) := Prepare(s, preferred, existing).value;
      && Plan(s, preferred, Ids(kept)) == Some(request.changes)
      && kept <= journal.original && ValidJournal(journal)
      && (forall o | o in journal.original && o !in kept ::
            Find(s, o.id).Some? && o == MetricOf(Find(s, o.id).value) && !Names(kept, o.id) && Names(request.changes, o.id))
      && (forall k | 0 <= k < |request.changes| :: Names(journal.original, request.changes[k].id))
  {
    hide CheckKnown, ValidSnapshot, ValidJournal, UpsertAll;
    var j := if existing.Some? then existing.value else Journal([], [], []);
    var changes := Plan(s, preferred, Ids(j.original)).value;
    var r := AddOriginals(j.original, changes, s);
    AddOriginalsShape(j.original, changes, s);
    assert Prepare(s, preferred, existing).value.0.original == r;
  }

  /** A prepared journal, once saved, holds for every interface either what it held before
      or what the interface has now. */
  lemma PreparedOriginals(p: Point, s: Snapshot, preferred: Id, n: nat)
    requires Good(p) && Reflects(s, p.now) && Prepare(s, preferred, p.disk).Some?
    requires n < |Prepare(s, preferred, p.disk).value.0.original|
    ensures
      var o := Prepare(s, preferred, p.disk).value.0.original[n];
      o.id !in p.base ==> o.id in p.now && Fits(o, p.now[o.id])
  {
    PreparedShape(s, preferred, p.disk);
    var kept := if p.disk.Some? then p.disk.value.original else [];
    var (prepared, request) := Prepare(s, preferred, p.disk).value;
    var o := prepared.original[n];
    if o in kept {
      var k :| 0 <= k < |kept| && kept[k] == o;
      if o.id !in p.base { KnownUnwritten(p, s, k); }
    } else {
      assert o in prepared.original;
      var k :| 0 <= k < |request.changes| && request.changes[k].id == o.id;
      PlannedAreSteady(s, preferred, Ids(kept), k);
    }
  }

  /** A journal that keeps the originals remembers what was remembered. */
  lemma KeptIsRemembered(disk: Option<Journal>, journal: Journal, id: Id, st: Setting)
    requires Remembers(disk, id, st) && disk.value.original <= journal.original
    ensures Remembers(Some(journal), id, st)
  {
    var k :| 0 <= k < |disk.value.original| && disk.value.original[k].id == id && Fits(disk.value.original[k], st);
    assert journal.original[k] == disk.value.original[k];
  }

  lemma PreparedCovers(p: Point, s: Snapshot, preferred: Id)
    requires Good(p) && Reflects(s, p.now) && Prepare(s, preferred, p.disk).Some?
    ensures
      var (journal, request) := Prepare(s, preferred, p.disk).value;
      Covered(request, Point(p.now, Some(journal), p.base))
  {
    hide Plan, CheckKnown, ValidSnapshot, Prepare, UpsertAll;
    var (journal, request) := Prepare(s, preferred, p.disk).value;
    var j := if p.disk.Some? then p.disk.value else Journal([], [], []);
    PreparedShape(s, preferred, p.disk);
    forall k | 0 <= k < |request.changes|
      ensures
        var id := request.changes[k].id;
        id in p.now && (id in p.base || Remembers(Some(journal), id, p.now[id]))
    {
      var id := request.changes[k].id;
      PlannedAreSteady(s, preferred, Ids(j.original), k);
      var n :| 0 <= n < |journal.original| && journal.original[n].id == id;
      PreparedOriginals(p, s, preferred, n);
    }
  }

  /** Saving a prepared journal is safe, and it covers every interface of the request. */
  lemma SavingPreparedIsGood(p: Point, s: Snapshot, preferred: Id)
    requires Good(p) && Reflects(s, p.now) && Prepare(s, preferred, p.disk).Some?
    ensures
      var (journal, request) := Prepare(s, preferred, p.disk).value;
      && Good(Point(p.now, Some(journal), p.base))
      && Covered(request, Point(p.now, Some(journal), p.base))
  {
    PreparedCovers(p, s, preferred);
    PreparedShape(s, preferred, p.disk);
    hide Prepare, Covered, Remembers, ValidJournal;
    var (journal, request) := Prepare(s, preferred, p.disk).value;
    forall n | 0 <= n < |journal.original|
      ensures journal.original[n].id !in p.base
              ==> journal.original[n].id in p.now && Fits(journal.original[n], p.now[journal.original[n].id])
    {
      PreparedOriginals(p, s, preferred, n);
    }
    forall id | id in p.base ensures Remembers(Some(journal), id, p.base[id]) {
      RememberedIsSome(p, id);
      KeptIsRemembered(p.disk, journal, id, p.base[id]);
    }
  }

  lemma RememberedIsSome(p: Point, id: Id)
    requires Recoverable(p) && id in p.base
    ensures p.disk.Some? && Remembers(p.disk, id, p.base[id])
  {
  }

  /** The changes of a restoration are to interfaces that NetLane wrote to. */
  lemma RestorationIsCovered(p: Point, s: Snapshot)
    requires Good(p) && Reflects(s, p.now) && p.disk.Some?
    requires Restoration(p.disk.value, s).Some? && Restoration(p.disk.value, s).value.Some?
    ensures
      var request := Restoration(p.disk.value, s).value.value;
      forall k | 0 <= k < |request.changes| :: request.changes[k].id in p.base && request.changes[k].id in p.now
  {
    var j := p.disk.value;
    var request := Restoration(j, s).value.value;
    forall k | 0 <= k < |request.changes| ensures request.changes[k].id in p.base && request.changes[k].id in p.now {
      var m := request.changes[k];
      assert m in j.original;
      var n :| 0 <= n < |j.original| && j.original[n] == m;
      if m.id !in p.base { KnownUnwritten(p, s, n); }
    }
  }

  /** Once nothing is left to restore, every interface NetLane wrote to is as it was. */
  lemma RestoredIsSame(p: Point, s: Snapshot)
    requires Good(p) && Reflects(s, p.now) && p.disk.Some? && Restoration(p.disk.value, s) == Some(None)
    ensures forall id | id in p.base :: id in p.now && Same(p.base[id], p.now[id])
  {
    var j := p.disk.value;
    NothingToRestoreIff(j, s);
    forall id | id in p.base ensures id in p.now && Same(p.base[id], p.now[id]) {
      var k :| 0 <= k < |j.original| && j.original[k].id == id && Fits(j.original[k], p.base[id]);
      MatchedFits(j.original[k], s, p.now);
      FittingIsSame(j.original[k], p.base[id], p.now[id]);
    }
  }

  lemma ConfirmingIsGood(p: Point, s: Snapshot)
    requires Good(p) && p.disk.Some? && Confirmed(p.disk.value, s).Some?
    ensures Good(Point(p.now, Confirmed(p.disk.value, s), p.base))
  {
    var j, confirmed := p.disk.value, Confirmed(p.disk.value, s).value;
    forall id | id in p.base ensures Remembers(Some(confirmed), id, p.base[id]) {
      var k :| 0 <= k < |j.original| && j.original[k].id == id && Fits(j.original[k], p.base[id]);
      assert confirmed.original[k] == j.original[k];
    }
  }

  predicate RecordsPresent(original: seq<Metric>, i: Interface) {
    exists n :: 0 <= n < |original| && original[n].id == i.id && Matches(original[n], i)
  }

  /** Where the journal does not remember the present setting: exactly when an earlier
      original is recorded and it is another one. So a setting made by hand to a value that
      NetLane had recorded as applied would be taken back to the older original. */
  lemma PreparedRecordsPresentIff(s: Snapshot, preferred: Id, j: Journal, k: nat)
    requires Prepare(s, preferred, Some(j)).Some? && k < |Prepare(s, preferred, Some(j)).value.1.changes|
    ensures
      var (journal, request) := Prepare(s, preferred, Some(j)).value;
      var i := Find(s, request.changes[k].id);
      && i.Some?
      && (RecordsPresent(journal.original, i.value)
          <==> !Names(j.original, i.value.id) || RecordsPresent(j.original, i.value))
  {
    PreparedShape(s, preferred, Some(j));
    var (journal, request) := Prepare(s, preferred, Some(j)).value;
    PlannedAreSteady(s, preferred, Ids(j.original), k);
    var i := Find(s, request.changes[k].id).value;
    if RecordsPresent(j.original, i) {
      var n :| 0 <= n < |j.original| && j.original[n].id == i.id && Matches(j.original[n], i);
      assert journal.original[n] == j.original[n];
    } else if Names(j.original, i.id) {
      var n :| 0 <= n < |j.original| && j.original[n].id == i.id;
      forall a | 0 <= a < |journal.original| && journal.original[a].id == i.id ensures a == n {
        SameOriginal(journal, a, n);
      }
    } else {
      assert Names(journal.original, i.id);
      var n :| 0 <= n < |journal.original| && journal.original[n].id == i.id;
      assert journal.original[n] in journal.original && journal.original[n] !in j.original;
    }
  }

  // ----- the effects themselves -----

  /** A write, whose two stores may each have taken it or not. */
  function Landed(p: Point, m: Metric, active: bool, stored: bool, number: nat): Point
    requires m.id in p.now
  {
    var before := p.now[m.id];
    var st := Setting(if active then m.automatic else before.automatic,
                      if !active then before.metric else if m.automatic then number else m.metric,
                      if !stored then before.saved else if m.automatic then None else Some(m.metric));
    Point(p.now[m.id := st], p.disk, if m.id in p.base then p.base else p.base[m.id := before])
  }

  /** Each store is as it was or as `m` asks for. */
  predicate Mixed(m: Metric, before: Setting, after: Setting) {
    && (ActiveFits(m, after) || (after.automatic == before.automatic && after.metric == before.metric))
    && (SavedFits(m, after) || after.saved == before.saved)
  }

  lemma LandingIsGood(p: Point, m: Metric, active: bool, stored: bool, number: nat)
    requires Good(p) && m.id in p.now && (m.id in p.base || Remembers(p.disk, m.id, p.now[m.id]))
    ensures Good(Landed(p, m, active, stored, number))
  {
    var q := Landed(p, m, active, stored, number);
    assert forall id | id in q.base && id != m.id :: q.base[id] == p.base[id];
  }

  /** A setting made outside NetLane is from then on the interface's own. */
  function ChangedOutside(p: Point, id: Id, st: Setting): Point {
    Point(p.now[id := st], p.disk, p.base - {id})
  }

  lemma OutsideIsGood(p: Point, id: Id, st: Setting)
    requires Good(p) && id in p.now && (p.disk.Some? ==> Remembers(p.disk, id, st) || !Recorded(p.disk.value, id, st))
    ensures Good(ChangedOutside(p, id, st))
  {
    var q := ChangedOutside(p, id, st);
    if p.disk.Some? {
      forall k | 0 <= k < |p.disk.value.original|
        ensures
          var o := p.disk.value.original[k];
          o.id in q.now && o.id !in q.base ==> Fits(o, q.now[o.id]) || !Recorded(p.disk.value, o.id, q.now[o.id])
      {
        if p.disk.value.original[k].id == id && Remembers(p.disk, id, st) {
          var n :| 0 <= n < |p.disk.value.original| && p.disk.value.original[n].id == id && Fits(p.disk.value.original[n], st);
          SameOriginal(p.disk.value, k, n);
        }
      }
    }
  }

  datatype Receipt = Receipt(snapshot: Snapshot, success: bool, rollbackConfirmed: bool, original: seq<Interface>, changes: seq<Metric>)

  datatype Action = Apply(preferred: Id) | Restore

  /** `Finished` is `Ok` with the operation done, `Pending` is `Ok` with the change refused
      or rolled back, `Stopped` is an error. */
  datatype Result = Finished | Pending | Stopped

  /** Alternatives first, the preferred interface last. */
  function Ordered(changes: seq<Metric>, preferred: Option<Id>): (r: seq<Metric>)
    ensures forall m :: m in r <==> m in changes
  {
    if changes == [] then []
    else
      var rest := Ordered(changes[1..], preferred);
      if Some(changes[0].id) == preferred then rest + [changes[0]] else [changes[0]] + rest
  }

  ghost predicate Once(metrics: seq<Metric>) {
    forall j, k | 0 <= j < k < |metrics| :: metrics[j].id != metrics[k].id
  }

  /** Each change is written once, and none after the preferred interface. */
  lemma {:induction false} OrderedOnce(changes: seq<Metric>, preferred: Option<Id>)
    requires Once(changes)
    ensures Once(Ordered(changes, preferred)) && |Ordered(changes, preferred)| == |changes|
    ensures forall j | 0 <= j < |changes| - 1 :: Some(Ordered(changes, preferred)[j].id) != preferred
  {
    if changes != [] {
      var rest := Ordered(changes[1..], preferred);
      OrderedOnce(changes[1..], preferred);
      forall k | 0 <= k < |rest| ensures rest[k].id != changes[0].id {
        assert rest[k] in rest;
        var j :| 0 <= j < |changes[1..]| && changes[1..][j] == rest[k];
        assert changes[j + 1] == rest[k];
      }
    }
  }

  /** Every interface of the request is there, and safe to write to. */
  ghost predicate Covered(request: Request, p: Point) {
    forall k | 0 <= k < |request.changes| ::
      var id := request.changes[k].id;
      id in p.now && (id in p.base || Remembers(p.disk, id, p.now[id]))
  }

  /** A request that is verified by a reread, and its journal finalized from that reread. */
  ghost predicate Finalized(journal: Journal, request: Request, after: Snapshot, p: Point) {
    VerifyAfter(request, after) && Reflects(after, p.now) && p.disk.Some? && Confirmed(journal, after) == p.disk
  }

  /** The plan for `preferred` made from what was read before, done and finalized. */
  ghost predicate Completed(preferred: Id, was: Point, before: Snapshot, after: Snapshot, p: Point) {
    && Reflects(before, was.now) && Prepare(before, preferred, was.disk).Some?
    && var (journal, request) := Prepare(before, preferred, was.disk).value;
       Finalized(journal, request, after, p) && InForce(request.changes, was.now, p.now)
  }

  /** Why an operation in which nothing went wrong is not finished: its request does not
      describe the machine the helper reads, or is not verified once it is in force. */
  ghost predicate Contested(request: Request, was: map<Id, Setting>) {
    || (exists seen :: Refuses(request, was, seen))
    || (exists mid, seen :: Denies(request, was, mid, seen))
  }

  /** The same of an operation: what is read does not admit it, or its request is contested. */
  ghost predicate Inadmissible(action: Action, was: Point, before: Snapshot) {
    && Reflects(before, was.now)
    && match action
       case Apply(preferred) =>
         Prepare(before, preferred, was.disk).Some? ==> Contested(Prepare(before, preferred, was.disk).value.1, was.now)
       case Restore =>
         was.disk.Some? && Restoration(was.disk.value, before).Some? ==>
           var request := Restoration(was.disk.value, before).value;
           request.Some? && Contested(request.value, was.now)
  }

  /** What is written while a request is applied: each store of a touched interface holds what
      it held or what was asked for, and no other interface differs. */
  ghost predicate Written(start: Point, originals: seq<Interface>, changes: seq<Metric>, p: Point) {
    && p.now.Keys == start.now.Keys && p.disk == start.disk && Grown(start.base, p.base)
    && Distinct(originals)
    && (forall n | 0 <= n < |originals| :: originals[n].id in p.base && TouchedFrom(originals[n], changes, start.now, p.now))
    && (forall id | id in p.now && !NamesOne(originals, id) :: p.now[id] == start.now[id])
  }

  ghost predicate TouchedFrom(original: Interface, changes: seq<Metric>, was: map<Id, Setting>, now: map<Id, Setting>) {
    && original.id in was && Fits(MetricOf(original), was[original.id])
    && original.id in now && Names(changes, original.id)
    && Ours(MetricOf(original), ChangeOf(changes, original.id), now[original.id])
  }

  /** What is kept of interfaces written before stays. */
  ghost predicate Grown(was: map<Id, Setting>, base: map<Id, Setting>) {
    forall id | id in was :: id in base && base[id] == was[id]
  }

  predicate NamesOne(originals: seq<Interface>, id: Id) {
    exists k :: 0 <= k < |originals| && originals[k].id == id
  }

  ghost predicate Distinct(originals: seq<Interface>) {
    forall j, k | 0 <= j < k < |originals| :: originals[j].id != originals[k].id
  }

  /** Every change is in force, and nothing else differs. */
  ghost predicate InForce(changes: seq<Metric>, was: map<Id, Setting>, now: map<Id, Setting>) {
    && now.Keys == was.Keys
    && (forall k | 0 <= k < |changes| :: changes[k].id in now && Fits(changes[k], now[changes[k].id]))
    && (forall id | id in now && !Names(changes, id) :: now[id] == was[id])
  }

  ghost predicate AllSame(was: map<Id, Setting>, now: map<Id, Setting>) {
    now.Keys == was.Keys && forall id | id in now :: Same(was[id], now[id])
  }

  /** A read finds that the request does not describe the machine. */
  ghost predicate Refuses(request: Request, now: map<Id, Setting>, seen: Snapshot) {
    Reflects(seen, now) && !ValidateAgainst(request, seen)
  }

  /** With every change in force, a read does not verify the request. */
  ghost predicate Denies(request: Request, was: map<Id, Setting>, now: map<Id, Setting>, seen: Snapshot) {
    InForce(request.changes, was, now) && Reflects(seen, now) && !VerifyAfter(request, seen)
  }

  class Machine {
    var now: map<Id, Setting>
    var disk: Option<Journal>
    var base: map<Id, Setting>
    var history: seq<Point>
    ghost const known: map<Id, Identity>
    /** The calls that failed, and the reads that did not show the machine as it is. */
    ghost var faults: nat
    /** The messages between the window and the helper that did not arrive. */
    ghost var losses: nat
    /** What was written, in order. */
    ghost var writes: seq<Metric>
    /** The last read, and whether the owner was found alive since. */
    ghost var seen: Option<Snapshot>
    ghost var attended: bool

    function Here(): Point
      reads `now, `disk, `base
    {
      Point(now, disk, base)
    }

    /** The computer may stop here, and could have stopped at every point so far. */
    ghost predicate Safe()
      reads `now, `disk, `base, `history
    {
      Good(Here()) && forall k | 0 <= k < |history| :: Good(history[k])
    }

    constructor (now: map<Id, Setting>, ghost known: map<Id, Identity>)
      ensures this.now == now && disk == None && base == map[] && history == [] && Safe()
      ensures this.known == known && faults == 0 && losses == 0 && writes == []
    {
      this.now, this.disk, this.base, this.history := now, None, map[], [];
      this.known, this.faults, this.losses, this.writes := known, 0, 0, [];
      this.seen, this.attended := None, false;
    }

    method Read() returns (s: Option<Snapshot>)
      modifies `faults, `seen, `attended
      ensures seen == s && !attended
      ensures s.Some? ==> Reflects(s.value, now)
      ensures faults == if s.Some? && Shows(s.value, known) then old(faults) else old(faults) + 1
    {
      s := *;
      if s.Some? && !Reflects(s.value, now) { s := None; }
      if !(s.Some? && Shows(s.value, known)) { faults := faults + 1; }
      seen, attended := s, false;
    }

    /** Must finish the exact write before returning; a failed one may be partly applied. */
    method Write(m: Metric) returns (ok: bool)
      requires m.id in now && (m.id in base || Remembers(disk, m.id, now[m.id])) && Safe()
      modifies `now, `base, `history, `faults, `writes, `seen, `attended
      ensures m.id in now && now == old(now)[m.id := now[m.id]]
      ensures base == if m.id in old(base) then old(base) else old(base)[m.id := old(now)[m.id]]
      ensures if ok then Fits(m, now[m.id]) else Mixed(m, old(now)[m.id], now[m.id])
      ensures faults == (if ok then old(faults) else old(faults) + 1) && writes == old(writes) + [m]
      ensures Safe() && history == old(history) + [Here()]
    {
      hide Good, Remembers;
      var active, stored := *, *;
      var number: nat := *;
      LandingIsGood(Here(), m, active, stored, number);
      var p := Landed(Here(), m, active, stored, number);
      now, base := p.now, p.base;
      history := history + [Here()];
      ok := active && stored;
      writes := writes + [m];
      if !ok { faults := faults + 1; }
    }

    /** `JournalFile::save`: refused when the file changed, atomic otherwise. */
    method SaveJournal(j: Journal, expected: Option<Journal>) returns (ok: bool)
      requires Safe() && Good(Point(now, Some(j), base))
      modifies `disk, `history, `faults
      ensures disk == if ok then Some(j) else old(disk)
      ensures if ok then old(disk) == expected && faults == old(faults) else faults > old(faults) || old(disk) != expected
      ensures Safe() && old(history) <= history
    {
      ok := *;
      if !ok { faults := faults + 1; }
      ok := ok && disk == expected;
      if ok {
        disk := Some(j);
        history := history + [Here()];
      }
    }

    /** The journal goes only when every interface it is for has its own setting back. */
    method ClearJournal(expected: Option<Journal>) returns (ok: bool)
      requires Safe() && forall id | id in base :: id in now && Same(base[id], now[id])
      modifies `disk, `base, `history, `faults
      ensures if ok then disk == None && base == map[] else disk == old(disk) && base == old(base)
      ensures if ok then old(disk) == expected && faults == old(faults) else faults > old(faults) || old(disk) != expected
      ensures Safe() && old(history) <= history
    {
      ok := *;
      if !ok { faults := faults + 1; }
      ok := ok && disk == expected;
      if ok {
        disk, base := None, map[];
        history := history + [Here()];
      }
    }

    /** The owner of the helper and its pipe are still there. */
    method Alive() returns (yes: bool)
      modifies `faults, `attended
      ensures attended == yes
      ensures faults == if yes then old(faults) else old(faults) + 1
    {
      yes := *;
      attended := yes;
      if !yes { faults := faults + 1; }
    }

    /** The setting may be taken back: it is the original, or both stores are NetLane's. */
    ghost predicate CanRevert(original: Interface, changes: seq<Metric>, st: Setting) {
      && original.id in known && known[original.id] == Identity(original.index, original.kind)
      && Names(changes, original.id) && Ours(MetricOf(original), ChangeOf(changes, original.id), st)
    }

    /** It is not the original yet, and nobody else has written to it. */
    static ghost predicate Touched(original: Interface, changes: seq<Metric>, st: Setting) {
      && !Fits(MetricOf(original), st)
      && Names(changes, original.id) && Ours(MetricOf(original), ChangeOf(changes, original.id), st)
    }

    /** `Receipt::revert` for one interface. A setting that is the original already, or that
        was made outside, is left alone. */
    method RevertOne(original: Interface, changes: seq<Metric>) returns (ok: bool)
      requires Safe() && original.id in base && original.id in now
      modifies `now, `base, `history, `faults, `writes, `seen, `attended
      ensures Safe() && base == old(base) && old(history) <= history && now.Keys == old(now).Keys
      ensures old(faults) <= faults
      ensures ok ==> Fits(MetricOf(original), now[original.id])
      ensures !ok ==> faults > old(faults) || !CanRevert(original, changes, old(now)[original.id])
      ensures !Touched(original, changes, old(now)[original.id]) ==> now == old(now) && writes == old(writes)
      ensures faults == old(faults) && !CanRevert(original, changes, old(now)[original.id]) ==> now == old(now) && writes == old(writes)
      ensures forall id | id in now && id != original.id :: now[id] == old(now)[id]
    {
      hide Good, Fits, Ours, Mixed, Remembers, Matches;
      var s := Read();
      if s.None? || !ValidSnapshot(s.value) { return false; }
      hide Shows, ValidSnapshot;
      if Shows(s.value, known) && original.id in known && known[original.id] == Identity(original.index, original.kind) {
        ShownAsKnown(s.value, known, original);
      }
      var found := Find(s.value, original.id);
      if found.None? { return false; }
      var i, metric := found.value, MetricOf(original);
      if i.index != original.index || i.kind != original.kind { return false; }
      FoundFits(metric, s.value, now);
      hide Reflects, MetricOf;
      if Matches(metric, i) { return true; }
      if !Names(changes, original.id) { return false; }
      var change := ChangeOf(changes, original.id);
      FoundOurs(metric, change, s.value, now);
      if !(ActiveMatches(metric, i) || ActiveMatches(change, i)) || !(SavedMatches(metric, i) || SavedMatches(change, i)) { return false; }
      ok := Write(metric);
    }

    static lemma FoundFits(m: Metric, s: Snapshot, now: map<Id, Setting>)
      requires Reflects(s, now) && Find(s, m.id).Some?
      ensures m.id in now && (Matches(m, Find(s, m.id).value) <==> Fits(m, now[m.id]))
    {
    }

    static lemma FoundOurs(original: Metric, change: Metric, s: Snapshot, now: map<Id, Setting>)
      requires Reflects(s, now) && Find(s, original.id).Some?
      ensures
        var i := Find(s, original.id).value;
        original.id in now
        && (Ours(original, change, now[original.id])
            <==> (ActiveMatches(original, i) || ActiveMatches(change, i)) && (SavedMatches(original, i) || SavedMatches(change, i)))
    {
    }

    static predicate ActiveMatches(m: Metric, i: Interface) {
      m.automatic == i.automatic && (m.automatic || m.metric == i.metric)
    }

    static predicate SavedMatches(m: Metric, i: Interface) {
      if m.automatic then NoSaved(i.saved) else i.saved == Some(m.metric)
    }

    ghost predicate AllRevertible(originals: seq<Interface>, changes: seq<Metric>, now: map<Id, Setting>) {
      forall k | 0 <= k < |originals| :: originals[k].id in now && CanRevert(originals[k], changes, now[originals[k].id])
    }

    static ghost predicate Back(originals: seq<Interface>, from: int, now: map<Id, Setting>)
      requires 0 <= from
    {
      forall k | from <= k < |originals| :: originals[k].id in now && Fits(MetricOf(originals[k]), now[originals[k].id])
    }

    /** Only interfaces from `from` on differ. */
    static ghost predicate Apart(originals: seq<Interface>, from: int, was: map<Id, Setting>, now: map<Id, Setting>)
      requires 0 <= from <= |originals|
    {
      && now.Keys == was.Keys
      && forall id | id in now && !NamesOne(originals[from..], id) :: now[id] == was[id]
    }

    /** The loop of `revert`: last change first. */
    method RevertEach(originals: seq<Interface>, changes: seq<Metric>) returns (clean: bool)
      requires Safe() && forall k | 0 <= k < |originals| :: originals[k].id in base && originals[k].id in now
      modifies `now, `base, `history, `faults, `writes, `seen, `attended
      ensures Safe() && base == old(base) && old(history) <= history && old(faults) <= faults
      ensures Apart(originals, 0, old(now), now)
      ensures Distinct(originals) && AllRevertible(originals, changes, old(now)) && faults == old(faults) ==> clean && Back(originals, 0, now)
    {
      hide Safe, Fits, CanRevert, Touched;
      clean := true;
      var k := |originals|;
      while k > 0
        invariant 0 <= k <= |originals|
        invariant Safe() && base == old(base) && old(history) <= history && old(faults) <= faults
        invariant Apart(originals, k, old(now), now)
        invariant Distinct(originals) && AllRevertible(originals, changes, old(now)) && faults == old(faults) ==> clean && Back(originals, k, now)
      {
        k := k - 1;
        var ok := RevertOne(originals[k], changes);
        clean := clean && ok;
      }
    }

    /** `Receipt::revert`: every change is taken back, and a reread decides whether that is
        confirmed. It is, unless a call failed or somebody else changed a setting. */
    method Revert(receipt: Receipt) returns (r: Receipt)
      requires Safe() && forall k | 0 <= k < |receipt.original| :: receipt.original[k].id in base && receipt.original[k].id in now
      modifies `now, `base, `history, `faults, `writes, `seen, `attended
      ensures Safe() && base == old(base) && old(history) <= history && old(faults) <= faults
      ensures !r.success && r.original == [] && r.changes == receipt.changes
      ensures Apart(receipt.original, 0, old(now), now)
      ensures r.rollbackConfirmed ==> Back(receipt.original, 0, now) && Reflects(r.snapshot, now)
      ensures Distinct(receipt.original) && AllRevertible(receipt.original, receipt.changes, old(now)) && faults == old(faults) ==>
                r.rollbackConfirmed
    {
      hide Safe, Fits, Touched, Distinct, ValidSnapshot;
      var clean := RevertEach(receipt.original, receipt.changes);
      var s := Read();
      if s.None? || !ValidSnapshot(s.value) {
        return Receipt(Snapshot([], []), false, false, [], receipt.changes);
      }
      var back := forall k | 0 <= k < |receipt.original| :: IsBack(receipt.original[k], s.value);
      r := Receipt(s.value, false, clean && back, [], receipt.changes);
      BackIsSeen(receipt.original, s.value, now);
      if Shows(s.value, known) && AllRevertible(receipt.original, receipt.changes, old(now)) {
        AllAreKnown(receipt.original, receipt.changes, s.value, old(now));
      }
      hide IsBack, AllRevertible, Back, Reflects, CanRevert;
    }

    static predicate IsBack(o: Interface, s: Snapshot) {
      var i := Find(s, o.id);
      i.Some? && i.value.index == o.index && i.value.kind == o.kind && Matches(MetricOf(o), i.value)
    }

    static predicate SameAs(o: Interface, s: Snapshot) {
      var i := Find(s, o.id);
      i.Some? && i.value.index == o.index && i.value.kind == o.kind
    }

    /** What the reread finds back is back. */
    static lemma BackIsSeen(originals: seq<Interface>, s: Snapshot, now: map<Id, Setting>)
      requires Reflects(s, now)
      ensures (forall k | 0 <= k < |originals| :: IsBack(originals[k], s))
         <==> (forall k | 0 <= k < |originals| :: SameAs(originals[k], s)) && Back(originals, 0, now)
    {
      forall k | 0 <= k < |originals| && SameAs(originals[k], s)
        ensures originals[k].id in now && (IsBack(originals[k], s) <==> Fits(MetricOf(originals[k]), now[originals[k].id]))
      {
        FoundFits(MetricOf(originals[k]), s, now);
      }
      hide Reflects, Fits, Matches;
    }

    lemma AllAreKnown(originals: seq<Interface>, changes: seq<Metric>, s: Snapshot, was: map<Id, Setting>)
      requires Shows(s, known) && AllRevertible(originals, changes, was)
      ensures forall k | 0 <= k < |originals| :: SameAs(originals[k], s)
    {
      forall k | 0 <= k < |originals| ensures SameAs(originals[k], s) { ShownAsKnown(s, known, originals[k]); }
    }

    /** The setting found again just before the write is the one the request started from. */
    static lemma ConfirmedFits(original: Interface, before: Snapshot, current: Snapshot, was: map<Id, Setting>,
                               now: map<Id, Setting>)
      requires original in before.interfaces && Reflects(before, was) && Reflects(current, now)
      requires Find(current, original.id).Some? && Matches(MetricOf(original), Find(current, original.id).value)
      ensures original.id in was && original.id in now
      ensures Fits(MetricOf(original), now[original.id])
    {
    }

    /** A setting that nobody touched is found again. */
    static lemma FoundAgain(request: Request, before: Snapshot, current: Snapshot, k: nat, was: map<Id, Setting>, now: map<Id, Setting>)
      requires ValidateAgainst(request, before) && k < |request.changes|
      requires Reflects(before, was) && Reflects(current, now)
      ensures
        var id := request.changes[k].id;
        && Find(before, id).Some? && id in was
        && (Find(current, id).Some? && id in now && now[id] == was[id] ==> Matches(MetricOf(Find(before, id).value), Find(current, id).value))
    {
    }

    /** One change of the helper's loop. It is written, unless a call failed. */
    method WriteOne(m: Metric, ghost k: nat, request: Request, before: Snapshot, originals: seq<Interface>, ghost start: Point)
      returns (originals': seq<Interface>, ok: bool)
      requires Safe() && k < |request.changes| && request.changes[k] == m && Covered(request, start) && ValidMetrics(request.changes, true)
      requires Written(start, originals, request.changes, Here()) && !NamesOne(originals, m.id)
      requires ValidateAgainst(request, before) && Reflects(before, start.now)
      modifies `now, `base, `history, `faults, `writes, `seen, `attended
      ensures Safe() && old(history) <= history && old(faults) <= faults
      ensures Written(start, originals', request.changes, Here())
      ensures originals' == originals || (Find(before, m.id).Some? && originals' == originals + [Find(before, m.id).value])
      ensures Shows(before, known) && faults == old(faults) ==> ok
      ensures ok ==> originals' != originals && Wrote(m, old(now), now) && writes == old(writes) + [m]
    {
      hide Good, Written, Matches, ValidSnapshot, Fits, Remembers, Cleared, ValidateAgainst, Shows, ValidMetrics, Reflects;
      originals' := originals;
      ok := CheckOne(m, k, request, before, originals, start);
      if ok {
        var original := Find(before, m.id).value;
        originals' := originals + [original];
        ok := WriteNext(m, k, request, original, originals, start);
      }
    }

    /** What is looked at before a write. */
    method CheckOne(m: Metric, ghost k: nat, request: Request, before: Snapshot, ghost originals: seq<Interface>, ghost start: Point)
      returns (ok: bool)
      requires k < |request.changes| && request.changes[k] == m
      requires Written(start, originals, request.changes, Here()) && !NamesOne(originals, m.id)
      requires ValidateAgainst(request, before) && Reflects(before, start.now)
      modifies `faults, `seen, `attended
      ensures old(faults) <= faults && Find(before, m.id).Some?
      ensures Shows(before, known) && faults == old(faults) ==> ok
      ensures ok ==> Cleared(Find(before, m.id).value) && m.id in now && m.id in start.now
                     && Fits(MetricOf(Find(before, m.id).value), start.now[m.id])
    {
      hide Written, ValidSnapshot, Fits;
      ok := false;
      FoundBefore(request, before, k);
      var alive := Alive();
      if !alive { return; }
      var current := Read();
      if current.None? || !ValidSnapshot(current.value) { return; }
      FoundAgain(request, before, current.value, k, start.now, now);
      UntouchedIsSame(start, originals, request.changes, Here(), m.id);
      var original := Find(before, m.id).value;
      if Shows(before, known) && Shows(current.value, known) { ShownAsKnown(current.value, known, original); }
      hide ValidateAgainst, Shows, Matches;
      var actual := Find(current.value, m.id);
      if actual.None? { return; }
      if actual.value.index != original.index || actual.value.kind != original.kind { return; }
      if !Matches(MetricOf(original), actual.value) { return; }
      ok := Alive();
      ConfirmedFits(original, before, current.value, start.now, now);
    }

    static lemma FoundBefore(request: Request, before: Snapshot, k: nat)
      requires ValidateAgainst(request, before) && k < |request.changes|
      ensures Find(before, request.changes[k].id).Some?
    {
    }

    static lemma UntouchedIsSame(start: Point, originals: seq<Interface>, changes: seq<Metric>, p: Point, id: Id)
      requires Written(start, originals, changes, p) && !NamesOne(originals, id)
      ensures id in p.now <==> id in start.now
      ensures id in p.now ==> p.now[id] == start.now[id]
    {
    }

    static ghost predicate Wrote(m: Metric, was: map<Id, Setting>, now: map<Id, Setting>) {
      m.id in was && m.id in now && now == was[m.id := now[m.id]] && Fits(m, now[m.id])
    }

    /** The owner is there, and the last read found the interface as the request left it. */
    ghost predicate Cleared(original: Interface)
      reads `seen, `attended
    {
      && attended && seen.Some? && ValidSnapshot(seen.value)
      && var i := Find(seen.value, original.id);
         i.Some? && i.value.index == original.index && i.value.kind == original.kind && Matches(MetricOf(original), i.value)
    }

    /** A write of the loop happens only then. */
    method WriteNext(m: Metric, ghost k: nat, request: Request, original: Interface, originals: seq<Interface>, ghost start: Point)
      returns (ok: bool)
      requires Safe() && k < |request.changes| && request.changes[k] == m && Covered(request, start) && ValidMetrics(request.changes, true)
      requires Written(start, originals, request.changes, Here()) && !NamesOne(originals, original.id)
      requires Cleared(original)
      requires m.id == original.id && original.id in now
      requires Fits(MetricOf(original), start.now[original.id])
      modifies `now, `base, `history, `faults, `writes, `seen, `attended
      ensures Safe() && old(history) <= history
      ensures Written(start, originals + [original], request.changes, Here())
      ensures faults == if ok then old(faults) else old(faults) + 1
      ensures ok ==> Wrote(m, old(now), now) && writes == old(writes) + [m]
    {
      hide Good, Remembers;
      ghost var was := Here();
      ok := Write(m);
      WritingTouches(start, originals, request.changes, was, original, k, Here());
      hide *;
    }

    /** After one more write the account is that of one more interface. */
    static lemma WritingTouches(
      start: Point, originals: seq<Interface>, changes: seq<Metric>, was: Point, original: Interface, k: nat, p: Point)
      requires Written(start, originals, changes, was) && !NamesOne(originals, original.id)
      requires k < |changes| && ValidMetrics(changes, true) && changes[k].id == original.id && original.id in was.now
      requires Fits(MetricOf(original), start.now[original.id])
      requires original.id in p.now && p.now == was.now[original.id := p.now[original.id]] && p.disk == was.disk
      requires p.base == if original.id in was.base then was.base else was.base[original.id := was.now[original.id]]
      requires Fits(changes[k], p.now[original.id]) || Mixed(changes[k], was.now[original.id], p.now[original.id])
      ensures Written(start, originals + [original], changes, p)
    {
      var all := originals + [original];
      assert ChangeOf(changes, original.id) == changes[k];
      forall n | 0 <= n < |all| ensures all[n].id in p.base && TouchedFrom(all[n], changes, start.now, p.now) {
        if n < |originals| { assert all[n] == originals[n]; }
      }
      forall id | id in p.now && !NamesOne(all, id) ensures p.now[id] == start.now[id] {
        assert all[|originals|].id == original.id;
        forall n | 0 <= n < |originals| ensures originals[n].id != id { assert all[n] == originals[n]; }
      }
    }

    /** The helper's loop: alternatives first, the preferred interface last. */
    method WriteAll(request: Request, before: Snapshot, ghost start: Point) returns (originals: seq<Interface>, ok: bool)
      requires Safe() && Covered(request, start) && start == Here()
      requires ValidateAgainst(request, before) && Reflects(before, start.now)
      modifies `now, `base, `history, `faults, `writes, `seen, `attended
      ensures Safe() && old(history) <= history && old(faults) <= faults
      ensures Written(start, originals, request.changes, Here())
      ensures Shows(before, known) && faults == old(faults) ==> ok
      ensures AllFrom(originals, before)
      ensures ok ==> InForce(request.changes, start.now, now) && writes == old(writes) + Ordered(request.changes, request.preferred)
    {
      hide Written, ValidateAgainst, ValidMetrics, Covered, Safe, Reflects, Shows, Follows, AllFit, Once, Wrote, InForce, Find, AllFrom;
      NothingYet(request, before, start);
      originals, ok := [], true;
      var ordered := Ordered(request.changes, request.preferred);
      OrderedOnce(request.changes, request.preferred);
      assert ordered[..0] == [];
      var k := 0;
      while k < |ordered| && ok
        invariant 0 <= k <= |ordered|
        invariant Safe() && old(history) <= history && old(faults) <= faults
        invariant Written(start, originals, request.changes, Here())
        invariant Shows(before, known) && faults == old(faults) ==> ok
        invariant AllFrom(originals, before)
        invariant ok ==> Follows(originals, ordered[..k]) && AllFit(ordered[..k], now) && writes == old(writes) + ordered[..k]
      {
        assert ordered[k] in request.changes;
        ghost var at :| 0 <= at < |request.changes| && request.changes[at] == ordered[k];
        ghost var was, earlier := now, originals;
        NotYet(originals, ordered, k);
        originals, ok := WriteOne(ordered[k], at, request, before, originals, start);
        OneMore(earlier, originals, before, ordered, k, ok);
        if ok { FitsOneMore(ordered, k, was, now); }
        k := k + 1;
      }
      if ok {
        assert ordered[..k] == ordered;
        AllInForce(start, originals, request.changes, ordered, Here());
      }
    }

    /** The interfaces touched are those of these changes, in the same order. */
    static ghost predicate Follows(originals: seq<Interface>, changes: seq<Metric>) {
      |originals| == |changes| && forall n | 0 <= n < |changes| :: originals[n].id == changes[n].id
    }

    static ghost predicate AllFit(changes: seq<Metric>, now: map<Id, Setting>) {
      forall n | 0 <= n < |changes| :: changes[n].id in now && Fits(changes[n], now[changes[n].id])
    }

    static ghost predicate AllFrom(originals: seq<Interface>, before: Snapshot) {
      forall n | 0 <= n < |originals| :: originals[n] in before.interfaces
    }

    static lemma NothingYet(request: Request, before: Snapshot, start: Point)
      requires ValidateAgainst(request, before)
      ensures ValidMetrics(request.changes, true) && Once(request.changes)
      ensures Follows([], []) && AllFit([], start.now) && AllFrom([], before) && Written(start, [], request.changes, start)
    {
    }

    static lemma OneMore(originals: seq<Interface>, originals': seq<Interface>, before: Snapshot, ordered: seq<Metric>, k: nat, ok: bool)
      requires AllFrom(originals, before) && k < |ordered| && Follows(originals, ordered[..k])
      requires originals' == originals || (Find(before, ordered[k].id).Some? && originals' == originals + [Find(before, ordered[k].id).value])
      ensures AllFrom(originals', before) && ordered[..k + 1] == ordered[..k] + [ordered[k]]
      ensures originals' != originals ==> Follows(originals', ordered[..k + 1])
    {
    }

    static lemma NotYet(originals: seq<Interface>, ordered: seq<Metric>, k: nat)
      requires k < |ordered| && Follows(originals, ordered[..k]) && Once(ordered)
      ensures !NamesOne(originals, ordered[k].id)
    {
    }

    static lemma FitsOneMore(ordered: seq<Metric>, k: nat, was: map<Id, Setting>, now: map<Id, Setting>)
      requires k < |ordered| && Once(ordered) && AllFit(ordered[..k], was) && Wrote(ordered[k], was, now)
      ensures AllFit(ordered[..k + 1], now)
    {
      hide Fits;
      forall n | 0 <= n < k + 1 ensures ordered[n].id in now && Fits(ordered[n], now[ordered[n].id]) {
        if n < k { assert ordered[..k][n] == ordered[n]; }
      }
    }

    static lemma AllInForce(start: Point, originals: seq<Interface>, changes: seq<Metric>, ordered: seq<Metric>, p: Point)
      requires Written(start, originals, changes, p) && AllFit(ordered, p.now)
      requires forall m :: m in ordered <==> m in changes
      ensures InForce(changes, start.now, p.now)
    {
      hide Fits, Ours;
      forall k | 0 <= k < |changes| ensures changes[k].id in p.now && Fits(changes[k], p.now[changes[k].id]) {
        assert changes[k] in ordered;
      }
      forall id | id in p.now && !Names(changes, id) ensures p.now[id] == start.now[id] {
        assert !NamesOne(originals, id);
      }
    }

    /** What was touched after a read that showed the machine can be taken back. */
    lemma TouchedIsRevertible(start: Point, originals: seq<Interface>, changes: seq<Metric>, p: Point, before: Snapshot)
      requires Written(start, originals, changes, p) && Shows(before, known)
      requires AllFrom(originals, before)
      ensures AllRevertible(originals, changes, p.now)
    {
      hide Ours, Fits;
    }

    /** The helper's `apply`. Nothing is written unless the request still describes the machine;
        a failure part way is rolled back. Without a failing call, either every change is in
        force and verified, or it is all back as it was because the reread does not verify. */
    method ApplyRequest(request: Request) returns (r: Option<Receipt>)
      requires Safe() && Covered(request, Here())
      modifies `now, `base, `history, `faults, `writes, `seen, `attended
      ensures Safe() && old(history) <= history && old(faults) <= faults && now.Keys == old(now).Keys && Grown(old(base), base)
      ensures r.None? ==>
                && now == old(now) && base == old(base) && writes == old(writes)
                && (faults == old(faults) ==> exists seen :: Refuses(request, now, seen))
      ensures r.Some? && r.value.success ==>
                && VerifyAfter(request, r.value.snapshot) && Reflects(r.value.snapshot, now)
                && InForce(request.changes, old(now), now)
                && writes == old(writes) + Ordered(request.changes, request.preferred)
                && Written(old(Here()), r.value.original, request.changes, Here()) && r.value.changes == request.changes
                && (faults == old(faults) ==> AllRevertible(r.value.original, request.changes, now))
      ensures r.Some? && !r.value.success && r.value.rollbackConfirmed ==> AllSame(old(now), now)
      ensures r.Some? && !r.value.success && faults == old(faults) ==>
                r.value.rollbackConfirmed && exists mid, seen :: Denies(request, old(now), mid, seen)
    {
      hide Written, Reflects, VerifyAfter, AllRevertible, InForce, ValidateAgainst, AllSame, Covered;
      var before := Read();
      if before.None? { return None; }
      if !ValidateAgainst(request, before.value) { assert Refuses(request, now, before.value); return None; }
      ghost var start := Here();
      var originals, ok := WriteAll(request, before.value, start);
      if Shows(before.value, known) { TouchedIsRevertible(start, originals, request.changes, Here(), before.value); }
      var receipt := Receipt(before.value, false, false, originals, request.changes);
      if ok {
        var alive := Alive();
        var after := Read();
        if alive && after.Some? && VerifyAfter(request, after.value) {
          WrittenKeeps(start, originals, request.changes, Here());
          return Some(receipt.(success := true, snapshot := after.value));
        }
        assert alive && after.Some? ==> Denies(request, old(now), now, after.value);
      }
      var reverted := RevertAll(receipt, start);
      r := Some(reverted);
    }

    static lemma WrittenKeeps(start: Point, originals: seq<Interface>, changes: seq<Metric>, p: Point)
      requires Written(start, originals, changes, p)
      ensures p.now.Keys == start.now.Keys && Grown(start.base, p.base) && p.disk == start.disk
    {
    }

    /** A confirmed rollback leaves every setting as it was before the request. */
    method RevertAll(receipt: Receipt, ghost start: Point) returns (r: Receipt)
      requires Safe() && Written(start, receipt.original, receipt.changes, Here())
      modifies `now, `base, `history, `faults, `writes, `seen, `attended
      ensures Safe() && old(history) <= history && old(faults) <= faults && base == old(base) && now.Keys == start.now.Keys && !r.success
      ensures Grown(start.base, base)
      ensures r.rollbackConfirmed ==> AllSame(start.now, now)
      ensures AllRevertible(receipt.original, receipt.changes, old(now)) && faults == old(faults) ==> r.rollbackConfirmed
    {
      ghost var p := Here();
      hide AllRevertible, Reflects, Ours;
      r := Revert(receipt);
      if r.rollbackConfirmed { BackIsSame(start, receipt.original, receipt.changes, p, now); }
    }

    static lemma BackIsSame(start: Point, originals: seq<Interface>, changes: seq<Metric>, p: Point, now: map<Id, Setting>)
      requires Written(start, originals, changes, p) && Apart(originals, 0, p.now, now) && Back(originals, 0, now)
      ensures AllSame(start.now, now)
    {
      hide Fits, Ours, Same;
      assert originals[0..] == originals;
      forall id | id in now ensures Same(start.now[id], now[id]) {
        if NamesOne(originals, id) {
          var n :| 0 <= n < |originals| && originals[n].id == id;
          FittingIsSame(MetricOf(originals[n]), start.now[id], now[id]);
        } else {
          SameAsItself(now[id]);
        }
      }
    }

    static lemma SameAsItself(st: Setting)
      ensures Same(st, st)
    {
    }

    /** Launching the helper and hearing from it. `receipt` is what the helper ends with. A
        change that was not acknowledged has been reverted by then, and unless a call failed
        every setting is as it was; the answer may be lost even after an acknowledgement. */
    method Execute(request: Request) returns (response: Option<Receipt>, ghost acknowledged: bool, ghost receipt: Option<Receipt>)
      requires Safe() && Covered(request, Here())
      modifies `now, `base, `history, `faults, `writes, `losses, `seen, `attended
      ensures Safe() && old(history) <= history && now.Keys == old(now).Keys
      ensures old(faults) <= faults && old(losses) <= losses && Grown(old(base), base)
      ensures receipt.None? ==> now == old(now) && base == old(base)
      ensures receipt.None? && faults == old(faults) && losses == old(losses) ==> exists seen :: Refuses(request, now, seen)
      ensures receipt.Some? && receipt.value.success ==>
                && acknowledged && VerifyAfter(request, receipt.value.snapshot) && Reflects(receipt.value.snapshot, now)
                && InForce(request.changes, old(now), now)
                && writes == old(writes) + Ordered(request.changes, request.preferred)
      ensures receipt.Some? && !receipt.value.success && receipt.value.rollbackConfirmed ==> AllSame(old(now), now)
      ensures receipt.Some? && !receipt.value.success && faults == old(faults) ==> receipt.value.rollbackConfirmed
      ensures receipt.Some? && !receipt.value.success && faults == old(faults) && losses == old(losses) ==>
                exists mid, seen :: Denies(request, old(now), mid, seen)
      ensures !acknowledged && faults == old(faults) ==> AllSame(old(now), now)
      ensures response.Some? ==> acknowledged && response == receipt
      ensures losses == old(losses) ==> response == receipt
    {
      hide Written, Reflects, VerifyAfter, AllRevertible, InForce, Covered;
      ghost var start := Here();
      acknowledged, receipt := false, None;
      var launched, heard, delivered := *, *, *;
      hide AllSame;
      assert AllSame(now, now) by { NothingIsSame(now); }
      if !launched {
        losses := losses + 1;
        return None, acknowledged, receipt;
      }
      var result := ApplyRequest(request);
      receipt := result;
      if result.None? { return None, acknowledged, receipt; }
      acknowledged := heard;
      if !heard {
        losses := losses + 1;
        if result.value.success {
          var reverted := RevertAll(result.value, start);
          receipt := Some(reverted);
        }
        return None, acknowledged, receipt;
      }
      response := if delivered then result else None;
      if !delivered { losses := losses + 1; }
    }

    static lemma NothingIsSame(now: map<Id, Setting>)
      ensures AllSame(now, now)
    {
    }

    /** `perform_with`: the journal is saved before anything may be written, finalized or
        cleared only after a reread, and kept in every other case. Unless a call failed or a
        message was lost, the operation is finished whenever what is read admits it. */
    method Perform(action: Action, expected: Option<Journal>) returns (r: Result)
      requires Safe()
      modifies this
      ensures Safe() && old(history) <= history && now.Keys == old(now).Keys
      ensures expected != old(disk) ==> r.Stopped? && Here() == old(Here())
      ensures r.Finished? && action.Apply? ==>
                && disk.Some? && disk.value.previous == []
                && forall k | 0 <= k < |disk.value.applied| ::
                     disk.value.applied[k].id in now && Fits(disk.value.applied[k], now[disk.value.applied[k].id])
      ensures r.Finished? && action.Apply? ==>
                exists before, after :: Completed(action.preferred, old(Here()), before, after, Here())
      ensures r.Finished? && action.Restore? ==>
                && disk == None && base == map[]
                && forall id | id in old(base) :: id in now && Same(old(base)[id], now[id])
      ensures !(r.Finished? && action.Restore?) && old(disk).Some? ==> disk.Some? && old(disk).value.original <= disk.value.original
      ensures !r.Finished? && expected == old(disk) && faults == old(faults) && losses == old(losses) ==>
                exists before :: Inadmissible(action, old(Here()), before)
      ensures r.Pending? && faults == old(faults) ==> AllSame(old(now), now)
    {
      var existing := disk;
      if existing != expected { return Stopped; }
      var before := Read();
      if before.None? { return Stopped; }
      match action {
        case Apply(preferred) => r := PerformApply(preferred, before.value);
        case Restore => r := PerformRestore(before.value);
      }
    }

    method PerformApply(preferred: Id, before: Snapshot) returns (r: Result)
      requires Safe() && Reflects(before, now)
      modifies this
      ensures Safe() && old(history) <= history && now.Keys == old(now).Keys && old(faults) <= faults && old(losses) <= losses
      ensures r.Finished? ==>
                && disk.Some? && disk.value.previous == []
                && forall k | 0 <= k < |disk.value.applied| ::
                     disk.value.applied[k].id in now && Fits(disk.value.applied[k], now[disk.value.applied[k].id])
      ensures r.Finished? ==> exists after :: Completed(preferred, old(Here()), before, after, Here())
      ensures old(disk).Some? ==> disk.Some? && old(disk).value.original <= disk.value.original
      ensures !r.Finished? && faults == old(faults) && losses == old(losses) ==>
                Inadmissible(Apply(preferred), old(Here()), before)
      ensures r.Pending? && faults == old(faults) ==> AllSame(old(now), now)
    {
      var existing := disk;
      var prepared := Prepare(before, preferred, existing);
      if prepared.None? { return Stopped; }
      var (journal, request) := prepared.value;
      SavingPreparedIsGood(Here(), before, preferred);
      PreparedShape(before, preferred, existing);
      AlwaysConfirmed(before, preferred, existing);
      hide Good, Prepare, Covered, Contested, Reflects, AllSame, InForce, Fits;
      var ok := SaveJournal(journal, existing);
      if !ok { return Stopped; }
      ghost var was := old(Here());
      r := FinishApply(journal, request);
      if r.Finished? {
        ghost var after :| Finalized(journal, request, after, Here());
        assert Completed(preferred, was, before, after, Here());
      }
    }

    /** Any read that verifies the request confirms the journal. */
    static ghost predicate Confirmable(journal: Journal, request: Request) {
      forall s :: VerifyAfter(request, s) ==> Confirmed(journal, s).Some?
    }

    static lemma AlwaysConfirmed(before: Snapshot, preferred: Id, existing: Option<Journal>)
      requires Prepare(before, preferred, existing).Some?
      ensures Confirmable(Prepare(before, preferred, existing).value.0, Prepare(before, preferred, existing).value.1)
    {
      forall s | VerifyAfter(Prepare(before, preferred, existing).value.1, s)
        ensures Confirmed(Prepare(before, preferred, existing).value.0, s).Some?
      {
        VerifiedIsConfirmed(before, preferred, existing, s);
      }
    }

    method PerformRestore(before: Snapshot) returns (r: Result)
      requires Safe() && Reflects(before, now)
      modifies this
      ensures Safe() && old(history) <= history && now.Keys == old(now).Keys && old(faults) <= faults && old(losses) <= losses
      ensures if r.Finished? then disk == None && base == map[] else disk == old(disk)
      ensures r.Finished? ==> forall id | id in old(base) :: id in now && Same(old(base)[id], now[id])
      ensures !r.Finished? && Shows(before, known) && faults == old(faults) && losses == old(losses) ==>
                Inadmissible(Restore, old(Here()), before)
      ensures r.Pending? && faults == old(faults) ==> AllSame(old(now), now)
    {
      var existing := disk;
      if existing.None? { return Stopped; }
      var request := Restoration(existing.value, before);
      if request.None? { return Stopped; }
      if request.value.Some? { RestorationIsCovered(Here(), before); }
      hide Good, Restoration, Contested, Reflects, AllSame, InForce, Shows;
      r := FinishRestore(existing.value, request.value, before);
    }

    method FinishApply(journal: Journal, request: Request) returns (r: Result)
      requires Safe() && disk == Some(journal) && Covered(request, Here()) && Confirmable(journal, request)
      modifies this
      ensures Safe() && old(history) <= history && now.Keys == old(now).Keys && old(faults) <= faults && old(losses) <= losses
      ensures disk.Some? && disk.value.original == journal.original
      ensures r.Finished? ==> exists after :: Finalized(journal, request, after, Here())
      ensures r.Finished? ==> InForce(request.changes, old(now), now)
      ensures r.Finished? ==>
                && disk.value.previous == []
                && forall k | 0 <= k < |disk.value.applied| ::
                     disk.value.applied[k].id in now && Fits(disk.value.applied[k], now[disk.value.applied[k].id])
      ensures !r.Finished? && faults == old(faults) && losses == old(losses) ==> Contested(request, old(now))
      ensures r.Pending? && faults == old(faults) ==> AllSame(old(now), now)
    {
      hide Safe, Reflects, VerifyAfter, InForce, AllSame, Fits, Covered;
      var response, _, _ := Execute(request);
      if response.None? { return Stopped; }
      if !response.value.success { return Pending; }
      hide Contested;
      r := Finalize(journal, request, old(now));
    }

    /** The window's own reread, after the helper has gone. */
    method Finalize(journal: Journal, request: Request, ghost was: map<Id, Setting>) returns (r: Result)
      requires Safe() && disk == Some(journal) && Confirmable(journal, request) && InForce(request.changes, was, now)
      modifies `disk, `history, `faults, `seen, `attended
      ensures Safe() && old(history) <= history && old(faults) <= faults && !r.Pending?
      ensures disk.Some? && disk.value.original == journal.original
      ensures r.Finished? ==> exists after :: Finalized(journal, request, after, Here())
      ensures r.Finished? ==>
                && disk.value.previous == []
                && forall k | 0 <= k < |disk.value.applied| ::
                     disk.value.applied[k].id in now && Fits(disk.value.applied[k], now[disk.value.applied[k].id])
      ensures !r.Finished? && faults == old(faults) ==> Contested(request, was)
    {
      hide VerifyAfter, InForce;
      var current := Read();
      if current.None? { return Stopped; }
      if !VerifyAfter(request, current.value) {
        assert Denies(request, was, now, current.value);
        return Stopped;
      }
      var confirmed := Confirmed(journal, current.value);
      ConfirmingIsGood(Here(), current.value);
      ConfirmedAreInForce(journal, current.value, now);
      hide Good, Reflects, Confirmed, Fits;
      var ok := SaveJournal(confirmed.value, Some(journal));
      r := if ok then Finished else Stopped;
      assert ok ==> Finalized(journal, request, current.value, Here());
    }

    static lemma ConfirmedAreInForce(journal: Journal, s: Snapshot, now: map<Id, Setting>)
      requires Confirmed(journal, s).Some? && Reflects(s, now)
      ensures
        var confirmed := Confirmed(journal, s).value;
        && confirmed.previous == [] && confirmed.original == journal.original
        && forall k | 0 <= k < |confirmed.applied| :: confirmed.applied[k].id in now && Fits(confirmed.applied[k], now[confirmed.applied[k].id])
    {
    }

    method FinishRestore(journal: Journal, request: Option<Request>, ghost before: Snapshot) returns (r: Result)
      requires Safe() && disk == Some(journal) && (request.Some? ==> Covered(request.value, Here()))
      requires request.Some? ==> forall k | 0 <= k < |request.value.changes| :: request.value.changes[k].id in base
      requires Restoration(journal, before) == Some(request) && Reflects(before, now)
      modifies this
      ensures Safe() && old(history) <= history && now.Keys == old(now).Keys && old(faults) <= faults && old(losses) <= losses
      ensures if r.Finished? then disk == None && base == map[] else disk == old(disk)
      ensures r.Finished? ==> forall id | id in old(base) :: id in now && Same(old(base)[id], now[id])
      ensures !r.Finished? && Shows(before, known) && faults == old(faults) && losses == old(losses) ==>
                request.Some? && Contested(request.value, old(now))
      ensures r.Pending? && faults == old(faults) ==> AllSame(old(now), now)
    {
      hide Safe, Reflects, VerifyAfter, InForce, AllSame, Covered, Restoration, Same;
      if request.Some? {
        var response, _, _ := Execute(request.value);
        if response.None? { return Stopped; }
        if !response.value.success { return Pending; }
      }
      hide Contested;
      r := ClearIfRestored(journal, request, before, old(now));
    }

    /** The window's own reread, after which the journal may go. */
    method ClearIfRestored(journal: Journal, request: Option<Request>, ghost before: Snapshot, ghost was: map<Id, Setting>) returns (r: Result)
      requires Safe() && disk == Some(journal) && Restoration(journal, before) == Some(request) && Reflects(before, was)
      requires if request.Some? then InForce(request.value.changes, was, now) else now == was
      modifies `disk, `base, `history, `faults, `seen, `attended
      ensures Safe() && old(history) <= history && old(faults) <= faults && !r.Pending?
      ensures if r.Finished? then disk == None && base == map[] else disk == old(disk)
      ensures r.Finished? ==> forall id | id in old(base) :: id in now && Same(old(base)[id], now[id])
      ensures !r.Finished? && Shows(before, known) && faults == old(faults) ==> request.Some? && Contested(request.value, was)
    {
      hide VerifyAfter, InForce, Restoration, Good, Same, Shows;
      var current := Read();
      if current.None? { return Stopped; }
      if request.Some? && !VerifyAfter(request.value, current.value) {
        assert Denies(request.value, was, now, current.value);
        return Stopped;
      }
      hide Contested;
      if Shows(before, known) && Shows(current.value, known) {
        RestorationIsDone(journal, before, was, current.value, now, known);
      }
      if Restoration(journal, current.value) != Some(None) { return Stopped; }
      RestoredIsSame(Here(), current.value);
      var ok := ClearJournal(Some(journal));
      r := if ok then Finished else Stopped;
    }

    /** A change made outside NetLane between operations. The one that is excluded sets an
        interface by hand to a value NetLane had recorded for it, other than its original. */
    method ChangeOutside(id: Id, st: Setting)
      requires Safe() && id in now
      requires disk.Some? ==> Remembers(disk, id, st) || !Recorded(disk.value, id, st)
      modifies `now, `base, `history
      ensures Safe() && now == old(now)[id := st] && base == old(base) - {id} && old(history) <= history
    {
      OutsideIsGood(Here(), id, st);
      hide Good;
      now, base := now[id := st], base - {id};
      history := history + [Here()];
    }

    /** Power loss or a crash: of the effects since point `k`, only those up to it happened. */
    method Crash(k: nat)
      requires Safe() && k < |history|
      modifies this
      ensures Safe() && Here() == old(history)[k] && history == old(history)[..k + 1]
    {
      var p := history[k];
      history := history[..k + 1];
      now, disk, base := p.now, p.disk, p.base;
    }
  }

  datatype Op = Run(action: Action, expected: Option<Journal>) | Outside(id: Id, st: Setting)

  /** Any sequence of applications and restorations, each possibly cut short by a crash at
      any of its effects, with changes made outside in between: at every point the journal
      on disk can give every interface NetLane wrote to its own setting back. */
  method Lifetime(m: Machine, ops: seq<Op>)
    requires m.Safe()
    modifies m
    ensures m.Safe()
    ensures forall id | id in m.base :: Remembers(m.disk, id, m.base[id])
  {
    for n := 0 to |ops|
      invariant m.Safe()
    {
      var start := |m.history|;
      match ops[n] {
        case Run(action, expected) =>
          var _ := m.Perform(action, expected);
        case Outside(id, st) =>
          var excluded := m.disk.Some? && Recorded(m.disk.value, id, st) && !Remembers(m.disk, id, st);
          if id in m.now && !excluded { m.ChangeOutside(id, st); }
      }
      var crash, point: int := *, *;
      if crash && start <= point < |m.history| { m.Crash(point); }
    }
  }
}
