/** The icon cache of the window: at most two extractions at a time, at most 128 entries.

    Paths arrive as pairs of the local path and its case-folded key. An image is an identity
    with its bytes; the identity stands for what the graphics card holds until the image is
    handed back. */
module IconCache {
  import opened Common

  const CAPACITY := 128
  const WORKERS := 2
  const RECHECK := 5
  const IMAGE_BYTES := 32 * 32 * 4

  datatype Key = Key(folded: string)
  datatype Path = Path(text: string)
  datatype Pixels = Pixels(bgra: seq<nat>)

  datatype Local = Local(key: Key, path: Path)
  datatype Image = Image(id: nat, bytes: Pixels)
  datatype Entry = Entry(path: Path, image: Option<Image>, checked: Option<nat>, ticket: Option<nat>, used: nat)
  datatype Request = Request(key: Key, path: Path, ticket: nat)

  // ----- the paths of the view -----

  function Keys(paths: seq<Local>): set<Key> {
    set p | p in paths :: p.key
  }

  ghost predicate DistinctKeys(paths: seq<Local>) {
    forall a, b | 0 <= a < |paths| && 0 <= b < |paths| && paths[a].key == paths[b].key :: a == b
  }

  lemma {:induction false} KeysSize(paths: seq<Local>)
    ensures |Keys(paths)| <= |paths|
    ensures DistinctKeys(paths) ==> |Keys(paths)| == |paths|
  {
    if paths != [] {
      var before, last := paths[..|paths| - 1], paths[|paths| - 1];
      KeysSize(before);
      assert paths == before + [last];
      assert Keys(paths) == Keys(before) + {last.key};
      assert DistinctKeys(paths) ==> last.key !in Keys(before);
    }
  }

  /** The first occurrence of each key, up to the capacity. */
  function Chosen(paths: seq<Local>): seq<Local> {
    if paths == [] then []
    else
      var before, last := Chosen(paths[..|paths| - 1]), paths[|paths| - 1];
      if last.key in Keys(before) || |before| >= CAPACITY then before else before + [last]
  }

  lemma {:induction false} ChosenIsDistinct(paths: seq<Local>)
    ensures DistinctKeys(Chosen(paths)) && |Chosen(paths)| <= CAPACITY
    ensures Keys(Chosen(paths)) <= Keys(paths)
    ensures Keys(Chosen(paths)) == Keys(paths) || |Chosen(paths)| == CAPACITY
  {
    if paths != [] {
      var before, last := paths[..|paths| - 1], paths[|paths| - 1];
      ChosenIsDistinct(before);
      assert paths == before + [last];
      assert Keys(paths) == Keys(before) + {last.key};
      if last.key !in Keys(Chosen(before)) && |Chosen(before)| < CAPACITY {
        assert Keys(Chosen(paths)) == Keys(Chosen(before)) + {last.key};
      }
    }
  }

  /** A path is chosen exactly when its key is new and fewer than 128 keys came before it. */
  lemma {:induction false} ChosenExactly(paths: seq<Local>, n: nat)
    requires n < |paths|
    ensures Chosen(paths[..n + 1]) == Chosen(paths[..n]) +
              if paths[n].key !in Keys(paths[..n]) && |Keys(paths[..n])| < 128 then [paths[n]] else []
  {
    var before := paths[..n];
    assert paths[..n + 1][..n] == before;
    ChosenIsDistinct(before);
    KeysSize(Chosen(before));
    SubsetSize(Keys(Chosen(before)), Keys(before));
  }

  /** The loop over the paths: duplicates are skipped and the rest is cut off. */
  method Choose(paths: seq<Local>) returns (chosen: seq<Local>)
    ensures chosen == Chosen(paths)
  {
    chosen := [];
    var wanted: set<Key> := {};
    for n := 0 to |paths|
      invariant chosen == Chosen(paths[..n]) && wanted == Keys(chosen)
    {
      assert paths[..n + 1][..n] == paths[..n];
      if |chosen| < CAPACITY && paths[n].key !in wanted {
        wanted := wanted + {paths[n].key};
        chosen := chosen + [paths[n]];
      }
    }
    assert paths[..|paths|] == paths;
  }

  /** How many of the chosen paths have no entry. */
  function Missing(chosen: seq<Local>, present: set<Key>): nat {
    if chosen == [] then 0
    else Missing(chosen[..|chosen| - 1], present) + if chosen[|chosen| - 1].key in present then 0 else 1
  }

  lemma OneMoreAbsent(keys: set<Key>, key: Key, present: set<Key>)
    requires key !in keys
    ensures |keys + {key} - present| == |keys - present| + if key in present then 0 else 1
  {
    if key in present {
      assert keys + {key} - present == keys - present;
    } else {
      assert keys + {key} - present == (keys - present) + {key};
    }
  }

  lemma MissingStep(before: seq<Local>, last: Local, present: set<Key>)
    requires last.key !in Keys(before)
    ensures Missing(before + [last], present) == Missing(before, present) + if last.key in present then 0 else 1
    ensures |Keys(before + [last]) - present| == |Keys(before) - present| + if last.key in present then 0 else 1
  {
    var all := before + [last];
    assert all[..|all| - 1] == before;
    assert Keys(all) == Keys(before) + {last.key};
    OneMoreAbsent(Keys(before), last.key, present);
  }

  lemma {:induction false} MissingSize(chosen: seq<Local>, present: set<Key>)
    requires DistinctKeys(chosen)
    ensures Missing(chosen, present) == |Keys(chosen) - present|
  {
    if chosen == [] {
      assert Keys(chosen) == {};
    } else {
      var before, last := chosen[..|chosen| - 1], chosen[|chosen| - 1];
      NextChosen(chosen, |chosen| - 1);
      assert chosen == before + [last];
      hide Keys, Missing, DistinctKeys;
      MissingStep(before, last, present);
      MissingSize(before, present);
    }
  }

  /** What the eviction loop compares with the capacity: the entries there would be. */
  function Demand(present: set<Key>, chosen: seq<Local>): nat {
    |present| + Missing(chosen, present)
  }

  lemma DemandSize(present: set<Key>, chosen: seq<Local>)
    requires DistinctKeys(chosen)
    ensures Demand(present, chosen) == |present - Keys(chosen)| + |chosen|
  {
    var wanted := Keys(chosen);
    MissingSize(chosen, present);
    KeysSize(chosen);
    assert present == (present - wanted) + (present * wanted);
    assert wanted == (wanted - present) + (present * wanted);
  }

  /** While the demand is too large there is something to evict. */
  lemma SomeVictim(present: set<Key>, chosen: seq<Local>)
    requires DistinctKeys(chosen) && |chosen| <= CAPACITY < Demand(present, chosen)
    ensures !(present <= Keys(chosen))
  {
    DemandSize(present, chosen);
    var k :| k in present - Keys(chosen);
  }

  lemma DemandDrops(present: set<Key>, chosen: seq<Local>, victim: Key)
    requires DistinctKeys(chosen) && victim in present && victim !in Keys(chosen)
    ensures Demand(present - {victim}, chosen) == Demand(present, chosen) - 1
  {
    DemandSize(present, chosen);
    DemandSize(present - {victim}, chosen);
    assert present - {victim} - Keys(chosen) == (present - Keys(chosen)) - {victim};
  }

  /** Demand bounds what the cache holds once the chosen paths are added. */
  lemma DemandBounds(kept: map<Key, Entry>, entries: map<Key, Entry>, chosen: seq<Local>)
    requires DistinctKeys(chosen) && entries.Keys == kept.Keys + Keys(chosen)
    ensures |entries| <= Demand(kept.Keys, chosen)
  {
    DemandSize(kept.Keys, chosen);
    KeysSize(chosen);
    assert entries.Keys == (kept.Keys - Keys(chosen)) + Keys(chosen);
    assert |entries| == |entries.Keys|;
  }

  // ----- images -----

  ghost predicate Shows(entries: map<Key, Entry>, id: nat) {
    exists k :: k in entries && entries[k].image.Some? && entries[k].image.value.id == id
  }

  /** Every image made so far is shown by exactly one entry or was handed back. */
  ghost predicate Conserved(entries: map<Key, Entry>, returned: set<nat>, made: nat) {
    && (forall k | k in entries && entries[k].image.Some? ::
          entries[k].image.value.id < made && entries[k].image.value.id !in returned)
    && (forall a, b | a in entries && b in entries && entries[a].image.Some? && entries[b].image.Some?
                      && entries[a].image.value.id == entries[b].image.value.id :: a == b)
    && (forall id | id in returned :: id < made)
    && (forall id | 0 <= id < made :: id in returned || Shows(entries, id))
  }

  function IdOf(image: Option<Image>): set<nat> {
    if image.Some? then {image.value.id} else {}
  }

  lemma NoneBack(returned: set<nat>)
    ensures returned + IdOf(None) == returned && IdOf(None) !! returned
  {
  }

  function Ids(images: seq<Image>): set<nat> {
    set i | i in images :: i.id
  }

  lemma RemovingConserves(entries: map<Key, Entry>, returned: set<nat>, made: nat, victim: Key)
    requires Conserved(entries, returned, made) && victim in entries
    ensures Conserved(entries - {victim}, returned + IdOf(entries[victim].image), made)
    ensures IdOf(entries[victim].image) !! returned
  {
    var rest, back := entries - {victim}, returned + IdOf(entries[victim].image);
    forall id | 0 <= id < made && id !in back ensures Shows(rest, id) {
      var k :| k in entries && entries[k].image.Some? && entries[k].image.value.id == id;
      assert k in rest && rest[k] == entries[k];
    }
  }

  /** An entry whose image is replaced: the old one is handed back, the new one is fresh. */
  lemma ReplacingConserves(entries: map<Key, Entry>, returned: set<nat>, made: nat, key: Key, e: Entry)
    requires Conserved(entries, returned, made) && key in entries
    requires e.image.Some? ==> e.image.value.id == made
    ensures Conserved(entries[key := e], returned + IdOf(entries[key].image), if e.image.Some? then made + 1 else made)
    ensures IdOf(entries[key].image) !! returned
  {
    var next, back := entries[key := e], returned + IdOf(entries[key].image);
    forall id | 0 <= id < made && id !in back ensures Shows(next, id) {
      var k :| k in entries && entries[k].image.Some? && entries[k].image.value.id == id;
      assert k in next && next[k] == entries[k];
    }
    if e.image.Some? { assert key in next && next[key].image.value.id == made; }
  }

  /** Touching an entry, or adding one without an image, changes no image. */
  lemma TouchingConserves(entries: map<Key, Entry>, returned: set<nat>, made: nat, key: Key, e: Entry)
    requires Conserved(entries, returned, made)
    requires e.image == if key in entries then entries[key].image else None
    ensures Conserved(entries[key := e], returned, made)
  {
    var next := entries[key := e];
    forall id | 0 <= id < made && id !in returned ensures Shows(next, id) {
      var k :| k in entries && entries[k].image.Some? && entries[k].image.value.id == id;
      assert k in next && next[k].image == entries[k].image;
    }
  }

  // ----- eviction -----

  ghost predicate Stamped(entries: map<Key, Entry>, clock: nat) {
    && (forall k | k in entries :: entries[k].used <= clock)
    && (forall a, b | a in entries && b in entries && entries[a].used == entries[b].used :: a == b)
  }

  /** Only entries that are not wanted go, the least recently used ones first. */
  ghost predicate Evicted(was: map<Key, Entry>, entries: map<Key, Entry>, wanted: set<Key>, evicted: set<Key>) {
    && entries == was - evicted
    && evicted <= was.Keys - wanted
    && forall v, k | v in evicted && k in entries && k !in wanted :: was[v].used < entries[k].used
  }

  lemma EvictingOne(was: map<Key, Entry>, entries: map<Key, Entry>, wanted: set<Key>, evicted: set<Key>, victim: Key, clock: nat)
    requires Evicted(was, entries, wanted, evicted)
    requires Stamped(entries, clock)
    requires victim in entries && victim !in wanted
    requires forall k | k in entries && k !in wanted :: entries[victim].used <= entries[k].used
    ensures Evicted(was, entries - {victim}, wanted, evicted + {victim})
    ensures Stamped(entries - {victim}, clock)
    ensures victim in was && was[victim] == entries[victim]
    ensures (entries - {victim}).Keys == entries.Keys - {victim} && |entries - {victim}| == |entries| - 1
  {
    SmallerMap(entries, victim);
    var rest := entries - {victim};
    forall k | k in rest && k !in wanted ensures entries[victim].used < rest[k].used {
      assert entries[k].used != entries[victim].used;
    }
  }

  lemma SmallerMap(entries: map<Key, Entry>, k: Key)
    requires k in entries
    ensures (entries - {k}).Keys == entries.Keys - {k} && |entries - {k}| == |entries| - 1
  {
    var rest := entries - {k};
    assert rest.Keys == entries.Keys - {k};
    assert |rest| == |rest.Keys| && |entries| == |entries.Keys|;
  }

  lemma KeptAreSame(was: map<Key, Entry>, entries: map<Key, Entry>, wanted: set<Key>, evicted: set<Key>)
    requires Evicted(was, entries, wanted, evicted)
    ensures forall k | k in entries :: k in was && entries[k] == was[k]
  {
  }

  /** The images handed back are those of the entries that went, each once. */
  ghost predicate HandedBack(was: map<Key, Entry>, evicted: set<Key>, dropped: seq<Image>, before: set<nat>, returned: set<nat>) {
    && returned == before + Ids(dropped)
    && Ids(dropped) !! before && |Ids(dropped)| == |dropped|
    && forall i :: i in dropped <==> Showed(was, evicted, i)
  }

  ghost predicate Showed(was: map<Key, Entry>, keys: set<Key>, i: Image) {
    exists v :: v in keys && v in was && was[v].image == Some(i)
  }

  lemma ShowedOneMore(was: map<Key, Entry>, keys: set<Key>, k: Key, i: Image)
    requires k in was
    ensures Showed(was, keys + {k}, i) <==> Showed(was, keys, i) || was[k].image == Some(i)
  {
    if Showed(was, keys, i) {
      var v :| v in keys && v in was && was[v].image == Some(i);
      assert v in keys + {k};
    }
    assert k in keys + {k};
  }

  lemma NothingGone(was: map<Key, Entry>, wanted: set<Key>, returned: set<nat>)
    ensures Evicted(was, was, wanted, {}) && HandedBack(was, {}, [], returned, returned)
  {
  }

  lemma IdsGrow(images: seq<Image>, i: Image)
    ensures Ids(images + [i]) == Ids(images) + {i.id}
    ensures i.id !in Ids(images) ==> |Ids(images + [i])| == |Ids(images)| + 1
  {
    assert Ids(images + [i]) == Ids(images) + {i.id};
  }

  lemma HandingBack(was: map<Key, Entry>, evicted: set<Key>, dropped: seq<Image>, before: set<nat>, returned: set<nat>, victim: Key)
    requires HandedBack(was, evicted, dropped, before, returned)
    requires victim in was && IdOf(was[victim].image) !! returned
    ensures
      var image := was[victim].image;
      HandedBack(was, evicted + {victim}, if image.Some? then dropped + [image.value] else dropped,
                 before, returned + IdOf(image))
  {
    var image := was[victim].image;
    var all := if image.Some? then dropped + [image.value] else dropped;
    forall i ensures i in all <==> Showed(was, evicted + {victim}, i) {
      ShowedOneMore(was, evicted, victim, i);
    }
    IdsAfter(dropped, image, before, returned);
    hide Showed, Ids, IdOf;
  }

  lemma IdsAfter(dropped: seq<Image>, image: Option<Image>, before: set<nat>, returned: set<nat>)
    requires returned == before + Ids(dropped) && Ids(dropped) !! before && |Ids(dropped)| == |dropped|
    requires IdOf(image) !! returned && IdOf(image) !! Ids(dropped)
    ensures
      var all := if image.Some? then dropped + [image.value] else dropped;
      returned + IdOf(image) == before + Ids(all) && Ids(all) !! before && |Ids(all)| == |all|
  {
    if image.Some? {
      IdsGrow(dropped, image.value);
      hide Ids;
    } else {
      assert returned + {} == returned;
    }
  }

  // ----- tickets -----

  ghost predicate Ticketed(entries: map<Key, Entry>, issued: map<nat, Key>, clock: nat) {
    && (forall t | t in issued :: 0 < t <= clock)
    && (forall k | k in entries && entries[k].ticket.Some? ::
          entries[k].ticket.value in issued && issued[entries[k].ticket.value] == k)
  }

  lemma StampingOne(entries: map<Key, Entry>, clock: nat, key: Key, e: Entry)
    requires Stamped(entries, clock) && e.used == clock + 1
    ensures Stamped(entries[key := e], clock + 1)
  {
  }

  /** An entry that keeps its ticket, or takes the one issued now. */
  lemma TicketingOne(entries: map<Key, Entry>, issued: map<nat, Key>, clock: nat, key: Key, e: Entry)
    requires Ticketed(entries, issued, clock)
    requires e.ticket.Some? && e.ticket != Some(clock + 1) ==> key in entries && e.ticket == entries[key].ticket
    ensures Ticketed(entries[key := e], if e.ticket == Some(clock + 1) then issued[clock + 1 := key] else issued, clock + 1)
  {
  }

  lemma StillTicketed(was: map<Key, Entry>, entries: map<Key, Entry>, issued: map<nat, Key>, clock: nat)
    requires Ticketed(was, issued, clock) && forall k | k in entries :: k in was && entries[k] == was[k]
    ensures Ticketed(entries, issued, clock)
  {
  }

  ghost predicate Bounded(busy: nat, active: set<nat>, issued: map<nat, Key>) {
    busy == |active| <= WORKERS && active <= issued.Keys
  }

  lemma ActiveIsOld(active: set<nat>, entries: map<Key, Entry>, issued: map<nat, Key>, clock: nat)
    requires active <= issued.Keys && Ticketed(entries, issued, clock)
    ensures forall t | t in active :: t <= clock
    ensures forall k | k in entries && entries[k].ticket.Some? :: entries[k].ticket.value <= clock
  {
  }

  /** Never extracted, or not lately, and not being extracted. */
  predicate Due(entries: map<Key, Entry>, key: Key, now: nat) {
    key in entries ==>
      && entries[key].ticket.None?
      && (entries[key].checked.None? || now - entries[key].checked.value >= RECHECK)
  }

  function DueOnes(chosen: seq<Local>, entries: map<Key, Entry>, now: nat): seq<Local> {
    if chosen == [] then []
    else
      var last := chosen[|chosen| - 1];
      DueOnes(chosen[..|chosen| - 1], entries, now) + if Due(entries, last.key, now) then [last] else []
  }

  function Least(a: int, b: int): int {
    if a <= b then a else b
  }

  /** The requests are the first due paths, as many as there are idle workers. */
  ghost predicate Granted(requests: seq<Request>, chosen: seq<Local>, entries: map<Key, Entry>, now: nat, idle: nat) {
    var due := DueOnes(chosen, entries, now);
    && |requests| == Least(|due|, idle)
    && forall n | 0 <= n < |requests| :: requests[n].key == due[n].key
  }

  /** The path is not being extracted, and was not in the last five seconds. */
  predicate Lapsed(entries: map<Key, Entry>, key: Key, now: nat) {
    || key !in entries
    || (entries[key].ticket == None && (entries[key].checked == None || entries[key].checked.value + 5 <= now))
  }

  /** Only such paths are asked for, and every one of them while a worker is idle. */
  lemma {:induction false} AskedExactly(requests: seq<Request>, chosen: seq<Local>, entries: map<Key, Entry>, now: nat, idle: nat)
    requires Granted(requests, chosen, entries, now, idle)
    ensures |requests| <= idle
    ensures forall r | r in requests :: r.key in Keys(chosen) && Lapsed(entries, r.key, now)
    ensures |requests| < idle ==> forall l | l in chosen && Lapsed(entries, l.key, now) :: exists r :: r in requests && r.key == l.key
  {
    var due := DueOnes(chosen, entries, now);
    forall l ensures l in due <==> l in chosen && Lapsed(entries, l.key, now) { DueExactly(chosen, entries, now, l); }
    forall r | r in requests ensures r.key in Keys(chosen) && Lapsed(entries, r.key, now) {
      var n :| 0 <= n < |requests| && requests[n] == r;
      assert due[n] in due;
    }
    if |requests| < idle {
      forall l | l in chosen && Lapsed(entries, l.key, now) ensures exists r :: r in requests && r.key == l.key {
        var n :| 0 <= n < |due| && due[n] == l;
        assert requests[n] in requests;
      }
    }
  }

  lemma {:induction false} DueExactly(chosen: seq<Local>, entries: map<Key, Entry>, now: nat, l: Local)
    ensures l in DueOnes(chosen, entries, now) <==> l in chosen && Lapsed(entries, l.key, now)
  {
    if chosen != [] {
      var n := |chosen| - 1;
      DueExactly(chosen[..n], entries, now, l);
      assert chosen == chosen[..n] + [chosen[n]];
    }
  }

  function Tickets(requests: seq<Request>): set<nat> {
    set r | r in requests :: r.ticket
  }

  /** The workers busy are those that were and the ones with these requests. */
  ghost predicate Opened(before: set<nat>, requests: seq<Request>, active: set<nat>) {
    active == before + Tickets(requests)
  }

  lemma OpensOne(before: set<nat>, requests: seq<Request>, active: set<nat>, r: Request)
    requires Opened(before, requests, active)
    ensures Opened(before, requests + [r], active + {r.ticket})
  {
    assert Tickets(requests + [r]) == Tickets(requests) + {r.ticket};
  }

  lemma OpensNone(active: set<nat>)
    ensures Opened(active, [], active)
  {
  }

  /** The entries wait for these requests and no request repeats another. */
  ghost predicate Current(requests: seq<Request>, entries: map<Key, Entry>, keys: set<Key>, since: nat, upTo: nat) {
    && (forall r | r in requests ::
          since < r.ticket <= upTo && r.key in keys && r.key in entries && entries[r.key].ticket == Some(r.ticket) && entries[r.key].path == r.path)
    && |Tickets(requests)| == |requests|
  }

  /** A wanted entry keeps what was known of it and becomes the most recently used so far. */
  ghost predicate Refreshed(was: map<Key, Entry>, entries: map<Key, Entry>, l: Local, used: nat) {
    && l.key in entries && entries[l.key].used == used
    && if l.key in was then
         && entries[l.key].path == was[l.key].path && entries[l.key].image == was[l.key].image
         && entries[l.key].checked == was[l.key].checked
       else entries[l.key].path == l.path && entries[l.key].image == None && entries[l.key].checked == None
  }

  lemma StillRefreshed(was: map<Key, Entry>, before: map<Key, Entry>, after: map<Key, Entry>, l: Local, key: Key, used: nat)
    requires Refreshed(was, before, l, used) && before - {key} == after - {key} && key != l.key
    ensures Refreshed(was, after, l, used)
  {
    assert l.key in before - {key} && (before - {key})[l.key] == (after - {key})[l.key];
  }

  lemma SameElsewhere(before: map<Key, Entry>, after: map<Key, Entry>, key: Key)
    requires before - {key} == after - {key}
    ensures forall k | k in before && k != key :: k in after && after[k] == before[k]
  {
    forall k | k in before && k != key ensures k in after && after[k] == before[k] {
      assert k in before - {key} && (before - {key})[k] == (after - {key})[k];
    }
  }

  lemma NothingAsked(was: map<Key, Entry>, now: nat, idle: nat, clock: nat, entries: map<Key, Entry>)
    ensures Granted([], [], was, now, idle) && Current([], entries, {}, clock, clock)
  {
  }

  lemma NextChosen(chosen: seq<Local>, n: nat)
    requires DistinctKeys(chosen) && n < |chosen|
    ensures chosen[..n + 1] == chosen[..n] + [chosen[n]]
    ensures Keys(chosen[..n + 1]) == Keys(chosen[..n]) + {chosen[n].key}
    ensures DistinctKeys(chosen[..n])
    ensures chosen[n].key !in Keys(chosen[..n]) && forall m | 0 <= m < n :: chosen[m].key != chosen[n].key
  {
    var first := chosen[..n];
    assert forall l | l in first :: exists m :: 0 <= m < n && chosen[m] == l;
  }

  lemma NextGranted(requests: seq<Request>, request: Option<Request>, chosen: seq<Local>, n: nat,
                    was: map<Key, Entry>, before: map<Key, Entry>, now: nat, idle: nat)
    requires n < |chosen| && Granted(requests, chosen[..n], was, now, idle)
    requires chosen[n].key in was <==> chosen[n].key in before
    requires chosen[n].key in was ==> before[chosen[n].key] == was[chosen[n].key]
    requires request.Some? <==> Due(before, chosen[n].key, now) && |requests| < idle
    requires request.Some? ==> request.value.key == chosen[n].key
    ensures Granted(if request.Some? then requests + [request.value] else requests, chosen[..n + 1], was, now, idle)
  {
    assert chosen[..n + 1][..n] == chosen[..n];
  }

  lemma NextCurrent(requests: seq<Request>, request: Option<Request>, before: map<Key, Entry>, after: map<Key, Entry>,
                    keys: set<Key>, key: Key, since: nat, clock: nat)
    requires Current(requests, before, keys, since, clock) && key !in keys
    requires before - {key} == after - {key} && key in after && since <= clock
    requires request.Some? ==>
               request.value == Request(key, after[key].path, clock + 1) && after[key].ticket == Some(clock + 1)
    ensures Current(if request.Some? then requests + [request.value] else requests, after, keys + {key}, since, clock + 1)
  {
    forall r | r in requests ensures r.key in after && after[r.key] == before[r.key] {
      assert (before - {key})[r.key] == (after - {key})[r.key];
    }
    if request.Some? {
      var all := requests + [request.value];
      assert Tickets(all) == Tickets(requests) + {clock + 1};
      assert clock + 1 !in Tickets(requests);
    }
  }

  /** A picture of the right size becomes an image with a new identity. */
  function Rendered(pixels: Option<Pixels>, id: nat): Option<Image> {
    if pixels.Some? && |pixels.value.bgra| >= IMAGE_BYTES then Some(Image(id, pixels.value)) else None
  }

  predicate Waiting(entries: map<Key, Entry>, key: Key, ticket: nat) {
    key in entries && entries[key].ticket == Some(ticket)
  }

  /** The entry under `key`, and no other, has the new result; the image it showed is handed
      back unless the picture is the same. */
  ghost predicate Renewed(was: map<Key, Entry>, entries: map<Key, Entry>, key: Key, pixels: Option<Pixels>, now: nat,
                          made: nat, back: Option<Image>)
    requires key in was
  {
    && entries.Keys == was.Keys && entries - {key} == was - {key}
    && var e := entries[key];
       && e.path == was[key].path && e.used == was[key].used && e.ticket == None && e.checked == Some(now)
       && if was[key].image.Some? && pixels.Some? && was[key].image.value.bytes == pixels.value
          then e.image == was[key].image && back == None
          else back == was[key].image
               && e.image == if pixels.Some? && |pixels.value.bgra| >= 4096 then Some(Image(made, pixels.value)) else None
  }

  lemma GrantedFrom(requests: seq<Request>, chosen: seq<Local>, was: map<Key, Entry>, kept: map<Key, Entry>,
                    evicted: set<Key>, now: nat, idle: nat)
    requires Granted(requests, chosen, kept, now, idle) && kept == was - evicted && evicted !! Keys(chosen)
    ensures Granted(requests, chosen, was, now, idle)
  {
    SameDue(chosen, was, kept, now);
  }

  lemma {:induction false} SameDue(chosen: seq<Local>, a: map<Key, Entry>, b: map<Key, Entry>, now: nat)
    requires forall k | k in Keys(chosen) :: (k in a <==> k in b) && (k in a ==> a[k] == b[k])
    ensures DueOnes(chosen, a, now) == DueOnes(chosen, b, now)
  {
    if chosen != [] {
      var before, last := chosen[..|chosen| - 1], chosen[|chosen| - 1];
      assert last.key in Keys(chosen) && Keys(before) <= Keys(chosen);
      SameDue(before, a, b, now);
    }
  }

  lemma RefreshedFrom(was: map<Key, Entry>, kept: map<Key, Entry>, entries: map<Key, Entry>, l: Local, used: nat)
    requires Refreshed(kept, entries, l, used) && (l.key in was <==> l.key in kept) && (l.key in kept ==> kept[l.key] == was[l.key])
    ensures Refreshed(was, entries, l, used)
  {
  }

  lemma TicketGone(entries: map<Key, Entry>, issued: map<nat, Key>, clock: nat, key: Key, e: Entry)
    requires Ticketed(entries, issued, clock) && Stamped(entries, clock)
    requires key in entries && e.ticket == None && e.used == entries[key].used
    ensures Ticketed(entries[key := e], issued, clock) && Stamped(entries[key := e], clock)
  {
  }

  ghost predicate Awaited(entries: map<Key, Entry>, active: set<nat>) {
    forall k | k in entries && entries[k].ticket.Some? :: entries[k].ticket.value in active
  }

  lemma StillAwaited(was: map<Key, Entry>, kept: map<Key, Entry>, evicted: set<Key>, active: set<nat>)
    requires kept == was - evicted
    ensures Awaited(was, active) ==> Awaited(kept, active)
  {
  }

  /** One entry changed, the others not. */
  lemma SettingOne(entries: map<Key, Entry>, key: Key, e: Entry, active: set<nat>, now: set<nat>)
    ensures entries[key := e] - {key} == entries - {key}
    ensures entries[key := e].Keys == entries.Keys + {key}
    ensures Awaited(entries, active) && active <= now && (e.ticket.Some? ==> e.ticket.value in now || (key in entries && e.ticket == entries[key].ticket)) ==>
              Awaited(entries[key := e], now)
  {
    var next := entries[key := e];
    assert next - {key} == entries - {key};
  }

  /** The entry that waited for `ticket` has its result; nobody else waited for it. */
  lemma AwaitingLess(entries: map<Key, Entry>, issued: map<nat, Key>, clock: nat, key: Key, e: Entry, waiting: set<nat>, ticket: nat)
    requires Ticketed(entries, issued, clock)
    requires key in entries && entries[key].ticket == Some(ticket) && e.ticket == None
    ensures Awaited(entries, waiting) ==> Awaited(entries[key := e], waiting - {ticket})
  {
  }

  lemma AwaitingNothing(entries: map<Key, Entry>, issued: map<nat, Key>, clock: nat, key: Key, waiting: set<nat>, ticket: nat)
    requires Ticketed(entries, issued, clock)
    requires ticket in issued && (key in entries ==> entries[key].ticket != Some(ticket))
    ensures Awaited(entries, waiting) && issued[ticket] == key ==> Awaited(entries, waiting - {ticket})
  {
  }

  ghost predicate Untouched(was: map<Key, Entry>, entries: map<Key, Entry>, keys: set<Key>) {
    forall k | k in was && k !in keys :: k in entries && entries[k] == was[k]
  }

  lemma TouchedOne(was: map<Key, Entry>, before: map<Key, Entry>, after: map<Key, Entry>, keys: set<Key>, key: Key)
    requires Untouched(was, before, keys) && before - {key} == after - {key}
    ensures Untouched(was, after, keys + {key})
  {
    SameElsewhere(before, after, key);
  }

  ghost predicate AllRefreshed(was: map<Key, Entry>, entries: map<Key, Entry>, chosen: seq<Local>, since: nat) {
    forall n | 0 <= n < |chosen| :: Refreshed(was, entries, chosen[n], since + n + 1)
  }

  /** A path whose turn has not come is as it was. */
  lemma UnseenYet(was: map<Key, Entry>, before: map<Key, Entry>, chosen: seq<Local>, n: nat)
    requires DistinctKeys(chosen) && n < |chosen|
    requires Untouched(was, before, Keys(chosen[..n])) && before.Keys == was.Keys + Keys(chosen[..n])
    ensures chosen[n].key in was <==> chosen[n].key in before
    ensures chosen[n].key in was ==> before[chosen[n].key] == was[chosen[n].key]
  {
    NextChosen(chosen, n);
  }

  lemma RefreshedOne(was: map<Key, Entry>, before: map<Key, Entry>, after: map<Key, Entry>, chosen: seq<Local>, n: nat, since: nat)
    requires DistinctKeys(chosen) && n < |chosen| && AllRefreshed(was, before, chosen[..n], since)
    requires before - {chosen[n].key} == after - {chosen[n].key}
    requires Untouched(was, before, Keys(chosen[..n])) && Refreshed(before, after, chosen[n], since + n + 1)
    requires before.Keys == was.Keys + Keys(chosen[..n])
    ensures AllRefreshed(was, after, chosen[..n + 1], since)
  {
    hide Refreshed;
    NextChosen(chosen, n);
    UnseenYet(was, before, chosen, n);
    forall m | 0 <= m < n ensures Refreshed(was, after, chosen[m], since + m + 1) {
      assert Refreshed(was, before, chosen[..n][m], since + m + 1);
      StillRefreshed(was, before, after, chosen[m], chosen[n].key, since + m + 1);
    }
    RefreshedFrom(was, before, after, chosen[n], since + n + 1);
  }

  lemma AllRefreshedFrom(was: map<Key, Entry>, kept: map<Key, Entry>, entries: map<Key, Entry>, chosen: seq<Local>, evicted: set<Key>, since: nat)
    requires AllRefreshed(kept, entries, chosen, since) && kept == was - evicted && evicted !! Keys(chosen)
    ensures AllRefreshed(was, entries, chosen, since)
  {
    forall n | 0 <= n < |chosen| ensures Refreshed(was, entries, chosen[n], since + n + 1) {
      assert Refreshed(kept, entries, chosen[n], since + n + 1) && chosen[n].key in Keys(chosen);
      hide Refreshed;
      RefreshedFrom(was, kept, entries, chosen[n], since + n + 1);
    }
  }

  /** One path is prepared: its entry is there and the most recent, no other entry differs,
      and it is requested when it is due and a worker is idle. */
  ghost predicate Admitted(before: map<Key, Entry>, after: map<Key, Entry>, l: Local, now: nat, busy: nat, clock: nat,
                           request: Option<Request>)
  {
    && after.Keys == before.Keys + {l.key} && after - {l.key} == before - {l.key}
    && Refreshed(before, after, l, clock)
    && (request.Some? <==> Due(before, l.key, now) && busy < WORKERS)
    && after[l.key].ticket == (if request.Some? then Some(clock) else if l.key in before then before[l.key].ticket else None)
    && (request.Some? ==> request.value == Request(l.key, after[l.key].path, clock))
  }

  lemma AdmittingOne(before: map<Key, Entry>, l: Local, now: nat, busy: nat, clock: nat, entry: Entry, request: Option<Request>)
    requires
      var kept := if l.key in before then before[l.key] else Entry(l.path, None, None, None, clock);
      && (request.Some? <==> Due(before, l.key, now) && busy < WORKERS)
      && entry == kept.(used := clock, ticket := if request.Some? then Some(clock) else kept.ticket)
      && (request.Some? ==> request.value == Request(l.key, kept.path, clock))
    ensures Admitted(before, before[l.key := entry], l, now, busy, clock, request)
  {
    assert before[l.key := entry] - {l.key} == before - {l.key};
  }

  /** What holds after the first `n` chosen paths. */
  ghost predicate Progress(was: map<Key, Entry>, entries: map<Key, Entry>, chosen: seq<Local>, n: nat,
                           requests: seq<Request>, now: nat, idle: nat, since: nat)
    requires n <= |chosen|
  {
    && entries.Keys == was.Keys + Keys(chosen[..n])
    && Untouched(was, entries, Keys(chosen[..n]))
    && AllRefreshed(was, entries, chosen[..n], since)
    && Granted(requests, chosen[..n], was, now, idle)
    && Current(requests, entries, Keys(chosen[..n]), since, since + n)
  }

  lemma NoProgress(was: map<Key, Entry>, chosen: seq<Local>, now: nat, idle: nat, since: nat)
    ensures Progress(was, was, chosen, 0, [], now, idle, since)
  {
    assert chosen[..0] == [] && Keys([]) == {};
    NothingAsked(was, now, idle, since, was);
  }

  lemma ProgressOne(was: map<Key, Entry>, before: map<Key, Entry>, after: map<Key, Entry>, chosen: seq<Local>, n: nat,
                    requests: seq<Request>, request: Option<Request>, now: nat, idle: nat, since: nat)
    requires DistinctKeys(chosen) && n < |chosen| && Progress(was, before, chosen, n, requests, now, idle, since)
    requires idle <= WORKERS && Admitted(before, after, chosen[n], now, WORKERS - idle + |requests|, since + n + 1, request)
    ensures
      var all := if request.Some? then requests + [request.value] else requests;
      Progress(was, after, chosen, n + 1, all, now, idle, since)
  {
    hide Refreshed, AllRefreshed, Untouched, Granted, Current, Keys, DistinctKeys, Due, Tickets;
    NextChosen(chosen, n);
    UnseenYet(was, before, chosen, n);
    NextGranted(requests, request, chosen, n, was, before, now, idle);
    NextCurrent(requests, request, before, after, Keys(chosen[..n]), chosen[n].key, since, since + n);
    TouchedOne(was, before, after, Keys(chosen[..n]), chosen[n].key);
    RefreshedOne(was, before, after, chosen, n, since);
  }

  lemma ProgressEnds(was: map<Key, Entry>, entries: map<Key, Entry>, chosen: seq<Local>, requests: seq<Request>,
                     now: nat, idle: nat, since: nat)
    requires Progress(was, entries, chosen, |chosen|, requests, now, idle, since)
    ensures entries.Keys == was.Keys + Keys(chosen)
    ensures Untouched(was, entries, Keys(chosen)) && AllRefreshed(was, entries, chosen, since)
    ensures Granted(requests, chosen, was, now, idle) && Current(requests, entries, Keys(chosen), since, since + |chosen|)
  {
    assert chosen[..|chosen|] == chosen;
  }

  /** Tickets are issued once and for one key. */
  ghost predicate Grows(before: map<nat, Key>, after: map<nat, Key>) {
    forall t | t in before :: t in after && after[t] == before[t]
  }

  lemma GrowsOne(before: map<nat, Key>, entries: map<Key, Entry>, clock: nat, key: Key)
    requires Ticketed(entries, before, clock)
    ensures Grows(before, before) && Grows(before, before[clock + 1 := key])
  {
  }

  lemma GrowsNone(issued: map<nat, Key>)
    ensures Grows(issued, issued)
  {
  }

  lemma GrowsFurther(a: map<nat, Key>, b: map<nat, Key>, c: map<nat, Key>)
    requires Grows(a, b) && Grows(b, c)
    ensures Grows(a, c)
  {
  }

  lemma BoundedLess(busy: nat, active: set<nat>, issued: map<nat, Key>, ticket: nat)
    requires Bounded(busy, active, issued) && ticket in active
    ensures ticket in issued && busy > 0 && Bounded(busy - 1, active - {ticket}, issued)
  {
  }

  /** What a rendering does to the entries. Only entries that are not wanted go, the least
      recently used first and no more than needed; the wanted ones are there and the most
      recent; nothing else changes; the first due ones are requested. */
  ghost predicate Prepared(was: map<Key, Entry>, entries: map<Key, Entry>, chosen: seq<Local>, requests: seq<Request>,
                           now: nat, idle: nat, since: nat, evicted: set<Key>)
  {
    && Evicted(was, was - evicted, Keys(chosen), evicted)
    && (evicted != {} ==> Demand((was - evicted).Keys, chosen) == CAPACITY)
    && entries.Keys == (was - evicted).Keys + Keys(chosen)
    && Untouched(was - evicted, entries, Keys(chosen))
    && AllRefreshed(was, entries, chosen, since)
    && Granted(requests, chosen, was, now, idle)
    && Current(requests, entries, Keys(chosen), since, since + |chosen|)
  }

  lemma PreparedFrom(was: map<Key, Entry>, kept: map<Key, Entry>, entries: map<Key, Entry>, chosen: seq<Local>,
                     requests: seq<Request>, now: nat, idle: nat, since: nat, evicted: set<Key>)
    requires Evicted(was, kept, Keys(chosen), evicted)
    requires evicted != {} ==> Demand(kept.Keys, chosen) == CAPACITY
    requires entries.Keys == kept.Keys + Keys(chosen) && Untouched(kept, entries, Keys(chosen))
    requires AllRefreshed(kept, entries, chosen, since) && Granted(requests, chosen, kept, now, idle)
    requires Current(requests, entries, Keys(chosen), since, since + |chosen|)
    ensures Prepared(was, entries, chosen, requests, now, idle, since, evicted)
  {
    GrantedFrom(requests, chosen, was, kept, evicted, now, idle);
    AllRefreshedFrom(was, kept, entries, chosen, evicted, since);
  }

  class Icons {
    const enabled: bool
    var entries: map<Key, Entry>
    var clock: nat
    var busy: nat
    var active: set<nat>
    /** The number of images made so far: the next identity. */
    var made: nat
    ghost var issued: map<nat, Key>
    ghost var returned: set<nat>

    ghost predicate Valid()
      reads this
    {
      && |entries| <= CAPACITY
      && Bounded(busy, active, issued)
      && Stamped(entries, clock)
      && Ticketed(entries, issued, clock)
      && Conserved(entries, returned, made)
    }

    /** No entry waits for an extraction that is over. */
    ghost predicate Settled()
      reads this
    {
      Awaited(entries, active)
    }

    constructor (enabled: bool)
      ensures Valid() && Settled() && active == {} && returned == {} && this.enabled == enabled && entries == map[]
    {
      this.enabled := enabled;
      entries, clock, busy, active, made, issued, returned := map[], 0, 0, {}, 0, map[], {};
    }

    /** `min_by_key` over the entries that are not wanted. */
    method Oldest(wanted: set<Key>) returns (victim: Option<Key>)
      ensures victim.None? <==> entries.Keys <= wanted
      ensures victim.Some? ==>
                && victim.value in entries && victim.value !in wanted
                && forall k | k in entries && k !in wanted :: entries[victim.value].used <= entries[k].used
    {
      victim := None;
      var left := entries.Keys;
      while left != {}
        invariant left <= entries.Keys
        invariant victim.None? ==> entries.Keys - left <= wanted
        invariant victim.Some? ==>
                    && victim.value in entries && victim.value !in wanted
                    && forall k | k in entries && k !in wanted && k !in left :: entries[victim.value].used <= entries[k].used
      {
        var k :| k in left;
        left := left - {k};
        if k !in wanted && (victim.None? || entries[k].used < entries[victim.value].used) { victim := Some(k); }
      }
    }

    method EvictOne(wanted: set<Key>, ghost was: map<Key, Entry>, ghost evicted: set<Key>, victim: Key,
                    ghost before: map<Key, Entry>, ghost back: set<nat>)
      returns (image: Option<Image>)
      requires before == entries && back == returned
      requires victim in entries && victim !in wanted
      requires forall k | k in entries && k !in wanted :: entries[victim].used <= entries[k].used
      requires Evicted(was, entries, wanted, evicted) && Conserved(entries, returned, made) && Stamped(entries, clock)
      modifies `entries, `returned
      ensures entries.Keys == before.Keys - {victim} && |entries| == |before| - 1
      ensures victim in was && image == was[victim].image
      ensures Evicted(was, entries, wanted, evicted + {victim})
      ensures Conserved(entries, returned, made) && Stamped(entries, clock)
      ensures IdOf(image) !! back && returned == back + IdOf(image)
    {
      hide Conserved, Stamped, Evicted, IdOf;
      RemovingConserves(entries, returned, made, victim);
      EvictingOne(was, entries, wanted, evicted, victim, clock);
      image := entries[victim].image;
      entries := entries - {victim};
      returned := returned + IdOf(image);
    }

    /** The eviction loop. The `break` of the source is dead: with a wanted set within the
        capacity there always is a victim. */
    method Evict(chosen: seq<Local>, ghost was: map<Key, Entry>, ghost back: set<nat>)
      returns (dropped: seq<Image>, ghost evicted: set<Key>)
      requires was == entries && back == returned
      requires Valid() && DistinctKeys(chosen) && |chosen| <= CAPACITY
      modifies `entries, `returned
      ensures Valid()
      ensures Evicted(was, entries, Keys(chosen), evicted)
      ensures HandedBack(was, evicted, dropped, back, returned)
      ensures Demand(entries.Keys, chosen) <= CAPACITY
      ensures evicted != {} ==> Demand(entries.Keys, chosen) == CAPACITY
    {
      hide Conserved, Ticketed, Bounded, HandedBack, Keys, Demand, Evicted, Stamped;
      var wanted := Keys(chosen);
      dropped, evicted := [], {};
      NothingGone(entries, wanted, returned);
      while Demand(entries.Keys, chosen) > CAPACITY
        invariant Evicted(was, entries, wanted, evicted)
        invariant HandedBack(was, evicted, dropped, back, returned)
        invariant Conserved(entries, returned, made) && Stamped(entries, clock)
        invariant |entries| <= CAPACITY
        invariant evicted != {} ==> Demand(entries.Keys, chosen) >= CAPACITY
        decreases |entries|
      {
        SomeVictim(entries.Keys, chosen);
        var victim := Oldest(wanted);
        if victim.None? {
          assert false;
          break;
        }
        DemandDrops(entries.Keys, chosen, victim.value);
        ghost var present, sofar := entries.Keys, returned;
        var image := EvictOne(wanted, was, evicted, victim.value, entries, sofar);
        assert entries.Keys == present - {victim.value};
        HandingBack(was, evicted, dropped, back, sofar, victim.value);
        evicted := evicted + {victim.value};
        if image.Some? { dropped := dropped + [image.value]; }
      }
      KeptAreSame(was, entries, wanted, evicted);
      StillTicketed(was, entries, issued, clock);
    }

    /** All of `Valid` but the capacity. */
    ghost predicate Sound()
      reads this
    {
      Bounded(busy, active, issued) && Stamped(entries, clock) && Ticketed(entries, issued, clock)
      && Conserved(entries, returned, made)
    }

    method AdmitOne(l: Local, now: nat, ghost before: map<Key, Entry>, ghost working: nat) returns (request: Option<Request>)
      requires before == entries && working == busy
      requires Sound()
      modifies `entries, `clock, `busy, `active, `issued
      ensures Sound() && (old(Settled()) ==> Settled())
      ensures clock == old(clock) + 1
      ensures Admitted(before, entries, l, now, working, clock, request)
      ensures busy == working + if request.Some? then 1 else 0
      ensures Grows(old(issued), issued)
      ensures request.None? ==> active == old(active)
      ensures request.Some? ==> active == old(active) + {request.value.ticket}
    {
      hide Conserved, Stamped, Ticketed, Awaited, Admitted, Grows;
      var key := l.key;
      ghost var clock0 := clock;
      clock := clock + 1;
      GrowsOne(issued, entries, clock0, key);
      ActiveIsOld(active, entries, issued, clock0);
      var entry := if key in entries then entries[key] else Entry(l.path, None, None, None, clock);
      entry := entry.(used := clock);
      request := None;
      if busy < WORKERS && entry.ticket.None? && (entry.checked.None? || now - entry.checked.value >= RECHECK) {
        entry := entry.(ticket := Some(clock));
        busy := busy + 1;
        active := active + {clock};
        issued := issued[clock := key];
        request := Some(Request(key, entry.path, clock));
      }
      TouchingConserves(entries, returned, made, key, entry);
      StampingOne(entries, clock0, key, entry);
      TicketingOne(entries, old(issued), clock0, key, entry);
      SettingOne(entries, key, entry, old(active), active);
      AdmittingOne(entries, l, now, working, clock, entry, request);
      entries := entries[key := entry];
    }

    method Admit(chosen: seq<Local>, now: nat, ghost was: map<Key, Entry>, ghost idle: nat, ghost since: nat)
      returns (requests: seq<Request>)
      requires Sound() && DistinctKeys(chosen)
      requires was == entries && idle + busy == WORKERS && since == clock
      modifies `entries, `clock, `busy, `active, `issued
      ensures Sound() && (old(Settled()) ==> Settled())
      ensures entries.Keys == was.Keys + Keys(chosen)
      ensures Untouched(was, entries, Keys(chosen))
      ensures AllRefreshed(was, entries, chosen, since)
      ensures Granted(requests, chosen, was, now, idle)
      ensures Current(requests, entries, Keys(chosen), since, since + |chosen|)
      ensures Opened(old(active), requests, active) && Grows(old(issued), issued)
    {
      ghost var active0, issued0 := active, issued;
      hide Bounded, Stamped, Ticketed, Conserved, Refreshed, Due, Awaited, Progress, Opened, Admitted, Grows;
      hide Untouched, AllRefreshed, Granted, Current, Keys, DistinctKeys;
      requests := [];
      NoProgress(was, chosen, now, idle, since);
      OpensNone(active);
      GrowsNone(issued);
      for n := 0 to |chosen|
        invariant Sound() && (old(Settled()) ==> Settled())
        invariant clock == since + n && busy + idle == WORKERS + |requests|
        invariant Progress(was, entries, chosen, n, requests, now, idle, since)
        invariant Opened(active0, requests, active) && Grows(issued0, issued)
      {
        ghost var before, working, known := entries, active, issued;
        var request := AdmitOne(chosen[n], now, entries, busy);
        ProgressOne(was, before, entries, chosen, n, requests, request, now, idle, since);
        GrowsFurther(issued0, known, issued);
        if request.Some? {
          OpensOne(active0, requests, working, request.value);
          requests := requests + [request.value];
        }
      }
      ProgressEnds(was, entries, chosen, requests, now, idle, since);
    }

    /** One rendering of a view that shows `paths`. */
    method Prepare(paths: seq<Local>, now: nat)
      returns (requests: seq<Request>, dropped: seq<Image>, ghost evicted: set<Key>)
      requires Valid()
      modifies `entries, `clock, `busy, `active, `issued, `returned
      ensures Valid() && (old(Settled()) ==> Settled())
      ensures !enabled ==> entries == old(entries) && returned == old(returned) && requests == [] && dropped == []
      ensures Opened(old(active), requests, active) && Grows(old(issued), issued)
      ensures enabled ==> HandedBack(old(entries), evicted, dropped, old(returned), returned)
      ensures enabled ==>
                old(busy) <= 2 && Prepared(old(entries), entries, Chosen(paths), requests, now, 2 - old(busy), old(clock), evicted)
    {
      if !enabled {
        OpensNone(active);
        GrowsNone(issued);
        return [], [], {};
      }
      var chosen := Choose(paths);
      ChosenIsDistinct(paths);
      assert busy <= WORKERS;
      hide Bounded, Stamped, Ticketed, Conserved, Awaited, Prepared, Opened, HandedBack, Chosen, Grows, DistinctKeys;
      requests, dropped, evicted := PrepareChosen(chosen, now, entries, returned, WORKERS - busy, clock);
    }

    method PrepareChosen(chosen: seq<Local>, now: nat, ghost was: map<Key, Entry>, ghost back: set<nat>, ghost idle: nat,
                         ghost since: nat)
      returns (requests: seq<Request>, dropped: seq<Image>, ghost evicted: set<Key>)
      requires Valid() && DistinctKeys(chosen) && |chosen| <= CAPACITY
      requires was == entries && back == returned && idle + busy == WORKERS && since == clock
      modifies `entries, `clock, `busy, `active, `issued, `returned
      ensures Valid() && (old(Settled()) ==> Settled())
      ensures Opened(old(active), requests, active) && Grows(old(issued), issued)
      ensures HandedBack(was, evicted, dropped, back, returned)
      ensures Prepared(was, entries, chosen, requests, now, idle, since, evicted)
    {
      hide Stamped, Ticketed, Conserved, Missing, Awaited, Prepared, Opened, HandedBack, Grows;
      dropped, evicted := Evict(chosen, was, back);
      StillAwaited(was, entries, evicted, active);
      hide Demand, Keys, Granted, Current, Untouched, AllRefreshed, Evicted, DistinctKeys;
      ghost var kept := entries;
      requests := Admit(chosen, now, kept, idle, since);
      DemandBounds(kept, entries, chosen);
      PreparedFrom(was, kept, entries, chosen, requests, now, idle, since, evicted);
    }

    /** An extraction ends. Whatever ticket it carries, only the entry that waits for that
        ticket may change, and an image that is replaced is handed back. */
    method Complete(key: Key, ticket: nat, pixels: Option<Pixels>, now: nat) returns (back: Option<Image>)
      requires Valid()
      modifies `entries, `busy, `active, `made, `returned
      ensures Valid()
      ensures active == old(active) - {ticket}
      ensures returned == old(returned) + IdOf(back) && IdOf(back) !! old(returned)
      ensures ticket !in old(active) ==> busy == old(busy)
      ensures
        if ticket !in old(active) || !Waiting(old(entries), key, ticket) then
          entries == old(entries) && back == None && made == old(made)
        else Renewed(old(entries), entries, key, pixels, now, old(made), back)
      ensures old(Settled()) && (ticket in old(active) ==> issued[ticket] == key) ==> Settled()
    {
      back := None;
      NoneBack(returned);
      hide Conserved, Stamped, Ticketed, Awaited, Renewed, Bounded, IdOf;
      if ticket !in active {
        assert active - {ticket} == active;
        return;
      }
      BoundedLess(busy, active, issued, ticket);
      ghost var waiting := active;
      active := active - {ticket};
      busy := busy - 1;
      if key !in entries || entries[key].ticket != Some(ticket) {
        AwaitingNothing(entries, issued, clock, key, waiting, ticket);
        return;
      }
      back := Renew(key, ticket, pixels, now, waiting);
    }

    /** The entry that waited for the ticket takes the result. */
    method Renew(key: Key, ticket: nat, pixels: Option<Pixels>, now: nat, ghost waiting: set<nat>) returns (back: Option<Image>)
      requires Valid() && Waiting(entries, key, ticket) && active == waiting - {ticket}
      modifies `entries, `made, `returned
      ensures Valid() && Renewed(old(entries), entries, key, pixels, now, old(made), back)
      ensures returned == old(returned) + IdOf(back) && IdOf(back) !! old(returned)
      ensures Awaited(old(entries), waiting) ==> Settled()
    {
      hide Conserved, Stamped, Ticketed, Awaited, Bounded;
      var entry := entries[key].(ticket := None, checked := Some(now));
      if entry.image.Some? && pixels.Some? && entry.image.value.bytes == pixels.value {
        TouchingConserves(entries, returned, made, key, entry);
        Finish(key, ticket, entry, waiting);
        return None;
      }
      var image := Rendered(pixels, made);
      back := entry.image;
      entry := entry.(image := image);
      ReplacingConserves(entries, returned, made, key, entry);
      if image.Some? { made := made + 1; }
      returned := returned + IdOf(back);
      Finish(key, ticket, entry, waiting);
    }

    /** The entry's new value is put in place. */
    method Finish(key: Key, ticket: nat, entry: Entry, ghost waiting: set<nat>)
      requires active == waiting - {ticket}
      requires Bounded(busy, active, issued) && Stamped(entries, clock) && Ticketed(entries, issued, clock)
      requires key in entries && entries[key].ticket == Some(ticket) && |entries| <= CAPACITY
      requires entry.ticket == None && entry.used == entries[key].used
      requires Conserved(entries[key := entry], returned, made)
      modifies `entries
      ensures Valid() && entries == old(entries)[key := entry]
      ensures entries.Keys == old(entries).Keys && entries - {key} == old(entries) - {key}
      ensures Awaited(old(entries), waiting) ==> Settled()
    {
      hide Conserved, Stamped, Ticketed, Awaited;
      TicketGone(entries, issued, clock, key, entry);
      SettingOne(entries, key, entry, active, active);
      AwaitingLess(entries, issued, clock, key, entry, waiting, ticket);
      assert entries[key := entry].Keys == entries.Keys;
      entries := entries[key := entry];
    }
  }

  datatype Op = Show(paths: seq<Local>, now: nat) | End(n: nat, pixels: Option<Pixels>, now: nat)

  /** The requests that are being worked on are the active tickets, each under its key. */
  ghost predicate Working(outstanding: seq<Request>, active: set<nat>, issued: map<nat, Key>) {
    && Tickets(outstanding) == active && |outstanding| == |active|
    && forall r | r in outstanding :: r.ticket in issued && issued[r.ticket] == r.key
  }

  /** The new requests join: their tickets are new, and issued under their keys. */
  lemma WorkStarts(outstanding: seq<Request>, requests: seq<Request>, active: set<nat>, issued: map<nat, Key>, since: nat,
                   entries: map<Key, Entry>, keys: set<Key>, upTo: nat, clock: nat, now: set<nat>, known: map<nat, Key>)
    requires Working(outstanding, active, issued) && (forall t | t in active :: t <= since)
    requires Current(requests, entries, keys, since, upTo) && Ticketed(entries, known, clock)
    requires Grows(issued, known) && Opened(active, requests, now)
    ensures Working(outstanding + requests, now, known)
  {
    var all := outstanding + requests;
    assert Tickets(all) == Tickets(outstanding) + Tickets(requests);
    assert Tickets(outstanding) !! Tickets(requests);
  }

  lemma WorkEnds(outstanding: seq<Request>, active: set<nat>, issued: map<nat, Key>, n: nat)
    requires Working(outstanding, active, issued) && n < |outstanding|
    ensures outstanding[n].ticket in active && issued[outstanding[n].ticket] == outstanding[n].key
    ensures Working(outstanding[..n] + outstanding[n + 1..], active - {outstanding[n].ticket}, issued)
  {
    var left, r := outstanding[..n] + outstanding[n + 1..], outstanding[n];
    assert outstanding == outstanding[..n] + [r] + outstanding[n + 1..];
    assert Tickets(outstanding) == Tickets(left) + {r.ticket};
    TicketsSize(left);
    assert r.ticket in Tickets(left) ==> Tickets(outstanding) == Tickets(left);
  }

  lemma {:induction false} TicketsSize(requests: seq<Request>)
    ensures |Tickets(requests)| <= |requests|
  {
    if requests != [] {
      var before, last := requests[..|requests| - 1], requests[|requests| - 1];
      TicketsSize(before);
      assert requests == before + [last];
      assert Tickets(requests) == Tickets(before) + {last.ticket};
    }
  }

  /** More images, none of which was among the earlier ones. */
  lemma IdsJoin(images: seq<Image>, more: seq<Image>)
    requires Ids(images) !! Ids(more) && |Ids(images)| == |images| && |Ids(more)| == |more|
    ensures Ids(images + more) == Ids(images) + Ids(more) && |Ids(images + more)| == |images + more|
  {
    assert Ids(images + more) == Ids(images) + Ids(more);
  }

  /** Any run of renderings and of extractions that end in any order with any result: the
      cache stays within its bounds, no entry waits for nothing, and when all extractions
      have ended no worker is taken. Of all images made, `handed` lists the ones handed back,
      each once, and the others are the ones still shown. After a rendering every chosen path has
      its entry. */
  method Lifetime(icons: Icons, ops: seq<Op>) returns (outstanding: seq<Request>, handed: seq<Image>)
    requires icons.Valid() && icons.Settled() && icons.active == {} && icons.returned == {}
    modifies icons
    ensures icons.Valid() && |icons.entries| <= 128 && icons.busy == |outstanding| <= 2
    ensures Tickets(outstanding) == icons.active
    ensures forall k | k in icons.entries && icons.entries[k].ticket.Some? ::
              exists r :: r in outstanding && r.ticket == icons.entries[k].ticket.value
    ensures Ids(handed) == icons.returned && |Ids(handed)| == |handed|
    ensures forall id | 0 <= id < icons.made :: id in Ids(handed) <==> !Shows(icons.entries, id)
    ensures icons.enabled && ops != [] && ops[|ops| - 1].Show? ==> Keys(Chosen(ops[|ops| - 1].paths)) <= icons.entries.Keys
  {
    hide Conserved, Stamped, Ticketed, Shows, Chosen;
    outstanding, handed := [], [];
    assert Tickets(outstanding) == {} && Ids(handed) == {};
    for i := 0 to |ops|
      invariant icons.Valid() && icons.Settled() && Working(outstanding, icons.active, icons.issued)
      invariant Ids(handed) == icons.returned && |Ids(handed)| == |handed|
      invariant icons.enabled && i > 0 && ops[i - 1].Show? ==> Keys(Chosen(ops[i - 1].paths)) <= icons.entries.Keys
    {
      match ops[i] {
        case Show(paths, now) =>
          var requests, dropped := ShowOnce(icons, paths, now, outstanding);
          IdsJoin(handed, dropped);
          outstanding, handed := outstanding + requests, handed + dropped;
        case End(n, pixels, now) =>
          if n < |outstanding| {
            var back := EndOnce(icons, outstanding, n, pixels, now);
            IdsJoin(handed, back);
            outstanding, handed := outstanding[..n] + outstanding[n + 1..], handed + back;
          }
      }
    }
    HandedOrShown(icons.entries, icons.returned, icons.made);
  }

  lemma IdsOfOne(i: Image)
    ensures Ids([i]) == {i.id}
  {
  }

  lemma HandedOrShown(entries: map<Key, Entry>, returned: set<nat>, made: nat)
    requires Conserved(entries, returned, made)
    ensures forall id | 0 <= id < made :: id in returned <==> !Shows(entries, id)
  {
  }

  /** One extraction that ends, and the image it replaces, if any. */
  method EndOnce(icons: Icons, outstanding: seq<Request>, n: nat, pixels: Option<Pixels>, now: nat) returns (back: seq<Image>)
    requires icons.Valid() && icons.Settled() && Working(outstanding, icons.active, icons.issued) && n < |outstanding|
    modifies icons
    ensures icons.Valid() && icons.Settled()
    ensures Working(outstanding[..n] + outstanding[n + 1..], icons.active, icons.issued)
    ensures icons.returned == old(icons.returned) + Ids(back)
    ensures Ids(back) !! old(icons.returned) && |Ids(back)| == |back|
  {
    var r := outstanding[n];
    WorkEnds(outstanding, icons.active, icons.issued, n);
    var image := icons.Complete(r.key, r.ticket, pixels, now);
    back := if image.Some? then [image.value] else [];
    if image.Some? { IdsOfOne(image.value); } else { assert Ids([]) == {}; }
  }

  /** One rendering, and the work it starts. */
  method ShowOnce(icons: Icons, paths: seq<Local>, now: nat, ghost outstanding: seq<Request>)
    returns (requests: seq<Request>, dropped: seq<Image>)
    requires icons.Valid() && icons.Settled() && Working(outstanding, icons.active, icons.issued)
    modifies icons
    ensures icons.Valid() && icons.Settled() && Working(outstanding + requests, icons.active, icons.issued)
    ensures icons.returned == old(icons.returned) + Ids(dropped)
    ensures Ids(dropped) !! old(icons.returned) && |Ids(dropped)| == |dropped|
    ensures icons.enabled ==> Keys(Chosen(paths)) <= icons.entries.Keys
  {
    ghost var active, issued, since := icons.active, icons.issued, icons.clock;
    ActiveIsOld(active, icons.entries, issued, since);
    ghost var evicted;
    requests, dropped, evicted := icons.Prepare(paths, now);
    ghost var chosen := if icons.enabled then Chosen(paths) else [];
    assert Current(requests, icons.entries, Keys(chosen), since, since + |chosen|);
    WorkStarts(outstanding, requests, active, issued, since,
               icons.entries, Keys(chosen), since + |chosen|, icons.clock, icons.active, icons.issued);
    assert !icons.enabled ==> Ids(dropped) == {};
  }
}
