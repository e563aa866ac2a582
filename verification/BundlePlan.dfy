/** Which captures an investigation needs, and the checks made before any file is written. */
module BundlePlan {
  import opened Common

  const MAX_CAPTURES := 128
  const MAX_CAPTURE_BYTES := 64 * 1024 * 1024 * 1024
  const MAX_DUMP_RECORDS := 100000000
  const MAX_PROVENANCE := 4096
  const HASH := 64

  type Hash = string
  datatype Format = Pcap | PcapNg | Unsupported
  datatype FileName = FileName(hash: Hash, pcap: bool)

  /** What the plan reads of a context and of a notebook. `valid` stands for what else their
      own validation asks. */
  datatype Context = Context(sha256: Hash, baseline: Option<Hash>, totalPackets: nat, format: Format, valid: bool)
  datatype Turn = Turn(id: nat, context: Context, hasReport: bool)
  datatype Notebook = Notebook(turns: seq<Turn>, notes: seq<Context>, valid: bool)

  datatype Source = Source(path: nat, sha256: Hash, bytes: nat, packets: nat, format: Format, provenance: Option<string>)
  datatype Entry = Entry(file: FileName, sha256: Hash, bytes: nat, packets: nat, format: Format, provenance: Option<string>)

  const MAX_TURNS := 96
  const MAX_NOTES := 32

  /** Not empty, bounded, and the turns numbered from one. */
  predicate ValidBook(book: Notebook) {
    && book.valid
    && (book.turns != [] || book.notes != [])
    && |book.turns| <= MAX_TURNS && |book.notes| <= MAX_NOTES
    && forall k | 0 <= k < |book.turns| :: book.turns[k].id == k + 1
  }

  function Lower(h: Hash): Hash {
    seq(|h|, k requires 0 <= k < |h| => LowerChar(h[k]))
  }

  function EntryOf(s: Source): Entry {
    Entry(FileName(Lower(s.sha256), s.format.Pcap?), Lower(s.sha256), s.bytes, s.packets, s.format, s.provenance)
  }

  function Contexts(book: Notebook, current: Context): seq<Context> {
    seq(|book.turns|, k requires 0 <= k < |book.turns| => book.turns[k].context) + book.notes + [current]
  }

  function Hashes(c: Context): set<Hash> {
    {Lower(c.sha256)} + if c.baseline.Some? then {Lower(c.baseline.value)} else {}
  }

  /** Every capture and every baseline that a turn, a note or the current context speaks of. */
  function Required(book: Notebook, current: Context): set<Hash> {
    set c, h | c in Contexts(book, current) && h in Hashes(c) :: h
  }

  predicate LowerHex(h: Hash) {
    |h| == HASH && forall k | 0 <= k < HASH :: '0' <= h[k] <= '9' || 'a' <= h[k] <= 'f'
  }

  predicate WellFormed(e: Entry) {
    && LowerHex(e.sha256)
    && !e.format.Unsupported?
    && 0 < e.bytes <= MAX_CAPTURE_BYTES
    && e.packets <= MAX_DUMP_RECORDS
    && (e.provenance.Some? ==> |e.provenance.value| <= MAX_PROVENANCE)
    && e.file == FileName(e.sha256, e.format.Pcap?)
  }

  predicate Refers(c: Context, h: Hash) {
    h == Lower(c.sha256) || (c.baseline.Some? && h == Lower(c.baseline.value))
  }

  /** A capture is needed exactly when a turn, a note or the current context refers to it. */
  lemma RequiredExactly(book: Notebook, current: Context, h: Hash)
    ensures h in Required(book, current) <==>
              || Refers(current, h)
              || (exists k :: 0 <= k < |book.turns| && Refers(book.turns[k].context, h))
              || (exists k :: 0 <= k < |book.notes| && Refers(book.notes[k], h))
  {
    var contexts := Contexts(book, current);
    forall c ensures h in Hashes(c) <==> Refers(c, h) {}
    if k :| 0 <= k < |book.turns| && Refers(book.turns[k].context, h) { assert contexts[k] == book.turns[k].context; }
    if k :| 0 <= k < |book.notes| && Refers(book.notes[k], h) { assert contexts[|book.turns| + k] == book.notes[k]; }
    assert contexts[|contexts| - 1] == current;
    hide Lower;
  }

  /** A selection is complete only if each context finds its own capture in it: the same
      hash, as many packets, the same format. */
  lemma EveryContextIsDescribed(book: Notebook, current: Context, captures: seq<Entry>, c: Context)
    requires Complete(book, current, captures)
    requires c == current || c in book.notes || exists k :: 0 <= k < |book.turns| && book.turns[k].context == c
    ensures exists e :: e in captures && e.sha256 == Lower(c.sha256) && e.packets == c.totalPackets && e.format == c.format
  {
    var contexts := Contexts(book, current);
    assert contexts[|contexts| - 1] == current;
    if c in book.notes {
      var k :| 0 <= k < |book.notes| && book.notes[k] == c;
      assert contexts[|book.turns| + k] == c;
    } else if c != current {
      var k :| 0 <= k < |book.turns| && book.turns[k].context == c;
      assert contexts[k] == c;
    }
    assert c in contexts;
    hide Contexts, Lower;
    var k :| 0 <= k < |captures| && Describes(captures[k], c);
  }

  /** A notebook of at most 96 turns, numbered from one, and 32 notes, but not empty. */
  lemma BooksExactly(book: Notebook)
    ensures ValidBook(book) <==>
              && book.valid && |book.turns| <= 96 && |book.notes| <= 32 && |book.turns| + |book.notes| > 0
              && forall k | 0 <= k < |book.turns| :: book.turns[k].id == k + 1
  {
  }

  predicate HexDigit(c: char) {
    '0' <= c <= '9' || 'a' <= c <= 'f' || 'A' <= c <= 'F'
  }

  /** Which sources can be named in a manifest at all. */
  lemma NameableExactly(s: Source)
    ensures WellFormed(EntryOf(s)) <==>
              && |s.sha256| == 64 && (forall k | 0 <= k < 64 :: HexDigit(s.sha256[k]))
              && (s.format.Pcap? || s.format.PcapNg?)
              && 0 < s.bytes <= 68719476736 && s.packets <= 100000000
              && (s.provenance.Some? ==> |s.provenance.value| <= 4096)
    ensures
      var e := EntryOf(s);
      && |e.sha256| == |s.sha256| && (forall k | 0 <= k < |s.sha256| :: SameLetter(e.sha256[k], s.sha256[k]))
      && e == Entry(FileName(e.sha256, s.format.Pcap?), e.sha256, s.bytes, s.packets, s.format, s.provenance)
  {
    forall k | 0 <= k < |s.sha256| { LowerIsSameLetter(EntryOf(s).sha256[k], s.sha256[k]); }
    var low := Lower(s.sha256);
    if WellFormed(EntryOf(s)) {
      forall k | 0 <= k < 64 ensures HexDigit(s.sha256[k]) { assert LowerChar(s.sha256[k]) == low[k]; }
    }
  }

  function Total(captures: seq<Entry>): nat {
    if captures == [] then 0 else Total(captures[..|captures| - 1]) + captures[|captures| - 1].bytes
  }

  function HashesOf(captures: seq<Entry>): set<Hash> {
    set e | e in captures :: e.sha256
  }

  ghost predicate Distinct(captures: seq<Entry>) {
    forall a, b | 0 <= a < |captures| && 0 <= b < |captures| && captures[a].sha256 == captures[b].sha256 :: a == b
  }

  predicate Describes(e: Entry, c: Context) {
    e.sha256 == Lower(c.sha256) && e.packets == c.totalPackets && e.format == c.format
  }

  /** Exactly the captures required, each once, each as every context says it is. */
  ghost predicate Complete(book: Notebook, current: Context, captures: seq<Entry>) {
    && ValidBook(book) && current.valid
    && 0 < |captures| <= MAX_CAPTURES
    && (forall k | 0 <= k < |captures| :: WellFormed(captures[k]))
    && Distinct(captures)
    && Total(captures) <= MAX_CAPTURE_BYTES
    && HashesOf(captures) == Required(book, current)
    && forall c | c in Contexts(book, current) :: exists k :: 0 <= k < |captures| && Describes(captures[k], c)
  }

  lemma HashesGrow(captures: seq<Entry>, e: Entry)
    ensures HashesOf(captures + [e]) == HashesOf(captures) + {e.sha256}
  {
  }

  lemma DistinctGrows(captures: seq<Entry>, n: nat)
    requires n < |captures| && Distinct(captures[..n])
    ensures Distinct(captures[..n + 1]) <==> captures[n].sha256 !in HashesOf(captures[..n])
  {
    var before, all := captures[..n], captures[..n + 1];
    assert all == before + [captures[n]];
    if captures[n].sha256 in HashesOf(before) {
      var e :| e in before && e.sha256 == captures[n].sha256;
      var a :| 0 <= a < n && before[a] == e;
      assert all[a].sha256 == all[n].sha256;
    }
  }

  lemma DistinctPrefix(captures: seq<Entry>, n: nat)
    requires n <= |captures|
    ensures Distinct(captures) ==> Distinct(captures[..n])
  {
  }

  lemma Nothing(captures: seq<Entry>)
    ensures Distinct(captures[..0]) && HashesOf(captures[..0]) == {} && Total(captures[..0]) == 0
  {
  }

  lemma OneMore(captures: seq<Entry>, n: nat)
    requires n < |captures| && Distinct(captures[..n])
    ensures Distinct(captures[..n + 1]) <==> captures[n].sha256 !in HashesOf(captures[..n])
    ensures HashesOf(captures[..n + 1]) == HashesOf(captures[..n]) + {captures[n].sha256}
    ensures Total(captures[..n + 1]) == Total(captures[..n]) + captures[n].bytes
  {
    assert captures[..n + 1] == captures[..n] + [captures[n]] && captures[..n + 1][..n] == captures[..n];
    HashesGrow(captures[..n], captures[n]);
    DistinctGrows(captures, n);
  }

  lemma {:induction false} TotalConcat(a: seq<Entry>, b: seq<Entry>)
    ensures Total(a + b) == Total(a) + Total(b)
  {
    if b == [] {
      assert a + b == a;
    } else {
      TotalConcat(a, b[..|b| - 1]);
      assert (a + b)[..|a + b| - 1] == a + b[..|b| - 1];
    }
  }

  lemma NotEmpty(b: seq<Entry>)
    ensures b != [] ==> exists e :: e in b
  {
    if b != [] { assert b[0] in b; }
  }

  /** The order of the captures does not matter. */
  lemma {:induction false} SameTotal(a: seq<Entry>, b: seq<Entry>)
    requires Distinct(a) && Distinct(b) && forall e :: e in a <==> e in b
    ensures Total(a) == Total(b) && |a| == |b|
    decreases |a|
  {
    if a == [] {
      NotEmpty(b);
    } else {
      var last, rest := a[|a| - 1], a[..|a| - 1];
      assert last in b;
      var j :| 0 <= j < |b| && b[j] == last;
      var others := b[..j] + b[j + 1..];
      assert b == b[..j] + [last] + b[j + 1..];
      TotalConcat(b[..j], [last]);
      TotalConcat(b[..j] + [last], b[j + 1..]);
      TotalConcat(b[..j], b[j + 1..]);
      assert Total([last]) == last.bytes by { assert [last][..0] == []; }
      SameOthers(a, b, j);
      SameTotal(rest, others);
    }
  }

  lemma SameOthers(a: seq<Entry>, b: seq<Entry>, j: nat)
    requires Distinct(a) && Distinct(b) && forall e :: e in a <==> e in b
    requires a != [] && j < |b| && b[j] == a[|a| - 1]
    ensures
      var rest, others := a[..|a| - 1], b[..j] + b[j + 1..];
      Distinct(rest) && Distinct(others) && forall e :: e in rest <==> e in others
  {
    var last, rest, others := a[|a| - 1], a[..|a| - 1], b[..j] + b[j + 1..];
    assert a == rest + [last] && b == b[..j] + [last] + b[j + 1..];
    forall k | 0 <= k < |others| ensures others[k] == b[if k < j then k else k + 1] {}
    assert last !in rest && last !in others;
    assert forall e :: e in a <==> e in rest || e == last;
    assert forall e :: e in b <==> e in others || e == last;
  }

  /** `find` and the two comparisons after it; a lower-case hash has one entry at most. */
  method DescribesOne(captures: seq<Entry>, c: Context) returns (ok: bool)
    requires Distinct(captures)
    ensures ok <==> exists k :: 0 <= k < |captures| && Describes(captures[k], c)
  {
    for k := 0 to |captures|
      invariant forall n | 0 <= n < k :: captures[n].sha256 != Lower(c.sha256)
    {
      if captures[k].sha256 == Lower(c.sha256) {
        return captures[k].packets == c.totalPackets && captures[k].format == c.format;
      }
    }
    ok := false;
  }

  /** The loop over the entries. */
  method CheckEntries(captures: seq<Entry>) returns (ok: bool, hashes: set<Hash>, bytes: nat)
    ensures ok <==> (forall k | 0 <= k < |captures| :: WellFormed(captures[k])) && Distinct(captures)
    ensures ok ==> hashes == HashesOf(captures) && bytes == Total(captures)
  {
    hide WellFormed, Distinct, HashesOf, Total;
    hashes, bytes := {}, 0;
    Nothing(captures);
    for n := 0 to |captures|
      invariant forall k | 0 <= k < n :: WellFormed(captures[k])
      invariant Distinct(captures[..n]) && hashes == HashesOf(captures[..n]) && bytes == Total(captures[..n])
    {
      OneMore(captures, n);
      if !WellFormed(captures[n]) { return false, hashes, bytes; }
      if captures[n].sha256 in hashes {
        DistinctPrefix(captures, n + 1);
        return false, hashes, bytes;
      }
      hashes := hashes + {captures[n].sha256};
      bytes := bytes + captures[n].bytes;
    }
    assert captures[..|captures|] == captures;
    ok := true;
  }

  method Validate(book: Notebook, current: Context, captures: seq<Entry>) returns (total: Option<nat>)
    ensures total.Some? <==> Complete(book, current, captures)
    ensures total.Some? ==> total.value == Total(captures)
  {
    if !ValidBook(book) || !current.valid { return None; }
    if |captures| == 0 || |captures| > MAX_CAPTURES { return None; }
    hide WellFormed, Describes, Distinct, HashesOf, Required, ValidBook;
    var ok, hashes, bytes := CheckEntries(captures);
    if !ok || bytes > MAX_CAPTURE_BYTES || hashes != Required(book, current) { return None; }
    var contexts := Contexts(book, current);
    for n := 0 to |contexts|
      invariant forall k | 0 <= k < n :: exists e :: 0 <= e < |captures| && Describes(captures[e], contexts[k])
    {
      var described := DescribesOne(captures, contexts[n]);
      assert contexts[n] in contexts;
      if !described { return None; }
    }
    total := Some(bytes);
  }

  // ----- the plan -----

  ghost predicate OneEach(sources: seq<Source>) {
    forall a, b | 0 <= a < |sources| && 0 <= b < |sources| && Lower(sources[a].sha256) == Lower(sources[b].sha256) :: a == b
  }

  function Entries(sources: seq<Source>): seq<Entry> {
    seq(|sources|, k requires 0 <= k < |sources| => EntryOf(sources[k]))
  }

  /** The sources by hash, unless two have the same. */
  method Index(sources: seq<Source>) returns (unique: Option<map<Hash, Source>>)
    ensures unique.Some? <==> OneEach(sources)
    ensures unique.Some? ==> forall h | h in unique.value :: unique.value[h] in sources && Lower(unique.value[h].sha256) == h
    ensures unique.Some? ==> forall s | s in sources :: Lower(s.sha256) in unique.value
  {
    var found: map<Hash, Source> := map[];
    for n := 0 to |sources|
      invariant OneEach(sources[..n])
      invariant forall h | h in found :: found[h] in sources[..n] && Lower(found[h].sha256) == h
      invariant forall k | 0 <= k < n :: Lower(sources[k].sha256) in found
    {
      var h := Lower(sources[n].sha256);
      if h in found {
        var k :| 0 <= k < n && sources[k] == found[h];
        assert Lower(sources[k].sha256) == Lower(sources[n].sha256);
        return None;
      }
      found := found[h := sources[n]];
    }
    assert sources[..|sources|] == sources;
    unique := Some(found);
  }

  ghost predicate From(chosen: seq<Source>, sources: seq<Source>) {
    forall s | s in chosen :: s in sources
  }

  /** Two selections from the same sources that cover the same hashes are equally complete. */
  lemma SelectionIsUnique(book: Notebook, current: Context, sources: seq<Source>, a: seq<Source>, b: seq<Source>)
    requires OneEach(sources) && From(a, sources) && From(b, sources)
    requires Distinct(Entries(a)) && HashesOf(Entries(a)) == Required(book, current)
    requires Complete(book, current, Entries(b))
    ensures Complete(book, current, Entries(a))
  {
    hide Required, WellFormed, Describes;
    var x, y := Entries(a), Entries(b);
    SameEntries(sources, a, b);
    SameEntries(sources, b, a);
    SameTotal(x, y);
    forall k | 0 <= k < |x| ensures WellFormed(x[k]) {
      assert x[k] in y;
    }
    forall c | c in Contexts(book, current) ensures exists k :: 0 <= k < |x| && Describes(x[k], c) {
      var n :| 0 <= n < |y| && Describes(y[n], c);
      assert y[n] in x;
    }
  }

  lemma SameEntries(sources: seq<Source>, a: seq<Source>, b: seq<Source>)
    requires OneEach(sources) && From(a, sources) && From(b, sources)
    requires HashesOf(Entries(a)) <= HashesOf(Entries(b))
    ensures forall e :: e in Entries(a) ==> e in Entries(b)
  {
    var x, y := Entries(a), Entries(b);
    forall e | e in x ensures e in y {
      var k :| 0 <= k < |x| && x[k] == e;
      assert e.sha256 in HashesOf(x);
      var f :| f in y && f.sha256 == e.sha256;
      var n :| 0 <= n < |y| && y[n] == f;
      assert a[k] in sources && b[n] in sources;
      assert Lower(a[k].sha256) == Lower(b[n].sha256);
    }
  }

  /** The captures to copy: one source for each hash required, and nothing else. It fails
      only for too many or repeated sources, or when no selection of them is complete. */
  method Plan(book: Notebook, current: Context, sources: seq<Source>) returns (selected: Option<seq<Source>>)
    ensures selected.Some? ==> From(selected.value, sources) && Complete(book, current, Entries(selected.value))
    ensures selected.None? && |sources| <= MAX_CAPTURES && OneEach(sources) ==>
              forall chosen | From(chosen, sources) :: !Complete(book, current, Entries(chosen))
  {
    if |sources| > MAX_CAPTURES { return None; }
    var unique := Index(sources);
    if unique.None? { return None; }
    hide Required, Complete, Distinct, HashesOf, OneEach;
    var chosen: seq<Source> := [];
    var needed := Required(book, current);
    var left := needed;
    NothingChosen();
    while left != {}
      invariant left <= needed && From(chosen, sources)
      invariant Distinct(Entries(chosen)) && HashesOf(Entries(chosen)) == needed - left
      decreases left
    {
      var h :| h in left;
      if h !in unique.value {
        NoSource(book, current, sources, h);
        return None;
      }
      ChoosingOne(chosen, unique.value[h], h);
      assert needed - left + {h} == needed - (left - {h});
      chosen := chosen + [unique.value[h]];
      left := left - {h};
    }
    var total := Validate(book, current, Entries(chosen));
    selected := if total.Some? then Some(chosen) else None;
    if total.None? {
      forall other | From(other, sources) ensures !Complete(book, current, Entries(other)) {
        if Complete(book, current, Entries(other)) { SelectionIsUnique(book, current, sources, chosen, other); }
      }
    }
  }

  lemma NothingChosen()
    ensures Distinct(Entries([])) && HashesOf(Entries([])) == {}
  {
  }

  lemma ChoosingOne(chosen: seq<Source>, s: Source, h: Hash)
    requires Distinct(Entries(chosen)) && Lower(s.sha256) == h && h !in HashesOf(Entries(chosen))
    ensures Distinct(Entries(chosen + [s])) && HashesOf(Entries(chosen + [s])) == HashesOf(Entries(chosen)) + {h}
  {
    var all := Entries(chosen) + [EntryOf(s)];
    assert Entries(chosen + [s]) == all && all[..|chosen|] == Entries(chosen);
    OneMore(all, |chosen|);
    assert all[..|chosen| + 1] == all;
  }

  /** A hash that no source has keeps every selection from being complete. */
  lemma NoSource(book: Notebook, current: Context, sources: seq<Source>, h: Hash)
    requires h in Required(book, current) && forall s | s in sources :: Lower(s.sha256) != h
    ensures forall chosen | From(chosen, sources) :: !Complete(book, current, Entries(chosen))
  {
    forall chosen | From(chosen, sources) ensures h !in HashesOf(Entries(chosen)) {
      forall e | e in Entries(chosen) ensures e.sha256 != h {
        var k :| 0 <= k < |chosen| && Entries(chosen)[k] == e;
        assert chosen[k] in sources;
      }
    }
  }
}
