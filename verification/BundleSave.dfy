/** Saving an investigation with its captures into a new folder. Files are written under a
    temporary name and renamed; the manifest comes last.

    Contents are typed values: `Rendered(book, f)` is the text that file `f` has for that
    notebook, and only the dumps are bytes. `history` exists to state what is proved: the
    named files at every point at which the computer could have stopped. */
module BundleSave {
  import opened Common
  import opened BundlePlan

  type Bytes = seq<bv8>

  datatype NotebookFile = NotebookJson | NotebookMarkdown | NotebookReceipt
  datatype ReportFile = ReportMarkdown | ReportHtml | ReportContext | ReportReceipt

  datatype File =
    | Manifest
    | InNotebook(part: NotebookFile)
    | InReport(turn: nat, page: ReportFile)
    | Capture(name: FileName)

  datatype Folder = Root | Captures | NotebookFolder | Reports | ReportFolder(turn: nat)

  datatype Content =
    | Rendered(book: Notebook, file: File)
    | ManifestJson(captures: seq<Entry>, current: Context, inputs: Inputs)
    | Dump(bytes: Bytes)
    | Torn

  /** The draft that a reopened investigation resumes from. */
  datatype Inputs = Inputs(problem: string, question: string)

  datatype Bundle = Bundle(book: Notebook, current: Context, captures: seq<Entry>, inputs: Inputs) {
    function Json(): Content { ManifestJson(captures, current, inputs) }
  }

  /** The hash of a dump, and how many bytes a text takes. */
  datatype Codec = Codec(sha: Bytes -> Hash, length: Content -> nat)

  const MAX_DRAFT := 4096
  const MAX_NOTEBOOK := 24 * 1024 * 1024
  const MAX_REPORT := 2 * 1024 * 1024
  const MAX_REPORT_RECEIPT := 64 * 1024
  const MAX_MANIFEST := 512 * 1024

  const NOTEBOOK_FILES := [NotebookJson, NotebookMarkdown]
  const REPORT_FILES := [ReportMarkdown, ReportHtml, ReportContext]

  // ----- what may be saved -----

  predicate ValidInputs(i: Inputs) {
    |i.problem| <= MAX_DRAFT && |i.question| <= MAX_DRAFT
  }

  predicate NotebookFits(book: Notebook, codec: Codec) {
    forall n | 0 <= n < |NOTEBOOK_FILES| :: codec.length(Rendered(book, InNotebook(NOTEBOOK_FILES[n]))) <= MAX_NOTEBOOK
  }

  predicate ReportFits(book: Notebook, turn: nat, codec: Codec) {
    && codec.length(Rendered(book, InReport(turn, ReportReceipt))) <= MAX_REPORT_RECEIPT
    && forall n | 0 <= n < |REPORT_FILES| :: codec.length(Rendered(book, InReport(turn, REPORT_FILES[n]))) <= MAX_REPORT
  }

  predicate ReportsFit(book: Notebook, turns: seq<Turn>, codec: Codec) {
    forall k | 0 <= k < |turns| && turns[k].hasReport :: ReportFits(book, turns[k].id, codec)
  }

  /** Everything within the limits at which it can be read again. */
  predicate Sized(b: Bundle, codec: Codec) {
    NotebookFits(b.book, codec) && ReportsFit(b.book, b.book.turns, codec) && codec.length(b.Json()) <= MAX_MANIFEST
  }

  /** The limits are those at which the files are read again: 24 MiB for each part of the
      notebook, 2 MiB for each page of a report and 64 KiB for its receipt, 512 KiB for the
      manifest. */
  lemma SizedExactly(b: Bundle, codec: Codec)
    ensures Sized(b, codec) <==>
              && codec.length(Rendered(b.book, InNotebook(NotebookJson))) <= 25165824
              && codec.length(Rendered(b.book, InNotebook(NotebookMarkdown))) <= 25165824
              && (forall k | 0 <= k < |b.book.turns| && b.book.turns[k].hasReport :: PagesFit(b.book, b.book.turns[k].id, codec))
              && codec.length(b.Json()) <= 524288
  {
    assert NOTEBOOK_FILES[0] == NotebookJson && NOTEBOOK_FILES[1] == NotebookMarkdown;
    forall turn: nat ensures ReportFits(b.book, turn, codec) <==> PagesFit(b.book, turn, codec) { PagesExactly(b.book, turn, codec); }
    hide ReportFits, PagesFit;
  }

  predicate PagesFit(book: Notebook, turn: nat, codec: Codec) {
    && codec.length(Rendered(book, InReport(turn, ReportMarkdown))) <= 2097152
    && codec.length(Rendered(book, InReport(turn, ReportHtml))) <= 2097152
    && codec.length(Rendered(book, InReport(turn, ReportContext))) <= 2097152
    && codec.length(Rendered(book, InReport(turn, ReportReceipt))) <= 65536
  }

  lemma PagesExactly(book: Notebook, turn: nat, codec: Codec)
    ensures ReportFits(book, turn, codec) <==> PagesFit(book, turn, codec)
  {
    assert REPORT_FILES[0] == ReportMarkdown && REPORT_FILES[1] == ReportHtml && REPORT_FILES[2] == ReportContext;
  }

  // ----- what a folder may hold -----

  predicate Has(files: map<File, Content>, f: File, c: Content) {
    f in files && files[f] == c
  }

  predicate NotebookThere(files: map<File, Content>, book: Notebook) {
    forall p: NotebookFile :: Has(files, InNotebook(p), Rendered(book, InNotebook(p)))
  }

  predicate ReportThere(files: map<File, Content>, book: Notebook, turn: nat) {
    forall p: ReportFile :: Has(files, InReport(turn, p), Rendered(book, InReport(turn, p)))
  }

  predicate Fits(c: Content, e: Entry, codec: Codec) {
    c.Dump? && |c.bytes| == e.bytes && codec.sha(c.bytes) == e.sha256
  }

  predicate CaptureThere(files: map<File, Content>, e: Entry, codec: Codec) {
    Capture(e.file) in files && Fits(files[Capture(e.file)], e, codec)
  }

  ghost predicate ReportsThere(files: map<File, Content>, book: Notebook, turns: seq<Turn>) {
    forall k | 0 <= k < |turns| && turns[k].hasReport :: ReportThere(files, book, turns[k].id)
  }

  ghost predicate CapturesThere(files: map<File, Content>, captures: seq<Entry>, codec: Codec) {
    forall k | 0 <= k < |captures| :: CaptureThere(files, captures[k], codec)
  }

  ghost predicate AllThere(files: map<File, Content>, b: Bundle, codec: Codec) {
    NotebookThere(files, b.book) && ReportsThere(files, b.book, b.book.turns) && CapturesThere(files, b.captures, codec)
  }

  /** Each receipt only beside its files, each capture only as it was checked, and the
      manifest only beside everything. */
  ghost predicate Safe(files: map<File, Content>, b: Bundle, codec: Codec) {
    && (Manifest in files ==> files[Manifest] == b.Json() && AllThere(files, b, codec) && Sized(b, codec))
    && (InNotebook(NotebookReceipt) in files ==> NotebookThere(files, b.book))
    && (forall t | InReport(t, ReportReceipt) in files :: ReportThere(files, b.book, t))
    && (forall n | Capture(n) in files :: Known(files[Capture(n)], n, b, codec))
  }

  ghost predicate Known(c: Content, n: FileName, b: Bundle, codec: Codec) {
    exists k :: 0 <= k < |b.captures| && b.captures[k].file == n && Fits(c, b.captures[k], codec)
  }

  /** What was there stays there when a new name appears. */
  lemma StillThere(files: map<File, Content>, f: File, c: Content, b: Bundle, codec: Codec)
    requires f !in files
    ensures
      var more := files[f := c];
      && (NotebookThere(files, b.book) ==> NotebookThere(more, b.book))
      && (forall t | ReportThere(files, b.book, t) :: ReportThere(more, b.book, t))
      && (forall turns | ReportsThere(files, b.book, turns) :: ReportsThere(more, b.book, turns))
      && (forall captures | CapturesThere(files, captures, codec) :: CapturesThere(more, captures, codec))
  {
    var more := files[f := c];
    forall t | ReportThere(files, b.book, t) ensures ReportThere(more, b.book, t) {
      forall p: ReportFile ensures Has(more, InReport(t, p), Rendered(b.book, InReport(t, p))) {
        assert Has(files, InReport(t, p), Rendered(b.book, InReport(t, p)));
      }
    }
    if NotebookThere(files, b.book) {
      forall p: NotebookFile ensures Has(more, InNotebook(p), Rendered(b.book, InNotebook(p))) {
        assert Has(files, InNotebook(p), Rendered(b.book, InNotebook(p)));
      }
    }
    forall captures | CapturesThere(files, captures, codec) ensures CapturesThere(more, captures, codec) {
      forall k | 0 <= k < |captures| ensures CaptureThere(more, captures[k], codec) {
        assert CaptureThere(files, captures[k], codec);
      }
    }
  }

  /** Nothing disappears or changes, and no manifest appears. */
  ghost predicate Grown(before: map<File, Content>, after: map<File, Content>) {
    && (forall f | f in before :: f in after && after[f] == before[f])
    && (Manifest in after ==> Manifest in before)
  }

  ghost predicate SameCaptures(before: map<File, Content>, after: map<File, Content>) {
    forall n | Capture(n) in after :: Capture(n) in before
  }

  ghost predicate NoCaptures(files: map<File, Content>) {
    forall n :: Capture(n) !in files
  }

  ghost predicate NoReports(folders: set<Folder>) {
    Reports !in folders && forall t :: ReportFolder(t) !in folders
  }

  /** No two turns with a report share a number. */
  ghost predicate OneReportEach(turns: seq<Turn>) {
    forall a, b | 0 <= a < |turns| && 0 <= b < |turns| && turns[a].hasReport && turns[b].hasReport && turns[a].id == turns[b].id :: a == b
  }

  ghost predicate OneNameEach(captures: seq<Entry>) {
    forall a, b | 0 <= a < |captures| && 0 <= b < |captures| && captures[a].file == captures[b].file :: a == b
  }

  lemma GrownFurther(a: map<File, Content>, b: map<File, Content>, c: map<File, Content>)
    requires Grown(a, b) && Grown(b, c)
    ensures Grown(a, c)
  {
  }

  lemma GrownKeeps(before: map<File, Content>, after: map<File, Content>, book: Notebook, turns: seq<Turn>,
                   captures: seq<Entry>, codec: Codec)
    requires Grown(before, after)
    ensures NotebookThere(before, book) ==> NotebookThere(after, book)
    ensures ReportsThere(before, book, turns) ==> ReportsThere(after, book, turns)
    ensures CapturesThere(before, captures, codec) ==> CapturesThere(after, captures, codec)
  {
    if NotebookThere(before, book) {
      forall p: NotebookFile ensures Has(after, InNotebook(p), Rendered(book, InNotebook(p))) {
        assert Has(before, InNotebook(p), Rendered(book, InNotebook(p)));
      }
    }
    if ReportsThere(before, book, turns) {
      forall k, p: ReportFile | 0 <= k < |turns| && turns[k].hasReport
        ensures Has(after, InReport(turns[k].id, p), Rendered(book, InReport(turns[k].id, p)))
      {
        assert ReportThere(before, book, turns[k].id);
        assert Has(before, InReport(turns[k].id, p), Rendered(book, InReport(turns[k].id, p)));
      }
    }
    if CapturesThere(before, captures, codec) {
      forall k | 0 <= k < |captures| ensures CaptureThere(after, captures[k], codec) {
        assert CaptureThere(before, captures[k], codec);
      }
    }
  }

  /** A file that is neither a receipt, a capture nor the manifest may appear at any time. */
  predicate Free(f: File) {
    match f
    case Manifest => false
    case InNotebook(p) => !p.NotebookReceipt?
    case InReport(_, p) => !p.ReportReceipt?
    case Capture(_) => false
  }

  lemma FreeIsSafe(files: map<File, Content>, f: File, c: Content, b: Bundle, codec: Codec)
    requires Safe(files, b, codec) && f !in files && Free(f)
    ensures Safe(files[f := c], b, codec)
  {
    StillThere(files, f, c, b, codec);
  }

  lemma NotebookReceiptIsSafe(files: map<File, Content>, b: Bundle, codec: Codec)
    requires Safe(files, b, codec)
    requires forall p: NotebookFile | !p.NotebookReceipt? :: Has(files, InNotebook(p), Rendered(b.book, InNotebook(p)))
    requires InNotebook(NotebookReceipt) !in files
    ensures
      var more := files[InNotebook(NotebookReceipt) := Rendered(b.book, InNotebook(NotebookReceipt))];
      Safe(more, b, codec) && NotebookThere(more, b.book)
  {
    var f := InNotebook(NotebookReceipt);
    var more := files[f := Rendered(b.book, f)];
    StillThere(files, f, Rendered(b.book, f), b, codec);
    forall p: NotebookFile ensures Has(more, InNotebook(p), Rendered(b.book, InNotebook(p))) {
      if !p.NotebookReceipt? { assert Has(files, InNotebook(p), Rendered(b.book, InNotebook(p))); }
    }
  }

  lemma ReportReceiptIsSafe(files: map<File, Content>, b: Bundle, codec: Codec, turn: nat)
    requires Safe(files, b, codec)
    requires forall p: ReportFile | !p.ReportReceipt? :: Has(files, InReport(turn, p), Rendered(b.book, InReport(turn, p)))
    requires InReport(turn, ReportReceipt) !in files
    ensures
      var more := files[InReport(turn, ReportReceipt) := Rendered(b.book, InReport(turn, ReportReceipt))];
      Safe(more, b, codec) && ReportThere(more, b.book, turn)
  {
    var f := InReport(turn, ReportReceipt);
    var more := files[f := Rendered(b.book, f)];
    StillThere(files, f, Rendered(b.book, f), b, codec);
    forall p: ReportFile ensures Has(more, InReport(turn, p), Rendered(b.book, InReport(turn, p))) {
      if !p.ReportReceipt? { assert Has(files, InReport(turn, p), Rendered(b.book, InReport(turn, p))); }
    }
  }

  lemma CaptureIsSafe(files: map<File, Content>, b: Bundle, codec: Codec, k: nat, c: Content)
    requires Safe(files, b, codec) && k < |b.captures| && Fits(c, b.captures[k], codec)
    requires Capture(b.captures[k].file) !in files
    ensures
      var more := files[Capture(b.captures[k].file) := c];
      Safe(more, b, codec) && CaptureThere(more, b.captures[k], codec)
  {
    StillThere(files, Capture(b.captures[k].file), c, b, codec);
  }

  lemma ManifestIsSafe(files: map<File, Content>, b: Bundle, codec: Codec)
    requires Safe(files, b, codec) && AllThere(files, b, codec) && Sized(b, codec) && Manifest !in files
    ensures Safe(files[Manifest := b.Json()], b, codec)
  {
    StillThere(files, Manifest, b.Json(), b, codec);
  }

  // ----- the disk -----

  class Disk {
    const codec: Codec
    var folders: set<Folder>
    var files: map<File, Content>
    var parts: map<File, Content>
    ghost var history: seq<map<File, Content>>
    /** Refusals by the outside so far: failed calls, cancellations, damaged copies. */
    ghost var faults: nat

    /** Nothing is found in a folder that does not exist. */
    ghost predicate Valid()
      reads this
    {
      && (Root !in folders ==> folders == {} && files == map[] && parts == map[])
      && (NotebookFolder !in folders ==> forall p: NotebookFile :: InNotebook(p) !in files)
      && (forall t, p: ReportFile | ReportFolder(t) !in folders :: InReport(t, p) !in files)
    }

    /** The points from `from` on are all safe, and so is the present one. */
    ghost predicate SafeSince(from: nat, b: Bundle)
      reads this
    {
      Safe(files, b, codec) && from <= |history| && forall k | from <= k < |history| :: Safe(history[k], b, codec)
    }

    constructor (codec: Codec)
      ensures Valid() && folders == {} && files == map[] && this.codec == codec && history == []
    {
      this.codec, folders, files, parts, history, faults := codec, {}, map[], map[], [], 0;
    }

    /** `create_dir`. */
    method CreateFolder(f: Folder) returns (ok: bool)
      requires Valid() && (Root in folders || f == Root)
      modifies `folders, `faults
      ensures Valid() && folders == if ok then old(folders) + {f} else old(folders)
      ensures ok ==> f !in old(folders)
      ensures faults >= old(faults) && (!ok ==> f in old(folders) || faults > old(faults))
    {
      ok := Allowed();
      ok := ok && f !in folders;
      if ok { folders := folders + {f}; }
    }

    /** A call into the outside, or a look at the cancel flag. */
    method Allowed() returns (ok: bool)
      modifies `faults
      ensures faults == if ok then old(faults) else old(faults) + 1
    {
      ok := *;
      if !ok { faults := faults + 1; }
    }

    /** `publish`: a new temporary file, its content, and the rename. The name appears with
        the whole content or not at all. */
    method Publish(f: File, c: Content, ghost from: nat, ghost b: Bundle) returns (ok: bool)
      requires f !in files && SafeSince(from, b) && Safe(files[f := c], b, codec)
      modifies `files, `parts, `history, `faults
      ensures SafeSince(from, b) && old(history) <= history
      ensures files == if ok then old(files)[f := c] else old(files)
      ensures ok ==> parts == old(parts)
      ensures faults >= old(faults) && (!ok ==> f in old(parts) || faults > old(faults))
    {
      hide Safe;
      ok := Allowed();
      if f in parts || !ok { return false; }
      ghost var was := parts;
      parts := parts[f := Torn];
      history := history + [files];
      ok := Allowed();
      if !ok { return; }
      parts := parts[f := c];
      history := history + [files];
      ok := Allowed();
      if !ok { return; }
      parts := parts - {f};
      assert parts == was;
      files := files[f := c];
      history := history + [files];
    }

    /** `fs::read` of a file just published, compared with what was meant. */
    method Reread(f: File, c: Content) returns (same: bool)
      modifies `faults
      ensures same ==> Has(files, f, c)
      ensures faults >= old(faults) && (!same ==> !Has(files, f, c) || faults > old(faults))
    {
      var readable := Allowed();
      same := readable && f in files && files[f] == c;
    }

    /** `Notebook::save`: a limit, the two files, each read back, and the receipt last. */
    method SaveNotebook(ghost from: nat, b: Bundle) returns (ok: bool)
      requires Valid() && Root in folders && SafeSince(from, b)
      modifies `folders, `files, `parts, `history, `faults
      ensures Valid() && SafeSince(from, b) && old(history) <= history && old(folders) <= folders
      ensures Grown(old(files), files)
      ensures ok ==> NotebookThere(files, b.book) && NotebookFits(b.book, codec) && parts == old(parts)
      ensures SameCaptures(old(files), files)
      ensures faults >= old(faults)
      ensures !ok && old(parts) == map[] && NotebookFits(b.book, codec) ==> NotebookFolder in old(folders) || faults > old(faults)
      ensures forall t | ReportFolder(t) in folders :: ReportFolder(t) in old(folders)
      ensures Reports in folders ==> Reports in old(folders)
    {
      if !NotebookFits(b.book, codec) { return false; }
      ok := CreateFolder(NotebookFolder);
      if !ok { return; }
      ghost var was, there := files, folders;
      for k := 0 to 2
        invariant SafeSince(from, b) && old(history) <= history && folders == there
        invariant forall n | 0 <= n < k :: Has(files, InNotebook(NOTEBOOK_FILES[n]), Rendered(b.book, InNotebook(NOTEBOOK_FILES[n])))
        invariant forall n | k <= n < 2 :: InNotebook(NOTEBOOK_FILES[n]) !in files
        invariant InNotebook(NotebookReceipt) !in files && Grown(was, files) && SameCaptures(was, files)
        invariant parts == old(parts) && faults >= old(faults)
        invariant forall t, p: ReportFile | InReport(t, p) in files :: InReport(t, p) in was
      {
        var f := InNotebook(NOTEBOOK_FILES[k]);
        FreeIsSafe(files, f, Rendered(b.book, f), b, codec);
        ok := Publish(f, Rendered(b.book, f), from, b);
        if !ok { return; }
        ok := Reread(f, Rendered(b.book, f));
        if !ok { return; }
      }
      assert Has(files, InNotebook(NOTEBOOK_FILES[0]), Rendered(b.book, InNotebook(NOTEBOOK_FILES[0])));
      assert Has(files, InNotebook(NOTEBOOK_FILES[1]), Rendered(b.book, InNotebook(NOTEBOOK_FILES[1])));
      NotebookReceiptIsSafe(files, b, codec);
      ok := Publish(InNotebook(NotebookReceipt), Rendered(b.book, InNotebook(NotebookReceipt)), from, b);
    }

    /** `Draft::save`: the three files, each read back, and the receipt last. */
    method SaveReport(turn: nat, ghost from: nat, b: Bundle) returns (ok: bool)
      requires Valid() && Root in folders && SafeSince(from, b)
      modifies `folders, `files, `parts, `history, `faults
      ensures Valid() && SafeSince(from, b) && old(history) <= history && old(folders) <= folders
      ensures Grown(old(files), files)
      ensures ok ==> ReportThere(files, b.book, turn) && parts == old(parts)
      ensures SameCaptures(old(files), files)
      ensures faults >= old(faults) && (!ok && old(parts) == map[] ==> ReportFolder(turn) in old(folders) || faults > old(faults))
      ensures forall t | ReportFolder(t) in folders :: t == turn || ReportFolder(t) in old(folders)
    {
      ok := CreateFolder(ReportFolder(turn));
      if !ok { return; }
      ghost var was, there := files, folders;
      for k := 0 to 3
        invariant SafeSince(from, b) && old(history) <= history && folders == there
        invariant forall n | 0 <= n < k :: Has(files, InReport(turn, REPORT_FILES[n]), Rendered(b.book, InReport(turn, REPORT_FILES[n])))
        invariant forall n | k <= n < 3 :: InReport(turn, REPORT_FILES[n]) !in files
        invariant InReport(turn, ReportReceipt) !in files && Grown(was, files) && SameCaptures(was, files)
        invariant parts == old(parts) && faults >= old(faults)
        invariant forall t, p: ReportFile | InReport(t, p) in files && t != turn :: InReport(t, p) in was
        invariant forall p: NotebookFile | InNotebook(p) in files :: InNotebook(p) in was
      {
        var f := InReport(turn, REPORT_FILES[k]);
        FreeIsSafe(files, f, Rendered(b.book, f), b, codec);
        ok := Publish(f, Rendered(b.book, f), from, b);
        if !ok { return; }
        ok := Reread(f, Rendered(b.book, f));
        if !ok { return; }
      }
      assert Has(files, InReport(turn, REPORT_FILES[0]), Rendered(b.book, InReport(turn, REPORT_FILES[0])));
      assert Has(files, InReport(turn, REPORT_FILES[1]), Rendered(b.book, InReport(turn, REPORT_FILES[1])));
      assert Has(files, InReport(turn, REPORT_FILES[2]), Rendered(b.book, InReport(turn, REPORT_FILES[2])));
      ReportReceiptIsSafe(files, b, codec, turn);
      ok := Publish(InReport(turn, ReportReceipt), Rendered(b.book, InReport(turn, ReportReceipt)), from, b);
    }

    /** The reports of the turns that have one; it may be cancelled before each. */
    method SaveReports(ghost from: nat, b: Bundle) returns (ok: bool)
      requires Valid() && Root in folders && SafeSince(from, b)
      modifies `folders, `files, `parts, `history, `faults
      ensures Valid() && SafeSince(from, b) && old(history) <= history && old(folders) <= folders
      ensures Grown(old(files), files) && SameCaptures(old(files), files)
      ensures ok ==> ReportsThere(files, b.book, b.book.turns) && parts == old(parts)
      ensures faults >= old(faults)
      ensures !ok && old(parts) == map[] && NoReports(old(folders)) && OneReportEach(b.book.turns) ==> faults > old(faults)
    {
      ok := CreateFolder(Reports);
      if !ok { return; }
      var turns := b.book.turns;
      for n := 0 to |turns|
        invariant Valid() && Root in folders && SafeSince(from, b) && old(history) <= history && old(folders) <= folders
        invariant Grown(old(files), files) && SameCaptures(old(files), files) && ReportsThere(files, b.book, turns[..n])
        invariant parts == old(parts) && faults >= old(faults)
        invariant NoReports(old(folders)) ==>
                    forall t | ReportFolder(t) in folders :: exists k :: 0 <= k < n && turns[k].hasReport && turns[k].id == t
      {
        if turns[n].hasReport {
          var going := Allowed();
          if !going { return false; }
          ghost var before := files;
          ok := SaveReport(turns[n].id, from, b);
          GrownFurther(old(files), before, files);
          GrownKeeps(before, files, b.book, turns[..n], [], codec);
          if !ok { return; }
        }
      }
      assert turns[..|turns|] == turns;
      ok := true;
    }

    /** `verify_reports`: everything is read once more, within the limits. */
    method VerifyReports(book: Notebook) returns (ok: bool)
      modifies `faults
      ensures ok ==> ReportsThere(files, book, book.turns) && ReportsFit(book, book.turns, codec)
      ensures faults >= old(faults)
      ensures !ok ==> !ReportsThere(files, book, book.turns) || !ReportsFit(book, book.turns, codec) || faults > old(faults)
    {
      for n := 0 to |book.turns|
        invariant ReportsThere(files, book, book.turns[..n]) && ReportsFit(book, book.turns[..n], codec) && faults >= old(faults)
      {
        var turn := book.turns[n];
        if turn.hasReport {
          var readable := Allowed();
          if !readable { return false; }
          if !ReportFits(book, turn.id, codec) || !ReportThere(files, book, turn.id) { return false; }
        }
      }
      assert book.turns[..|book.turns|] == book.turns;
      ok := true;
    }

    /** `hash_file`: the copy is read again in chunks, and given up as soon as it is too long. */
    method HashFile(bytes: Bytes, e: Entry) returns (ok: bool)
      modifies `faults
      ensures ok ==> |bytes| == e.bytes && codec.sha(bytes) == e.sha256
      ensures faults >= old(faults) && (!ok ==> |bytes| != e.bytes || codec.sha(bytes) != e.sha256 || faults > old(faults))
    {
      var hashed: Bytes := [];
      while |hashed| < |bytes|
        invariant hashed <= bytes && |hashed| <= e.bytes && faults >= old(faults)
        decreases |bytes| - |hashed|
      {
        var going := Allowed();
        if !going { return false; }
        var size: int := *;
        var left := |bytes| - |hashed|;
        var count := if size < 1 then 1 else if size > left then left else size;
        if |hashed| + count > e.bytes { return false; }
        assert bytes[..|hashed| + count] == hashed + bytes[|hashed|..|hashed| + count];
        hashed := bytes[..|hashed| + count];
      }
      assert hashed == bytes;
      ok := |hashed| == e.bytes && codec.sha(hashed) == e.sha256;
    }

    /** `copy_source`. What was read of the dump and what reached the disk may be anything;
        only a copy of the recorded size and hash gets the capture's name. */
    method CopySource(k: nat, ghost from: nat, b: Bundle) returns (ok: bool)
      requires Valid() && Root in folders && SafeSince(from, b) && k < |b.captures|
      modifies `files, `parts, `history, `faults
      ensures Valid() && SafeSince(from, b) && old(history) <= history
      ensures Grown(old(files), files)
      ensures ok ==> CaptureThere(files, b.captures[k], codec) && parts == old(parts)
      ensures forall f | f in files && f !in old(files) :: f == Capture(b.captures[k].file)
      ensures faults >= old(faults)
      ensures !ok ==> Capture(b.captures[k].file) in old(files) || Capture(b.captures[k].file) in old(parts) || faults > old(faults)
    {
      hide Safe;
      var e := b.captures[k];
      var f := Capture(e.file);
      ok := Allowed();
      if !ok || f in parts { return false; }
      var stored: Bytes := *;
      if !Fits(Dump(stored), e, codec) { faults := faults + 1; }
      ghost var was := parts;
      parts := parts[f := Dump(stored)];
      history := history + [files];
      ok := Allowed();
      if !ok { return; }
      ok := HashFile(stored, e);
      if !ok { return; }
      ok := Allowed();
      if !ok || f in files { return false; }
      CaptureIsSafe(files, b, codec, k, Dump(stored));
      parts := parts - {f};
      assert parts == was;
      files := files[f := Dump(stored)];
      history := history + [files];
    }

    method CopySources(ghost from: nat, b: Bundle) returns (ok: bool)
      requires Valid() && Root in folders && SafeSince(from, b)
      modifies `files, `parts, `history, `faults
      ensures Valid() && SafeSince(from, b) && old(history) <= history
      ensures Grown(old(files), files)
      ensures ok ==> CapturesThere(files, b.captures, codec) && parts == old(parts)
      ensures faults >= old(faults)
      ensures !ok && old(parts) == map[] && NoCaptures(old(files)) && OneNameEach(b.captures) ==> faults > old(faults)
    {
      for n := 0 to |b.captures|
        invariant Valid() && Root in folders && SafeSince(from, b) && old(history) <= history
        invariant Grown(old(files), files) && CapturesThere(files, b.captures[..n], codec)
        invariant parts == old(parts) && faults >= old(faults)
        invariant NoCaptures(old(files)) ==>
                    forall name | Capture(name) in files :: exists k :: 0 <= k < n && b.captures[k].file == name
      {
        ghost var before := files;
        ok := CopySource(n, from, b);
        GrownFurther(old(files), before, files);
        GrownKeeps(before, files, b.book, [], b.captures[..n], codec);
        if !ok { return; }
      }
      assert b.captures[..|b.captures|] == b.captures;
      ok := true;
    }

    /** `save_with_inputs` after the plan: everything, and the manifest last. */
    method SaveBundle(ghost from: nat, b: Bundle) returns (ok: bool)
      requires Valid() && Root !in folders && from == |history|
      modifies `folders, `files, `parts, `history, `faults
      ensures SafeSince(from, b) && old(history) <= history
      ensures ok <==> Manifest in files
      ensures faults >= old(faults)
      ensures !ok && OneReportEach(b.book.turns) && OneNameEach(b.captures) && Sized(b, codec) ==> faults > old(faults)
    {
      ok := CreateFolder(Root);
      if !ok { return; }
      ok := CreateFolder(Captures);
      if !ok { return; }
      ok := SaveNotebook(from, b);
      if !ok { return; }
      ghost var first := files;
      ok := SaveReports(from, b);
      GrownKeeps(first, files, b.book, [], [], codec);
      if !ok { return; }
      ok := VerifyReports(b.book);
      if !ok { return; }
      ghost var second := files;
      ok := CopySources(from, b);
      GrownKeeps(second, files, b.book, b.book.turns, [], codec);
      if !ok { return; }
      ok := Allowed();
      if !ok { return; }
      if codec.length(b.Json()) > MAX_MANIFEST { return false; }
      ManifestIsSafe(files, b, codec);
      ok := Publish(Manifest, b.Json(), from, b);
    }

    /** The whole save. Whatever fails, and wherever the computer stops, a folder with a
        manifest has the notebook, every report and every capture that the investigation
        requires, all small enough to be read again, and nothing is written when there is no
        complete selection. It fails only for a reason: the folder exists or is not
        `acceptable` (an absolute local path through plain folders), the draft is too long,
        there is no plan, something exceeds its limit, or the outside refused something. */
    method Save(book: Notebook, current: Context, sources: seq<Source>, inputs: Inputs, acceptable: bool) returns (ok: bool)
      requires Valid()
      modifies `folders, `files, `parts, `history, `faults
      ensures old(history) <= history
      ensures old(Root in folders) ==> !ok && files == old(files) && history == old(history)
      ensures !old(Root in folders) ==> (ok <==> Manifest in files)
      ensures !old(Root in folders) && Manifest in files ==> Openable(files, book, current, inputs, codec)
      ensures forall k | |old(history)| <= k < |history| && Manifest in history[k] :: Openable(history[k], book, current, inputs, codec)
      ensures !ok ==>
                || old(Root in folders) || faults > old(faults)
                || Refused(book, current, sources, inputs, acceptable, codec)
    {
      if !ValidInputs(inputs) { return false; }
      var selected := Plan(book, current, sources);
      if selected.None? { return false; }
      var planned := Allowed();
      if !planned || !acceptable || Root in folders { return false; }
      ghost var from := |history|;
      var b := Bundle(book, current, Entries(selected.value), inputs);
      CompleteNames(book, current, b.captures);
      ok := SaveBundle(from, b);
    }
  }

  /** The reasons that lie in what is to be saved: no plan, or one that exceeds a limit. */
  ghost predicate Refused(book: Notebook, current: Context, sources: seq<Source>, inputs: Inputs, acceptable: bool, codec: Codec) {
    || !ValidInputs(inputs) || !acceptable
    || |sources| > MAX_CAPTURES || !OneEach(sources)
    || (forall chosen | From(chosen, sources) :: !Complete(book, current, Entries(chosen)))
    || (exists chosen :: From(chosen, sources) && Complete(book, current, Entries(chosen))
                         && !Sized(Bundle(book, current, Entries(chosen), inputs), codec))
  }

  lemma CompleteNames(book: Notebook, current: Context, captures: seq<Entry>)
    requires Complete(book, current, captures)
    ensures OneNameEach(captures) && OneReportEach(book.turns)
  {
    hide Required, Describes;
    forall a, b | 0 <= a < |captures| && 0 <= b < |captures| && captures[a].file == captures[b].file ensures a == b {
      assert WellFormed(captures[a]) && WellFormed(captures[b]);
    }
  }

  /** What a manifest stands for: a complete selection, all of it there. */
  ghost predicate Openable(files: map<File, Content>, book: Notebook, current: Context, inputs: Inputs, codec: Codec) {
    && Manifest in files && files[Manifest].ManifestJson?
    && files[Manifest].current == current && files[Manifest].inputs == inputs
    && Complete(book, current, files[Manifest].captures)
    && var b := Bundle(book, current, files[Manifest].captures, inputs);
       AllThere(files, b, codec) && Sized(b, codec)
  }
}
