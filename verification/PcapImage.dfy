/** The capture file kept in memory: how records are written to it, and the sequential
    reader of the interoperability script (its classic PCAP branch) that must find them. */
module PcapImage {
  import opened Common

  type Byte = b: int | 0 <= b < 256
  type Word = w: int | 0 <= w < 0x1_0000_0000

  datatype Record = Record(seconds: Word, micros: Word, originalLen: Word, bytes: seq<Byte>)

  const HEADER := 24
  const PREFIX := 16
  const LONGEST := 1048576
  const MAGIC: Word := 0xa1b2_c3d4
  const VERSION: Word := 0x0004_0002

  function LittleEndian(w: Word): (r: seq<Byte>)
    ensures |r| == 4
  {
    [w % 256, w / 256 % 256, w / 65536 % 256, w / 16777216]
  }

  function Unpack(little: bool, b: seq<Byte>): Word
    requires |b| == 4
  {
    var (b0: int, b1: int, b2: int, b3: int) := if little then (b[0], b[1], b[2], b[3]) else (b[3], b[2], b[1], b[0]);
    b0 + 256 * b1 + 65536 * b2 + 16777216 * b3
  }

  lemma UnpackInverts(w: Word)
    ensures Unpack(true, LittleEndian(w)) == w
  {
    var high := w / 256;
    var higher := high / 256;
    assert w == 256 * high + w % 256 && high == 256 * higher + high % 256 && higher == 256 * (higher / 256) + higher % 256;
    assert higher == w / 65536 && higher / 256 == w / 16777216;
  }

  lemma MagicBytes()
    ensures LittleEndian(MAGIC) == [0xd4, 0xc3, 0xb2, 0xa1]
  {
  }

  function Header(linkType: Word, snaplen: Word): (r: seq<Byte>)
    ensures |r| == HEADER
  {
    LittleEndian(MAGIC) + LittleEndian(VERSION) + LittleEndian(0) + LittleEndian(0) + LittleEndian(snaplen) + LittleEndian(linkType)
  }

  /** The fields of the header where a reader of the format looks for them: the magic number,
      version 2.4, two zero words, the capture length and the link type. */
  lemma HeaderReads(linkType: Word, snaplen: Word)
    ensures
      var h := Header(linkType, snaplen);
      && h[..4] == [0xd4, 0xc3, 0xb2, 0xa1] && h[4..8] == [2, 0, 4, 0] && h[8..16] == [0, 0, 0, 0, 0, 0, 0, 0]
      && Unpack(true, h[16..20]) == snaplen && Unpack(true, h[20..24]) == linkType
  {
    var h := Header(linkType, snaplen);
    MagicBytes();
    assert LittleEndian(VERSION) == [2, 0, 4, 0] && LittleEndian(0) == [0, 0, 0, 0];
    UnpackInverts(snaplen);
    UnpackInverts(linkType);
    hide LittleEndian, Unpack;
    assert h[16..20] == LittleEndian(snaplen) && h[20..24] == LittleEndian(linkType);
  }

  /** A record as it is appended. Its length is what fits in a 32-bit field. */
  function Encode(r: Record): (e: seq<Byte>)
    requires |r.bytes| < 0x1_0000_0000
    ensures |e| == PREFIX + |r.bytes|
  {
    LittleEndian(r.seconds) + LittleEndian(r.micros) + LittleEndian(|r.bytes|) + LittleEndian(r.originalLen) + r.bytes
  }

  predicate Encodable(records: seq<Record>) {
    forall k | 0 <= k < |records| :: |records[k].bytes| < 0x1_0000_0000
  }

  function EncodeAll(records: seq<Record>): seq<Byte>
    requires Encodable(records)
  {
    if records == [] then [] else EncodeAll(records[..|records| - 1]) + Encode(records[|records| - 1])
  }

  function Image(linkType: Word, snaplen: Word, records: seq<Record>): seq<Byte>
    requires Encodable(records)
  {
    Header(linkType, snaplen) + EncodeAll(records)
  }

  /** Where the record after `records` begins. */
  function OffsetAfter(records: seq<Record>): nat {
    if records == [] then HEADER else OffsetAfter(records[..|records| - 1]) + PREFIX + |records[|records| - 1].bytes|
  }

  // ----- the reader -----

  /** `seconds` and `ticks` make the time stamp with the resolution of the file. */
  datatype Found = Found(offset: nat, seconds: Word, ticks: Word, captured: Word, original: Word, payload: seq<Byte>)

  /** Byte order and resolution for each of the four magic numbers. */
  function Format(magic: seq<Byte>): Option<(bool, nat)> {
    if magic == [0xd4, 0xc3, 0xb2, 0xa1] then Some((true, 1000000))
    else if magic == [0xa1, 0xb2, 0xc3, 0xd4] then Some((false, 1000000))
    else if magic == [0x4d, 0x3c, 0xb2, 0xa1] then Some((true, 1000000000))
    else if magic == [0xa1, 0xb2, 0x3c, 0x4d] then Some((false, 1000000000))
    else None
  }

  datatype Head = Head(seconds: Word, ticks: Word, captured: Word, original: Word)

  /** `struct.unpack` of the four words before a payload. */
  function ReadHead(stream: seq<Byte>, at: nat, little: bool): Head
    requires at + PREFIX <= |stream|
  {
    Head(Unpack(little, stream[at..at + 4]), Unpack(little, stream[at + 4..at + 8]),
         Unpack(little, stream[at + 8..at + 12]), Unpack(little, stream[at + 12..at + 16]))
  }

  predicate Admits(h: Head) {
    0 < h.captured <= h.original && h.captured <= LONGEST
  }

  function FoundAt(h: Head, stream: seq<Byte>, at: nat): Found
    requires at + PREFIX + h.captured <= |stream|
  {
    Found(at, h.seconds, h.ticks, h.captured, h.original, stream[at + PREFIX..at + PREFIX + h.captured])
  }

  /** What the reader yields from `stream` starting at `at`; `None` when an assertion fails. */
  function ReadFrom(stream: seq<Byte>, at: nat, little: bool): Option<seq<Found>>
    requires at <= |stream|
    decreases |stream| - at
  {
    if at == |stream| then Some([])
    else if |stream| - at < PREFIX then None
    else
      var h := ReadHead(stream, at, little);
      if !Admits(h) || |stream| - at - PREFIX < h.captured then None
      else
        Prepend([FoundAt(h, stream, at)], ReadFrom(stream, at + PREFIX + h.captured, little))
  }

  function Read(stream: seq<Byte>): Option<seq<Found>> {
    if |stream| < 4 || Format(stream[..4]).None? || |stream| < HEADER then None
    else ReadFrom(stream, HEADER, Format(stream[..4]).value.0)
  }

  function Prepend(found: seq<Found>, rest: Option<seq<Found>>): Option<seq<Found>> {
    if rest.None? then None else Some(found + rest.value)
  }

  lemma PrependOne(found: seq<Found>, f: Found, rest: Option<seq<Found>>)
    ensures Prepend(found, Prepend([f], rest)) == Prepend(found + [f], rest)
  {
    if rest.Some? { assert found + ([f] + rest.value) == found + [f] + rest.value; }
  }

  lemma PrependNothing(rest: Option<seq<Found>>)
    ensures Prepend([], rest) == rest
  {
    if rest.Some? { assert [] + rest.value == rest.value; }
  }

  /** The loop of the script: it consumes the stream and yields what it has read. */
  method Records(stream: seq<Byte>) returns (ok: bool, yielded: seq<Found>)
    ensures ok <==> Read(stream).Some?
    ensures ok ==> yielded == Read(stream).value
  {
    hide ReadHead, Unpack;
    yielded := [];
    if |stream| < 4 { return false, []; }
    var format := Format(stream[..4]);
    if format.None? { return false, []; }
    var little := format.value.0;
    if |stream| < HEADER { return false, []; }
    var at := HEADER;
    ghost var whole := ReadFrom(stream, at, little);
    PrependNothing(whole);
    while at < |stream|
      invariant HEADER <= at <= |stream|
      invariant whole == Prepend(yielded, ReadFrom(stream, at, little))
    {
      if |stream| - at < PREFIX { return false, yielded; }
      var h := ReadHead(stream, at, little);
      if !Admits(h) { return false, yielded; }
      if |stream| - at - PREFIX < h.captured { return false, yielded; }
      var next := at + PREFIX + h.captured;
      assert next <= |stream|;
      PrependOne(yielded, FoundAt(h, stream, at), ReadFrom(stream, next, little));
      yielded := yielded + [FoundAt(h, stream, at)];
      at := next;
    }
    ok := true;
  }

  // ----- the round trip -----

  predicate Readable(r: Record) {
    0 < |r.bytes| <= r.originalLen && |r.bytes| <= LONGEST
  }

  function AsFound(r: Record, offset: nat): Found
    requires |r.bytes| < 0x1_0000_0000
  {
    Found(offset, r.seconds, r.micros, |r.bytes|, r.originalLen, r.bytes)
  }

  lemma {:induction false} OffsetIsLength(linkType: Word, snaplen: Word, records: seq<Record>)
    requires Encodable(records)
    ensures |Image(linkType, snaplen, records)| == OffsetAfter(records)
  {
    if records != [] { OffsetIsLength(linkType, snaplen, records[..|records| - 1]); }
  }

  lemma Part(stream: seq<Byte>, at: nat, e: seq<Byte>, i: nat, j: nat)
    requires at + |e| <= |stream| && stream[at..at + |e|] == e && i <= j <= |e|
    ensures stream[at + i..at + j] == e[i..j]
  {
    forall k | i <= k < j ensures stream[at + k] == e[k] {
      assert stream[at..at + |e|][k] == stream[at + k];
    }
  }

  /** What one encoded record looks like to the reader, wherever it lies in the stream. */
  lemma EncodedHead(stream: seq<Byte>, at: nat, r: Record)
    requires |r.bytes| < 0x1_0000_0000 && at + PREFIX + |r.bytes| <= |stream|
    requires stream[at..at + PREFIX + |r.bytes|] == Encode(r)
    ensures ReadHead(stream, at, true) == Head(r.seconds, r.micros, |r.bytes|, r.originalLen)
    ensures FoundAt(ReadHead(stream, at, true), stream, at) == AsFound(r, at)
  {
    var e := Encode(r);
    Part(stream, at, e, 0, 4);
    Part(stream, at, e, 4, 8);
    Part(stream, at, e, 8, 12);
    Part(stream, at, e, 12, 16);
    Part(stream, at, e, 16, |e|);
    assert e[0..4] == LittleEndian(r.seconds) && e[4..8] == LittleEndian(r.micros);
    assert e[8..12] == LittleEndian(|r.bytes|) && e[12..16] == LittleEndian(r.originalLen);
    assert e[16..|e|] == r.bytes;
    UnpackInverts(r.seconds);
    UnpackInverts(r.micros);
    UnpackInverts(|r.bytes|);
    UnpackInverts(r.originalLen);
  }

  /** The image from record `k` on. */
  lemma {:induction false} ReadsTheRest(linkType: Word, snaplen: Word, records: seq<Record>, k: nat)
    requires Encodable(records) && k <= |records|
    ensures OffsetAfter(records[..k]) <= |Image(linkType, snaplen, records)|
    ensures
      var found := ReadFrom(Image(linkType, snaplen, records), OffsetAfter(records[..k]), true);
      && (found.Some? <==> forall n | k <= n < |records| :: Readable(records[n]))
      && (found.Some? ==> Matches(found.value, records, k))
    decreases |records| - k
  {
    hide ReadHead, LittleEndian;
    var stream, at := Image(linkType, snaplen, records), OffsetAfter(records[..k]);
    OffsetIsLength(linkType, snaplen, records);
    if k == |records| {
      assert records[..k] == records;
    } else {
      ReadsTheRest(linkType, snaplen, records, k + 1);
      RecordInPlace(linkType, snaplen, records, k);
      EncodedHead(stream, at, records[k]);
      var rest := ReadFrom(stream, OffsetAfter(records[..k + 1]), true);
      assert Admits(ReadHead(stream, at, true)) == Readable(records[k]);
      if rest.Some? { MatchesExtends(rest.value, records, k); }
    }
  }

  /** `found` is what was appended from record `k` on. */
  ghost predicate Matches(found: seq<Found>, records: seq<Record>, k: nat)
    requires Encodable(records) && k <= |records|
  {
    && |found| == |records| - k
    && forall n | k <= n < |records| :: found[n - k] == AsFound(records[n], OffsetAfter(records[..n]))
  }

  lemma MatchesExtends(found: seq<Found>, records: seq<Record>, k: nat)
    requires Encodable(records) && k < |records| && Matches(found, records, k + 1)
    ensures Matches([AsFound(records[k], OffsetAfter(records[..k]))] + found, records, k)
  {
    var all := [AsFound(records[k], OffsetAfter(records[..k]))] + found;
    forall n | k <= n < |records| ensures all[n - k] == AsFound(records[n], OffsetAfter(records[..n])) {
      if n > k { assert all[n - k] == found[n - (k + 1)]; }
    }
  }

  lemma {:induction false} RecordInPlace(linkType: Word, snaplen: Word, records: seq<Record>, k: nat)
    requires Encodable(records) && k < |records|
    ensures
      var stream, at, next := Image(linkType, snaplen, records), OffsetAfter(records[..k]), OffsetAfter(records[..k + 1]);
      at < next == at + PREFIX + |records[k].bytes| <= |stream| && stream[at..next] == Encode(records[k])
  {
    var last := |records| - 1;
    var before := records[..last];
    assert records[..k + 1][..k] == records[..k];
    OffsetIsLength(linkType, snaplen, before);
    OffsetIsLength(linkType, snaplen, records);
    assert Image(linkType, snaplen, records) == Image(linkType, snaplen, before) + Encode(records[last]);
    hide Encode, EncodeAll, Header, Image;
    if k < last {
      RecordInPlace(linkType, snaplen, before, k);
      assert before[..k] == records[..k] && before[..k + 1] == records[..k + 1];
    } else {
      assert records[..k + 1] == records;
    }
  }

  /** The reader accepts the image exactly when every record is one it admits, and then it
      yields those records, in order, each at the offset where it was appended. */
  lemma {:induction false} RoundTrip(linkType: Word, snaplen: Word, records: seq<Record>)
    requires Encodable(records)
    ensures
      var found := Read(Image(linkType, snaplen, records));
      && (found.Some? <==> forall n | 0 <= n < |records| :: Readable(records[n]))
      && (found.Some? ==> Matches(found.value, records, 0))
  {
    var stream := Image(linkType, snaplen, records);
    ReadsTheRest(linkType, snaplen, records, 0);
    assert records[..0] == [];
    OffsetIsLength(linkType, snaplen, records);
    MagicBytes();
    assert stream[..4] == LittleEndian(MAGIC);
  }
}
