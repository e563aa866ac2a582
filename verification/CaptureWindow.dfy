/** The packet table of a live capture: appended to together with a PCAP image in memory,
    or kept as a window over a capture that is recorded on disk. */
module CaptureWindow {
  import opened Common
  import opened PcapImage

  const SNAPLEN: Word := 2048
  const MAX_PACKETS := 20000
  const MAX_BYTES := 32 * 1024 * 1024

  datatype Packet = Packet(number: nat, fileOffset: nat, ticks: nat, originalLen: Word, capturedLen: Word, bytes: seq<Byte>)

  /** The row's summary and its search text are functions of the packet; only which packet
      they were made from is kept. */
  datatype Summary = Summary(of: Packet)
  datatype SearchText = SearchText(of: Packet)

  function MakePacket(r: Record, number: nat, fileOffset: nat): Packet {
    Packet(number, fileOffset, r.seconds * 1000000 + r.micros, r.originalLen, |r.bytes| % 0x1_0000_0000, r.bytes)
  }

  function Weight(packets: seq<Packet>): nat {
    if packets == [] then 0 else |packets[0].bytes| + Weight(packets[1..])
  }

  lemma {:induction false} WeightConcat(a: seq<Packet>, b: seq<Packet>)
    ensures Weight(a + b) == Weight(a) + Weight(b)
  {
    if a == [] {
      assert a + b == b;
    } else {
      WeightConcat(a[1..], b);
      assert (a + b)[1..] == a[1..] + b;
    }
  }

  lemma WeightOne(p: Packet)
    ensures Weight([p]) == |p.bytes|
  {
    assert [p][1..] == [];
    assert Weight([]) == 0;
  }

  lemma WeightSplit(p: seq<Packet>, i: nat)
    requires i <= |p|
    ensures Weight(p) == Weight(p[..i]) + Weight(p[i..])
  {
    WeightConcat(p[..i], p[i..]);
    assert p == p[..i] + p[i..];
  }

  /** Packets with fewer bytes than the original. */
  function Shortened(packets: seq<Packet>): nat {
    if packets == [] then 0
    else Shortened(packets[..|packets| - 1]) + IsShort(packets[|packets| - 1])
  }

  function IsShort(p: Packet): nat {
    if p.capturedLen < p.originalLen then 1 else 0
  }

  lemma ShortenedGrows(packets: seq<Packet>, p: Packet)
    ensures Shortened(packets + [p]) == Shortened(packets) + IsShort(p)
  {
    assert (packets + [p])[..|packets|] == packets;
  }

  function ShortRows(packets: seq<Packet>): set<int> {
    set k | 0 <= k < |packets| && packets[k].capturedLen < packets[k].originalLen
  }

  /** The counter of shortened packets counts just those. */
  lemma {:induction false} ShortenedCounts(packets: seq<Packet>)
    ensures Shortened(packets) == |ShortRows(packets)|
  {
    if packets == [] {
      assert ShortRows(packets) == {};
    } else {
      var n := |packets| - 1;
      ShortenedCounts(packets[..n]);
      assert ShortRows(packets) == ShortRows(packets[..n]) + if packets[n].capturedLen < packets[n].originalLen then {n} else {};
    }
  }

  // ----- the columns -----

  /** Every row of the summaries and of the search texts is about the packet of that row. */
  ghost predicate Columns(packets: seq<Packet>, summaries: seq<Summary>, search: seq<SearchText>) {
    && |summaries| == |packets| == |search|
    && forall k | 0 <= k < |packets| :: summaries[k] == Summary(packets[k]) && search[k] == SearchText(packets[k])
  }

  lemma EmptyTable()
    ensures Columns([], [], []) && Weight([]) == 0
  {
  }

  lemma ColumnsGrow(packets: seq<Packet>, summaries: seq<Summary>, search: seq<SearchText>, p: Packet)
    requires Columns(packets, summaries, search)
    ensures Columns(packets + [p], summaries + [Summary(p)], search + [SearchText(p)])
  {
  }

  lemma ColumnsShrink(packets: seq<Packet>, summaries: seq<Summary>, search: seq<SearchText>, n: nat)
    requires Columns(packets, summaries, search) && n <= |packets|
    ensures n <= |summaries| && n <= |search|
    ensures Columns(packets[n..], summaries[n..], search[n..])
  {
  }

  /** The packets are made from the records, numbered from one. */
  ghost predicate MadeFrom(packets: seq<Packet>, records: seq<Record>) {
    && |packets| == |records|
    && forall k | 0 <= k < |packets| :: packets[k] == MakePacket(records[k], k + 1, packets[k].fileOffset)
  }

  lemma MadeFromGrows(packets: seq<Packet>, records: seq<Record>, r: Record, fileOffset: nat)
    requires MadeFrom(packets, records)
    ensures MadeFrom(packets + [MakePacket(r, |packets| + 1, fileOffset)], records + [r])
  {
  }

  /** Each packet knows where its record begins in the file. */
  ghost predicate InFile(packets: seq<Packet>, records: seq<Record>) {
    |packets| == |records| && forall k | 0 <= k < |packets| :: packets[k].fileOffset == OffsetAfter(records[..k])
  }

  lemma InFileGrows(packets: seq<Packet>, records: seq<Record>, p: Packet, r: Record)
    requires InFile(packets, records) && p.fileOffset == OffsetAfter(records)
    ensures InFile(packets + [p], records + [r])
  {
    forall k | 0 <= k <= |packets| ensures (packets + [p])[k].fileOffset == OffsetAfter((records + [r])[..k]) {
      assert (records + [r])[..k] == if k < |records| then records[..k] else records;
    }
  }

  // ----- a sample of numbered packets -----

  ghost predicate Distinct(packets: seq<Packet>, total: nat) {
    && (forall k | 0 <= k < |packets| :: 0 < packets[k].number <= total)
    && (forall a, b | 0 <= a < |packets| && 0 <= b < |packets| && packets[a].number == packets[b].number :: a == b)
  }

  /** The first rows, with one more packet whose number is not among theirs. */
  lemma DistinctRows(packets: seq<Packet>, total: nat, n: nat, p: Packet)
    requires Distinct(packets, total) && n <= |packets|
    ensures Distinct(packets[..n], total)
    ensures 0 < p.number <= total && (forall k | 0 <= k < n :: packets[k].number != p.number) ==>
              Distinct(packets[..n] + [p], total)
  {
  }

  predicate Ascending(packets: seq<Packet>) {
    forall a, b | 0 <= a < b < |packets| :: packets[a].number < packets[b].number
  }

  lemma AscendingIsDistinct(packets: seq<Packet>, total: nat)
    requires Ascending(packets) && forall k | 0 <= k < |packets| :: 0 < packets[k].number <= total
    ensures Distinct(packets, total)
  {
    assert forall a, b | 0 <= a < b < |packets| :: packets[a].number != packets[b].number;
  }

  /** Exactly the samples numbered below `n`, in the order of their numbers. */
  predicate Ordered(packets: seq<Packet>, samples: map<nat, Packet>, n: nat) {
    && Ascending(packets)
    && (forall k | 0 <= k < |packets| ::
          packets[k].number < n && packets[k].number in samples && samples[packets[k].number] == packets[k])
    && (forall m | m in samples && m < n :: samples[m] in packets)
  }

  lemma OrderedGrows(packets: seq<Packet>, samples: map<nat, Packet>, n: nat)
    requires Ordered(packets, samples, n) && (n in samples ==> samples[n].number == n)
    ensures Ordered(if n in samples then packets + [samples[n]] else packets, samples, n + 1)
  {
    if n in samples {
      var grown := packets + [samples[n]];
      assert grown[|packets|] == samples[n];
      forall m | m in samples && m < n + 1 ensures samples[m] in grown {
        if m < n { assert samples[m] in packets; }
      }
    }
  }

  /** The rows of a sample, its entries taken in ascending order. */
  method InOrder(samples: map<nat, Packet>, total: nat)
    returns (packets: seq<Packet>, summaries: seq<Summary>, search: seq<SearchText>, retained: nat)
    requires forall n | n in samples :: 0 < n <= total && samples[n].number == n
    ensures Ordered(packets, samples, total + 1)
    ensures Columns(packets, summaries, search) && retained == Weight(packets)
  {
    packets, summaries, search, retained := [], [], [], 0;
    EmptyTable();
    hide Weight, Columns, Ordered;
    assert Ordered([], samples, 1) by { NoneOrdered(samples); }
    for n := 1 to total + 1
      invariant Ordered(packets, samples, n)
      invariant Columns(packets, summaries, search) && retained == Weight(packets)
    {
      OrderedGrows(packets, samples, n);
      if n in samples {
        ColumnsGrow(packets, summaries, search, samples[n]);
        WeightConcat(packets, [samples[n]]);
        WeightOne(samples[n]);
        packets, summaries := packets + [samples[n]], summaries + [Summary(samples[n])];
        search := search + [SearchText(samples[n])];
        retained := retained + |samples[n].bytes|;
      }
    }
  }

  lemma NoneOrdered(samples: map<nat, Packet>)
    requires 0 !in samples
    ensures Ordered([], samples, 1)
  {
  }

  ghost function Numbers(packets: seq<Packet>): set<nat> {
    set p | p in packets :: p.number
  }

  lemma {:induction false} NumbersSize(packets: seq<Packet>, total: nat)
    requires Distinct(packets, total)
    ensures |Numbers(packets)| == |packets|
  {
    if packets != [] {
      var last := packets[|packets| - 1];
      var before := packets[..|packets| - 1];
      NumbersSize(before, total);
      assert packets == before + [last];
      assert Numbers(packets) == Numbers(before) + {last.number};
      assert last.number !in Numbers(before);
    }
  }

  function OneTo(n: nat): (r: set<nat>)
    ensures |r| == n && forall k :: k in r <==> 0 < k <= n
  {
    if n == 0 then {} else OneTo(n - 1) + {n}
  }

  /** So many different numbers, so many packets at least. */
  lemma {:induction false} NoMoreThanTotal(packets: seq<Packet>, total: nat)
    requires Distinct(packets, total)
    ensures |packets| <= total
  {
    NumbersSize(packets, total);
    SubsetSize(Numbers(packets), OneTo(total));
  }

  // ----- what the window should hold -----

  predicate Fits(packets: seq<Packet>) {
    |packets| <= 20000 && Weight(packets) <= 33554432
  }

  /** The rows from `start` on are the longest suffix within both bounds or, when not even
      the newest packet alone is, just that packet. */
  ghost predicate IsWindow(all: seq<Packet>, start: nat) {
    && start <= |all|
    && (all != [] ==> start < |all|)
    && (Fits(all[start..]) || start + 1 == |all|)
    && forall earlier | 0 <= earlier < start :: !Fits(all[earlier..])
  }

  lemma NotEarlier(all: seq<Packet>, i: nat, j: nat)
    requires IsWindow(all, i) && IsWindow(all, j)
    ensures !(i < j)
  {
    hide Fits;
  }

  /** The specification leaves one choice. */
  lemma WindowIsUnique(all: seq<Packet>, i: nat, j: nat)
    requires IsWindow(all, i) && IsWindow(all, j)
    ensures i == j
  {
    if i < j {
      NotEarlier(all, i, j);
    } else if j < i {
      NotEarlier(all, j, i);
    }
  }

  /** A suffix that did not fit does not fit with one more packet. */
  lemma DroppedStaysDropped(all: seq<Packet>, p: Packet, i: nat)
    requires i <= |all| && !Fits(all[i..])
    ensures !Fits((all + [p])[i..])
  {
    assert (all + [p])[i..] == all[i..] + [p];
    WeightConcat(all[i..], [p]);
  }

  // ----- the table -----

  class Inspection {
    const linkType: Word
    var packets: seq<Packet>
    var summaries: seq<Summary>
    var search: seq<SearchText>
    var total: nat
    var omitted: nat
    var truncated: nat
    var retained: nat
    var fileBytes: nat
    var sampleCount: nat
    /** Every packet ever appended, and the records they were made from. */
    ghost var pushed: seq<Packet>
    ghost var records: seq<Record>

    /** The table shows the packets appended from the first one not omitted on. */
    ghost predicate Valid()
      reads this
    {
      && Columns(packets, summaries, search)
      && sampleCount == |packets|
      && retained == Weight(packets)
      && total == |pushed| && omitted + |packets| == total
      && packets == pushed[omitted..]
      && truncated == Shortened(pushed)
      && MadeFrom(pushed, records)
    }

    ghost predicate Windowed()
      reads this
    {
      Valid() && IsWindow(pushed, omitted)
    }

    /** Diagnostic mode: nothing is dropped, the bounds hold and `file` is the image. */
    ghost predicate Live(file: seq<Byte>)
      reads this
    {
      && Valid() && omitted == 0
      && Fits(packets)
      && Encodable(records)
      && InFile(pushed, records)
      && file == Image(linkType, SNAPLEN, records)
      && fileBytes == |file|
    }

    constructor (linkType: Word)
      ensures this.linkType == linkType
      ensures pushed == [] && Windowed()
      ensures Live(Header(linkType, SNAPLEN))
    {
      this.linkType := linkType;
      packets, summaries, search, total, omitted, truncated, retained := [], [], [], 0, 0, 0, 0;
      fileBytes, sampleCount, pushed, records := HEADER, 0, [], [];
      new;
      assert Header(linkType, SNAPLEN) == Image(linkType, SNAPLEN, []);
      assert pushed[0..] == [];
    }

    /** A sample of distinct packets, with at most one more row for a recovered packet. */
    ghost predicate Sampled()
      reads this
    {
      && sampleCount <= |packets| == |summaries| && |packets| <= sampleCount + 1
      && Columns(packets[..sampleCount], summaries[..sampleCount], search)
      && (|packets| > sampleCount ==> summaries[sampleCount] == Summary(packets[sampleCount]))
      && Distinct(packets, total)
      && retained == Weight(packets)
      && omitted + |packets| == total
    }

    /** The display sample of a scanned dump, in the order of the packet numbers. */
    constructor Scan(linkType: Word, total: nat, samples: map<nat, Packet>, fileBytes: nat, truncated: nat)
      requires forall n | n in samples :: 0 < n <= total && samples[n].number == n
      ensures Sampled() && this.total == total && sampleCount == |packets|
      ensures Ordered(packets, samples, total + 1)
    {
      var rows, summaries, search, retained := InOrder(samples, total);
      AscendingIsDistinct(rows, total);
      NoMoreThanTotal(rows, total);
      ColumnsShrink(rows, summaries, search, 0);
      this.linkType, this.total, this.omitted, this.sampleCount := linkType, total, total - |rows|, |rows|;
      this.packets, this.summaries, this.search, this.retained := rows, summaries, search, retained;
      this.fileBytes, this.truncated, this.pushed, this.records := fileBytes, truncated, [], [];
      assert rows[..|rows|] == rows && summaries[..|rows|] == summaries;
    }

    /** The row of `number` in the sample. */
    method Position(number: nat) returns (index: Option<nat>)
      ensures index.None? ==> forall k | 0 <= k < |packets| :: packets[k].number != number
      ensures index.Some? ==> index.value < |packets| && packets[index.value].number == number
    {
      for k := 0 to |packets|
        invariant forall n | 0 <= n < k :: packets[n].number != number
      {
        if packets[k].number == number { return Some(k); }
      }
      index := None;
    }

    /** `sameDump`: the packet was recovered from this capture file and interface table. */
    method InstallRecovered(recovered: Packet, sameDump: bool) returns (index: Option<nat>)
      requires Sampled()
      modifies `packets, `summaries, `search, `retained, `omitted
      ensures Sampled()
      ensures index.Some? <==> sameDump && 0 < recovered.number <= total
      ensures index.None? ==> unchanged(this)
      ensures index.Some? ==>
                && index.value < |packets| && packets[index.value].number == recovered.number
                && summaries[index.value] == Summary(packets[index.value])
                && packets == if index.value < sampleCount then old(packets)[..sampleCount]
                              else old(packets)[..sampleCount] + [recovered]
    {
      hide Columns, Weight, Distinct;
      if !sameDump || recovered.number == 0 || recovered.number > total { return None; }
      DistinctRows(packets, total, sampleCount, recovered);
      ColumnsShrink(packets[..sampleCount], summaries[..sampleCount], search, 0);
      packets, summaries, search := packets[..sampleCount], summaries[..sampleCount], search[..sampleCount];
      index := Position(recovered.number);
      if index.None? {
        packets, summaries := packets + [recovered], summaries + [Summary(recovered)];
        index := Some(sampleCount);
      }
      assert packets[..sampleCount] == old(packets)[..sampleCount];
      assert summaries[..sampleCount] == old(summaries)[..sampleCount];
      assert search == old(search);
      NoMoreThanTotal(packets, total);
      retained := Weight(packets);
      omitted := total - |packets|;
    }

    method Append(record: Record, fileOffset: nat)
      requires Valid()
      modifies this
      ensures Valid()
      ensures records == old(records) + [record]
      ensures pushed == old(pushed) + [MakePacket(record, |old(pushed)| + 1, fileOffset)]
      ensures packets == old(packets) + [MakePacket(record, |old(pushed)| + 1, fileOffset)]
      ensures omitted == old(omitted) && fileBytes == old(fileBytes)
    {
      hide Columns, MadeFrom, Weight, Shortened;
      var number := total + 1;
      var packet := MakePacket(record, number, fileOffset);
      ColumnsGrow(packets, summaries, search, packet);
      MadeFromGrows(pushed, records, record, fileOffset);
      ShortenedGrows(pushed, packet);
      WeightConcat(packets, [packet]);
      WeightOne(packet);
      search := search + [SearchText(packet)];
      if packet.capturedLen < packet.originalLen {
        truncated := truncated + 1;
      }
      retained := retained + |packet.bytes|;
      packets := packets + [packet];
      summaries := summaries + [Summary(packet)];
      total := number;
      sampleCount := |packets|;
      pushed, records := pushed + [packet], records + [record];
      assert MakePacket(record, number, fileOffset).bytes == record.bytes;
    }

    method PushLive(record: Record, file: seq<Byte>) returns (accepted: bool, grown: seq<Byte>)
      requires Live(file)
      modifies this
      ensures Live(grown)
      ensures accepted <==> |old(packets)| < MAX_PACKETS && Weight(old(packets)) + |record.bytes| <= MAX_BYTES
      ensures accepted ==> records == old(records) + [record] && grown == file + Encode(record)
      ensures !accepted ==> unchanged(this) && grown == file
    {
      hide Columns, MadeFrom, Weight, Shortened, InFile, Image;
      if |packets| >= MAX_PACKETS || retained + |record.bytes| > MAX_BYTES {
        return false, file;
      }
      ImageGrows(linkType, records, record, file);
      var fileOffset := |file|;
      grown := file + (LittleEndian(record.seconds) + LittleEndian(record.micros)
                       + LittleEndian(|record.bytes|) + LittleEndian(record.originalLen) + record.bytes);
      ghost var packet := MakePacket(record, |pushed| + 1, fileOffset);
      InFileGrows(pushed, records, packet, record);
      WeightConcat(packets, [packet]);
      WeightOne(packet);
      Append(record, fileOffset);
      fileBytes := |grown|;
      accepted := true;
    }

    /** How many of the oldest rows `packets` has to lose. */
    method Excess() returns (excess: nat)
      requires Valid() && packets != []
      requires |packets| <= MAX_PACKETS + 1
      ensures excess < |packets|
      ensures Fits(packets[excess..]) || excess + 1 == |packets|
      ensures forall earlier | 0 <= earlier < excess :: !Fits(packets[earlier..])
    {
      hide Columns, MadeFrom, Shortened, Weight;
      excess := if |packets| > MAX_PACKETS then |packets| - MAX_PACKETS else 0;
      WeightSplit(packets, excess);
      var bytes := retained - Weight(packets[..excess]);
      while bytes > MAX_BYTES && excess + 1 < |packets|
        invariant excess < |packets| && |packets| - excess <= MAX_PACKETS
        invariant bytes == Weight(packets[excess..])
        invariant forall earlier | 0 <= earlier < excess :: !Fits(packets[earlier..])
        decreases |packets| - excess
      {
        WeightConcat([packets[excess]], packets[excess + 1..]);
        WeightOne(packets[excess]);
        assert packets[excess..] == [packets[excess]] + packets[excess + 1..];
        bytes := bytes - |packets[excess].bytes|;
        excess := excess + 1;
      }
    }

    method PushWindow(record: Record) returns (excess: nat)
      requires Windowed()
      modifies this
      ensures Windowed()
      ensures records == old(records) + [record]
      ensures pushed == old(pushed) + [MakePacket(record, |old(pushed)| + 1, 0)]
      ensures omitted == old(omitted) + excess
    {
      hide Columns, MadeFrom, Weight, Shortened, IsWindow, Fits;
      ghost var before, start := pushed, omitted;
      WindowIsShort(pushed, omitted);
      Append(record, 0);
      excess := Excess();
      WindowMoves(before, start, pushed, excess);
      if excess > 0 { DropOldest(excess); }
    }

    method DropOldest(excess: nat)
      requires Valid() && excess <= |packets|
      modifies `packets, `summaries, `search, `retained, `omitted, `sampleCount
      ensures Valid() && omitted == old(omitted) + excess
    {
      hide Columns, MadeFrom, Weight, Shortened;
      WeightSplit(packets, excess);
      ColumnsShrink(packets, summaries, search, excess);
      assert packets[excess..] == pushed[omitted + excess..];
      var removed := Weight(packets[..excess]);
      packets := packets[excess..];
      summaries := summaries[excess..];
      search := search[excess..];
      retained := retained - removed;
      omitted := omitted + excess;
      sampleCount := |packets|;
    }
  }

  /** What `Excess` finds in the grown table is the start of the new window. */
  lemma WindowMoves(before: seq<Packet>, start: nat, after: seq<Packet>, excess: nat)
    requires IsWindow(before, start)
    requires |after| == |before| + 1 && before == after[..|before|]
    requires start + excess < |after|
    requires Fits(after[start..][excess..]) || start + excess + 1 == |after|
    requires forall earlier | 0 <= earlier < excess :: !Fits(after[start..][earlier..])
    ensures IsWindow(after, start + excess)
  {
    hide Fits;
    assert after == before + [after[|before|]];
    assert after[start..][excess..] == after[start + excess..];
    forall earlier | 0 <= earlier < start + excess ensures !Fits(after[earlier..]) {
      if earlier < start {
        DroppedStaysDropped(before, after[|before|], earlier);
      } else {
        assert after[start..][earlier - start..] == after[earlier..];
      }
    }
  }

  lemma ImageGrows(linkType: Word, records: seq<Record>, record: Record, file: seq<Byte>)
    requires Encodable(records) && |record.bytes| < 0x1_0000_0000
    requires file == Image(linkType, SNAPLEN, records)
    ensures file + Encode(record) == Image(linkType, SNAPLEN, records + [record])
    ensures |file| == OffsetAfter(records)
  {
    OffsetIsLength(linkType, SNAPLEN, records);
    assert (records + [record])[..|records|] == records;
  }

  lemma WindowIsShort(all: seq<Packet>, start: nat)
    requires IsWindow(all, start)
    ensures |all| - start <= MAX_PACKETS
  {
  }

  // ----- the batches of `drain_live` -----

  /** One batch in long mode. Whatever row was selected, the selection afterwards is the
      row of the same packet, or none exactly when that packet has left the table. */
  method DrainRecorded(data: Inspection, batch: seq<Record>, selected: Option<nat>) returns (remapped: Option<nat>)
    requires data.Windowed()
    requires selected.Some? ==> selected.value < |data.packets|
    modifies data
    ensures data.Windowed()
    ensures data.records == old(data.records) + batch
    ensures selected.None? ==> remapped.None?
    ensures remapped.Some? ==>
      remapped.value < |data.packets| && data.packets[remapped.value] == old(data.packets)[selected.value]
    ensures selected.Some? && remapped.None? ==> old(data.packets)[selected.value] !in data.packets
  {
    hide Columns, MadeFrom, Weight, Shortened, IsWindow, Fits;
    var dropped := 0;
    var i := 0;
    ghost var before := data.pushed;
    assert batch[..0] == [];
    while i < |batch|
      invariant i <= |batch| && data.Windowed()
      invariant data.records == old(data.records) + batch[..i]
      invariant before <= data.pushed
      invariant data.omitted == old(data.omitted) + dropped
    {
      assert batch[..i + 1] == batch[..i] + [batch[i]];
      var excess := data.PushWindow(batch[i]);
      dropped := dropped + excess;
      i := i + 1;
    }
    assert batch[..i] == batch;
    remapped := if selected.Some? && selected.value >= dropped then Some(selected.value - dropped) else None;
    if selected.Some? {
      ghost var row := old(data.omitted) + selected.value;
      assert old(data.packets)[selected.value] == before[row] == data.pushed[row];
      RowOf(data.pushed, data.records, data.omitted, row);
    }
  }

  /** A packet is shown exactly when its row has not been dropped. */
  lemma RowOf(pushed: seq<Packet>, records: seq<Record>, omitted: nat, row: nat)
    requires MadeFrom(pushed, records) && omitted <= |pushed| && row < |pushed|
    ensures if row < omitted then pushed[row] !in pushed[omitted..]
            else row - omitted < |pushed[omitted..]| && pushed[omitted..][row - omitted] == pushed[row]
  {
  }

  function Bytes(records: seq<Record>): nat {
    if records == [] then 0 else Bytes(records[..|records| - 1]) + |records[|records| - 1].bytes|
  }

  lemma BytesGrow(records: seq<Record>, r: Record)
    ensures Bytes(records + [r]) == Bytes(records) + |r.bytes|
  {
    assert (records + [r])[..|records|] == records;
  }

  /** The memory bounds leave room for one more record. */
  predicate Room(kept: seq<Record>, r: Record) {
    |kept| < MAX_PACKETS && Bytes(kept) + |r.bytes| <= MAX_BYTES
  }

  /** A batch is taken up to its first record without room. */
  function TakeBatch(kept: seq<Record>, batch: seq<Record>): seq<Record>
    decreases |batch|
  {
    if batch == [] || !Room(kept, batch[0]) then kept else TakeBatch(kept + [batch[0]], batch[1..])
  }

  /** The batches that are queued already are taken too. */
  function TakeAll(kept: seq<Record>, batches: seq<seq<Record>>): seq<Record>
    decreases |batches|
  {
    if batches == [] then kept else TakeAll(TakeBatch(kept, batches[0]), batches[1..])
  }

  function Flat(batches: seq<seq<Record>>): seq<Record> {
    if batches == [] then [] else batches[0] + Flat(batches[1..])
  }

  lemma {:induction false} WeightIsBytes(packets: seq<Packet>, records: seq<Record>)
    requires MadeFrom(packets, records)
    ensures Weight(packets) == Bytes(records)
  {
    if packets != [] {
      var n := |packets| - 1;
      WeightIsBytes(packets[..n], records[..n]);
      assert packets == packets[..n] + [packets[n]];
      WeightConcat(packets[..n], [packets[n]]);
      WeightOne(packets[n]);
    }
  }

  lemma {:induction false} TakeBatchAppends(kept: seq<Record>, a: seq<Record>, b: seq<Record>)
    requires TakeBatch(kept, a) == kept + a
    ensures TakeBatch(kept, a + b) == TakeBatch(kept + a, b)
    decreases |a|
  {
    if a == [] {
      assert a + b == b && kept + a == kept;
    } else {
      var r, rest := a[0], a[1..];
      assert a == [r] + rest && (a + b)[1..] == rest + b;
      assert kept + a == kept + [r] + rest;
      assert |kept + a| > |kept|;
      TakeBatchAppends(kept + [r], rest, b);
    }
  }

  lemma TakeBatchOne(kept: seq<Record>, r: Record)
    ensures TakeBatch(kept, [r]) == if Room(kept, r) then kept + [r] else kept
  {
    assert [r][1..] == [];
  }

  lemma TakeBatchNext(kept: seq<Record>, batch: seq<Record>, n: nat)
    requires n < |batch| && TakeBatch(kept, batch[..n]) == kept + batch[..n]
    ensures
      if Room(kept + batch[..n], batch[n]) then TakeBatch(kept, batch[..n + 1]) == kept + batch[..n + 1]
      else TakeBatch(kept, batch) == kept + batch[..n]
  {
    hide Room;
    var now := kept + batch[..n];
    assert batch[..n + 1] == batch[..n] + [batch[n]] && batch == batch[..n] + batch[n..];
    TakeBatchAppends(kept, batch[..n], [batch[n]]);
    TakeBatchAppends(kept, batch[..n], batch[n..]);
    TakeBatchOne(now, batch[n]);
  }

  /** What is taken of a batch is a beginning of it, and the next record has no room. */
  lemma {:induction false} TakeBatchGrows(kept: seq<Record>, batch: seq<Record>)
    ensures
      var taken := |TakeBatch(kept, batch)| - |kept|;
      && 0 <= taken <= |batch| && TakeBatch(kept, batch) == kept + batch[..taken]
      && (taken < |batch| ==> !Room(kept + batch[..taken], batch[taken]))
      && (taken == 0 && batch != [] ==> !Room(kept, batch[0]))
    decreases |batch|
  {
    if batch == [] || !Room(kept, batch[0]) {
      assert kept + batch[..0] == kept;
    } else {
      TakeBatchGrows(kept + [batch[0]], batch[1..]);
      var taken := |TakeBatch(kept, batch)| - |kept|;
      assert kept + batch[..taken] == kept + [batch[0]] + batch[1..][..taken - 1];
    }
  }

  /** One batch in diagnostic mode: it stops at the first record refused. */
  method DrainLive(data: Inspection, batch: seq<Record>, file: seq<Byte>) returns (grown: seq<Byte>, taken: nat)
    requires data.Live(file)
    modifies data
    ensures data.Live(grown) && taken <= |batch|
    ensures data.records == old(data.records) + batch[..taken]
    ensures taken < |batch| ==> |data.packets| >= MAX_PACKETS || Weight(data.packets) + |batch[taken].bytes| > MAX_BYTES
    ensures data.records == TakeBatch(old(data.records), batch)
  {
    hide Columns, MadeFrom, Weight, Shortened, IsWindow, Fits, InFile, Image, Encode, Encodable, TakeBatch, Bytes;
    grown, taken := file, 0;
    ghost var before := data.records;
    assert batch[..0] == [] && TakeBatch(before, []) == before by { TakeBatchGrows(before, []); }
    while taken < |batch|
      invariant taken <= |batch| && data.Live(grown)
      invariant data.records == before + batch[..taken] == TakeBatch(before, batch[..taken])
    {
      assert batch[..taken + 1] == batch[..taken] + [batch[taken]];
      WeightIsBytes(data.pushed, data.records);
      assert data.packets == data.pushed && |data.packets| == |data.records| by { AsManyRecords(data.pushed, data.records); }
      TakeBatchNext(before, batch, taken);
      var accepted;
      accepted, grown := data.PushLive(batch[taken], grown);
      if !accepted { return; }
      taken := taken + 1;
    }
    assert batch[..taken] == batch;
  }

  lemma AsManyRecords(packets: seq<Packet>, records: seq<Record>)
    requires MadeFrom(packets, records)
    ensures |packets| == |records|
  {
  }

  /** `drain_live` stops the capture at a refusal and goes on with what is queued. */
  method DrainBatches(data: Inspection, batches: seq<seq<Record>>, file: seq<Byte>) returns (grown: seq<Byte>, full: bool)
    requires data.Live(file)
    modifies data
    ensures data.Live(grown)
    ensures data.records == TakeAll(old(data.records), batches)
    ensures !full ==> data.records == old(data.records) + Flat(batches)
    ensures full ==> |data.records| < |old(data.records)| + |Flat(batches)|
  {
    hide Columns, MadeFrom, Weight, Shortened, IsWindow, Fits, InFile, Image, Encode, Encodable, TakeBatch, Bytes;
    grown, full := file, false;
    ghost var before := data.records;
    assert before + Flat([]) == before;
    for n := 0 to |batches|
      invariant data.Live(grown)
      invariant TakeAll(before, batches) == TakeAll(data.records, batches[n..])
      invariant if full then |data.records| < |before| + |Flat(batches[..n])| else data.records == before + Flat(batches[..n])
    {
      FlatGrows(batches, n);
      assert batches[n..][1..] == batches[n + 1..];
      var taken;
      grown, taken := DrainLive(data, batches[n], grown);
      if taken < |batches[n]| {
        full := true;
      } else {
        assert batches[n][..taken] == batches[n];
      }
    }
    assert batches[..|batches|] == batches;
  }

  lemma {:induction false} FlatGrows(batches: seq<seq<Record>>, n: nat)
    requires n < |batches|
    ensures Flat(batches[..n + 1]) == Flat(batches[..n]) + batches[n]
  {
    if n == 0 {
      assert batches[..1] == [batches[0]] && [batches[0]][1..] == [] && batches[..0] == [];
    } else {
      FlatGrows(batches[1..], n - 1);
      assert batches[..n + 1][1..] == batches[1..][..n] && batches[..n][1..] == batches[1..][..n - 1];
    }
  }

  // ----- whether the kept packets are those that came first -----

  /** No batch begins with a record that has room. */
  predicate NoneFits(kept: seq<Record>, batches: seq<seq<Record>>) {
    forall k | 0 <= k < |batches| && batches[k] != [] :: !Room(kept, batches[k][0])
  }

  /** Once a batch is cut short, no later one begins with a record that has room. */
  predicate StopsForGood(kept: seq<Record>, batches: seq<seq<Record>>)
    decreases |batches|
  {
    batches != [] ==>
      var taken := TakeBatch(kept, batches[0]);
      if |taken| == |kept| + |batches[0]| then StopsForGood(taken, batches[1..]) else NoneFits(taken, batches[1..])
  }

  lemma {:induction false} NoneFitting(kept: seq<Record>, batches: seq<seq<Record>>)
    requires NoneFits(kept, batches)
    ensures TakeAll(kept, batches) == kept
    decreases |batches|
  {
    if batches != [] {
      assert TakeBatch(kept, batches[0]) == kept;
      forall k | 0 <= k < |batches[1..]| && batches[1..][k] != [] ensures !Room(kept, batches[1..][k][0]) {
        assert batches[1..][k] == batches[k + 1];
      }
      NoneFitting(kept, batches[1..]);
    }
  }

  lemma {:induction false} TakeAllGrows(kept: seq<Record>, batches: seq<seq<Record>>)
    ensures kept <= TakeAll(kept, batches)
    decreases |batches|
  {
    if batches != [] {
      TakeBatchGrows(kept, batches[0]);
      TakeAllGrows(TakeBatch(kept, batches[0]), batches[1..]);
    }
  }

  /** The first record kept of batches that hold one with room at their beginning. */
  lemma {:induction false} SomeFits(kept: seq<Record>, batches: seq<seq<Record>>)
    requires !NoneFits(kept, batches)
    ensures |TakeAll(kept, batches)| > |kept| && Room(kept, TakeAll(kept, batches)[|kept|])
    decreases |batches|
  {
    var first := batches[0];
    var taken := TakeBatch(kept, first);
    TakeBatchGrows(kept, first);
    if taken != kept {
      TakeAllGrows(taken, batches[1..]);
      assert taken[|kept|] == first[0];
    } else {
      var k :| 0 <= k < |batches| && batches[k] != [] && Room(kept, batches[k][0]);
      assert k > 0 && batches[1..][k - 1] == batches[k];
      SomeFits(kept, batches[1..]);
    }
  }

  lemma CutHere(kept: seq<Record>, first: seq<Record>, rest: seq<Record>, n: nat)
    requires n < |first|
    ensures
      var taken, all := kept + first[..n], kept + (first + rest);
      |taken| < |all| && taken == all[..|taken|] && all[|taken|] == first[n]
  {
  }

  /** The packets kept are the first ones that were delivered, with none missing in between,
      if and only if no batch after one that was cut short begins with a record that fits. */
  lemma {:induction false} KeptIsPrefixExactly(kept: seq<Record>, batches: seq<seq<Record>>)
    ensures TakeAll(kept, batches) <= kept + Flat(batches) <==> StopsForGood(kept, batches)
    decreases |batches|
  {
    if batches == [] {
      assert kept + Flat(batches) == kept;
    } else {
      var first, rest := batches[0], batches[1..];
      var taken := TakeBatch(kept, first);
      var n := |taken| - |kept|;
      TakeBatchGrows(kept, first);
      var all := kept + Flat(batches);
      if n == |first| {
        assert first[..n] == first;
        assert all == taken + Flat(rest);
        KeptIsPrefixExactly(taken, rest);
      } else {
        CutHere(kept, first, Flat(rest), n);
        assert taken == kept + first[..n] && all == kept + (first + Flat(rest)) && !Room(taken, first[n]);
        if NoneFits(taken, rest) { NoneFitting(taken, rest); } else { SomeFits(taken, rest); }
      }
    }
  }

  function Zeros(): (z: seq<Byte>)
    ensures |z| == SNAPLEN
  {
    seq(SNAPLEN, k => 0)
  }

  const FULL := Record(0, 0, SNAPLEN, Zeros())
  const SMALL := Record(0, 0, 1, [0])
  /** One full-sized packet short of the byte bound. */
  const NEARLY := MAX_BYTES / SNAPLEN - 1

  function Fulls(n: nat): (r: seq<Record>)
    ensures |r| == n
  {
    if n == 0 then [] else Fulls(n - 1) + [FULL]
  }

  /** Batches of one full-sized packet each. */
  function Singles(n: nat): seq<seq<Record>> {
    if n == 0 then [] else Singles(n - 1) + [[FULL]]
  }

  lemma {:induction false} Fills(n: nat)
    requires n <= NEARLY
    ensures Bytes(Fulls(n)) == n * SNAPLEN
    ensures TakeAll([], Singles(n)) == Fulls(n) == Flat(Singles(n))
  {
    if n > 0 {
      Fills(n - 1);
      BytesGrow(Fulls(n - 1), FULL);
      TakeAllAppends([], Singles(n - 1), [[FULL]]);
      TakesOne(Fulls(n - 1), FULL);
      FlatAppends(Singles(n - 1), FULL);
      hide TakeAll, Flat, Bytes;
    }
  }

  lemma {:induction false} TakeAllAppends(kept: seq<Record>, a: seq<seq<Record>>, b: seq<seq<Record>>)
    ensures TakeAll(kept, a + b) == TakeAll(TakeAll(kept, a), b)
    decreases |a|
  {
    if a == [] {
      assert a + b == b;
    } else {
      assert (a + b)[1..] == a[1..] + b;
      TakeAllAppends(TakeBatch(kept, a[0]), a[1..], b);
    }
  }

  lemma TakesOne(kept: seq<Record>, r: Record)
    ensures TakeAll(kept, [[r]]) == if Room(kept, r) then kept + [r] else kept
  {
    TakeBatchOne(kept, r);
    assert [[r]][1..] == [] && TakeAll(TakeBatch(kept, [r]), []) == TakeBatch(kept, [r]);
  }

  /** One more batch of one record. */
  lemma OneMoreBatch(batches: seq<seq<Record>>, r: Record)
    ensures
      var kept := TakeAll([], batches);
      TakeAll([], batches + [[r]]) == if Room(kept, r) then kept + [r] else kept
    ensures Flat(batches + [[r]]) == Flat(batches) + [r]
  {
    TakeAllAppends([], batches, [[r]]);
    TakesOne(TakeAll([], batches), r);
    FlatAppends(batches, r);
  }

  /** So the saved file can have a hole: of packets delivered one by one, all within the
      capture length, everything is kept but one full-sized packet before a small one. */
  lemma SavedWithAHole()
    ensures
      var batches := Singles(NEARLY) + [[SMALL]] + [[FULL]] + [[SMALL]];
      && Flat(batches) == Fulls(NEARLY) + [SMALL] + [FULL] + [SMALL]
      && TakeAll([], batches) == Fulls(NEARLY) + [SMALL] + [SMALL]
      && !(TakeAll([], batches) <= Flat(batches))
  {
    var kept := Fulls(NEARLY);
    Fills(NEARLY);
    NearlyFull();
    hide TakeAll, Flat, Bytes, Fulls, Singles, Room;
    OneMoreBatch(Singles(NEARLY), SMALL);
    OneMoreBatch(Singles(NEARLY) + [[SMALL]], FULL);
    OneMoreBatch(Singles(NEARLY) + [[SMALL]] + [[FULL]], SMALL);
    var all := kept + [SMALL] + [FULL] + [SMALL];
    assert all[NEARLY + 1] == FULL && (kept + [SMALL] + [SMALL])[NEARLY + 1] == SMALL;
  }

  lemma NearlyFull()
    ensures Room(Fulls(NEARLY), SMALL)
    ensures !Room(Fulls(NEARLY) + [SMALL], FULL) && Room(Fulls(NEARLY) + [SMALL], SMALL)
  {
    var kept := Fulls(NEARLY);
    Fills(NEARLY);
    BytesGrow(kept, SMALL);
    hide Bytes, Fulls, TakeAll, Flat;
    assert Bytes(kept) == NEARLY * SNAPLEN;
    assert |(kept + [SMALL])| == NEARLY + 1 && |FULL.bytes| == SNAPLEN && |SMALL.bytes| == 1;
  }

  lemma FlatAppends(batches: seq<seq<Record>>, r: Record)
    ensures Flat(batches + [[r]]) == Flat(batches) + [r]
  {
    var all := batches + [[r]];
    FlatGrows(all, |batches|);
    assert all[..|batches|] == batches && all[..|all|] == all;
  }

  /** The table and the file tell the same story: the sequential reader accepts the image
      exactly when it admits every record accepted, and then it finds the packet of each row
      at the offset that the row states. */
  lemma TableMatchesFile(data: Inspection, file: seq<Byte>)
    requires data.Live(file)
    ensures
      var found := Read(file);
      && (found.Some? <==> forall n | 0 <= n < |data.records| :: Readable(data.records[n]))
      && (found.Some? ==>
            && |found.value| == |data.packets| == |data.records|
            && forall k | 0 <= k < |data.packets| ::
                 && found.value[k].offset == data.packets[k].fileOffset
                 && found.value[k].payload == data.packets[k].bytes
                 && found.value[k].captured == data.packets[k].capturedLen
                 && found.value[k].original == data.packets[k].originalLen
                 && found.value[k].seconds * 1000000 + found.value[k].ticks == data.packets[k].ticks)
  {
    hide Columns, Weight, Shortened, Image, Read;
    RoundTrip(data.linkType, SNAPLEN, data.records);
    assert data.packets == data.pushed;
    var found := Read(file);
    if found.Some? {
      forall k | 0 <= k < |data.packets| ensures found.value[k] == AsFound(data.records[k], data.packets[k].fileOffset) {
        assert found.value[k - 0] == AsFound(data.records[k], OffsetAfter(data.records[..k]));
      }
    }
  }

  /** A captured length within the original length is not enough: the reader stops at one
      mebibyte, and a longer record fits the memory bound. */
  lemma LongRecordIsNotRead()
    ensures exists r: Record ::
      && 0 < |r.bytes| <= r.originalLen && |r.bytes| <= MAX_BYTES
      && Read(Image(1, SNAPLEN, [r])) == None
  {
    var r := Record(0, 0, LONGEST + 1, seq(LONGEST + 1, k => 0));
    RoundTrip(1, SNAPLEN, [r]);
    assert !Readable([r][0]);
  }
}
