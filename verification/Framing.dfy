/** The two line readers. Bytes arrive in chunks of any size, and a read may be cancelled
    whenever it waits for the next chunk; the lines they deliver depend on neither. */
module Framing {
  import opened Common

  type Byte = bv8

  const NEWLINE: Byte := 10
  const MAX_FRAME := 1024 * 1024
  const MAX_LINE := 256 * 1024

  /** `Cancelled`: the caller dropped the read while it waited; it may read again. */
  datatype Result = Line(bytes: seq<Byte>) | TooLong | Closed | Cancelled

  // ----- what the lines of a stream are -----

  predicate Whole(line: seq<Byte>, limit: nat) {
    && 0 < |line| <= limit
    && line[|line| - 1] == NEWLINE
    && NEWLINE !in line[..|line| - 1]
  }

  /** `rest` begins no line within the limit: its first `limit` bytes hold no newline. */
  predicate NoLine(rest: seq<Byte>, limit: nat) {
    NEWLINE !in (if |rest| <= limit then rest else rest[..limit])
  }

  /** Lines that follow each other from the beginning of the stream, up to where it fails. */
  predicate Splits(lines: seq<seq<Byte>>, rest: seq<Byte>, stream: seq<Byte>, limit: nat) {
    && stream == Joined(lines) + rest
    && forall k | 0 <= k < |lines| :: Whole(lines[k], limit)
  }

  function Joined(lines: seq<seq<Byte>>): seq<Byte> {
    if lines == [] then [] else lines[0] + Joined(lines[1..])
  }

  lemma {:induction false} JoinedMore(lines: seq<seq<Byte>>, line: seq<Byte>)
    ensures Joined(lines + [line]) == Joined(lines) + line
  {
    if lines == [] {
      assert [line][1..] == [];
      assert Joined([line]) == line + Joined([]) == line;
      assert [] + [line] == [line];
    } else {
      JoinedMore(lines[1..], line);
      assert (lines + [line])[1..] == lines[1..] + [line];
    }
  }

  lemma FirstNewline(line: seq<Byte>, after: seq<Byte>, limit: nat)
    requires Whole(line, limit)
    ensures forall k | 0 <= k < |line| :: (line + after)[k] == NEWLINE <==> k == |line| - 1
  {
    forall k | 0 <= k < |line| - 1 ensures (line + after)[k] != NEWLINE {
      assert (line + after)[k] == line[..|line| - 1][k];
    }
  }

  lemma SameFirst(x: seq<Byte>, p: seq<Byte>, y: seq<Byte>, q: seq<Byte>, limit: nat)
    requires Whole(x, limit) && Whole(y, limit) && x + p == y + q
    ensures x == y && p == q
  {
    FirstNewline(x, p, limit);
    FirstNewline(y, q, limit);
    assert (x + p)[|x| - 1] == NEWLINE && (y + q)[|y| - 1] == NEWLINE;
    assert x == (x + p)[..|x|] && y == (y + q)[..|y|];
    assert p == (x + p)[|x|..] && q == (y + q)[|y|..];
  }

  /** What begins with a whole line is not a stream without one. */
  lemma FirstLineShows(line: seq<Byte>, after: seq<Byte>, limit: nat)
    requires Whole(line, limit)
    ensures !NoLine(line + after, limit)
  {
    var all, n := line + after, |line| - 1;
    assert all[n] == NEWLINE;
    if |all| > limit { assert all[..limit][n] == NEWLINE; }
  }

  /** Lines delivered so far are a beginning of all the lines there are. */
  lemma {:induction false} DeliveredSoFar(stream: seq<Byte>, limit: nat, a: seq<seq<Byte>>, r: seq<Byte>, b: seq<seq<Byte>>, t: seq<Byte>)
    requires Splits(a, r, stream, limit)
    requires Splits(b, t, stream, limit) && NoLine(t, limit)
    ensures a <= b
    decreases a
  {
    if a != [] {
      var afterA := Joined(a[1..]) + r;
      assert stream == a[0] + afterA;
      assert b == [] ==> stream == t;
      FirstLineShows(a[0], afterA, limit);
      var afterB := Joined(b[1..]) + t;
      assert stream == b[0] + afterB;
      SameFirst(a[0], afterA, b[0], afterB, limit);
      DeliveredSoFar(afterA, limit, a[1..], r, b[1..], t);
      assert a == [a[0]] + a[1..] && b == [b[0]] + b[1..];
    }
  }

  /** A stream has only one sequence of lines. */
  lemma {:induction false} SplitIsUnique(stream: seq<Byte>, limit: nat, a: seq<seq<Byte>>, r: seq<Byte>, b: seq<seq<Byte>>, t: seq<Byte>)
    requires Splits(a, r, stream, limit) && NoLine(r, limit)
    requires Splits(b, t, stream, limit) && NoLine(t, limit)
    ensures a == b && r == t
  {
    DeliveredSoFar(stream, limit, a, r, b, t);
    DeliveredSoFar(stream, limit, b, t, a, r);
    assert r == stream[|Joined(a)|..] && t == stream[|Joined(b)|..];
  }

  /** One more line. */
  lemma SplitsMore(lines: seq<seq<Byte>>, line: seq<Byte>, before: seq<Byte>, after: seq<Byte>, stream: seq<Byte>, limit: nat)
    requires Splits(lines, before, stream, limit) && Whole(line, limit) && before == line + after
    ensures Splits(lines + [line], after, stream, limit)
  {
    JoinedMore(lines, line);
    assert Joined(lines) + before == Joined(lines) + line + after;
  }

  /** How a stream that begins no line ends. */
  function Failure(rest: seq<Byte>, limit: nat): Result {
    if |rest| <= limit then Closed else TooLong
  }

  // ----- the connection -----

  function Position(chunk: seq<Byte>): (n: Option<nat>)
    ensures n.None? <==> NEWLINE !in chunk
    ensures n.Some? ==> n.value < |chunk| && chunk[n.value] == NEWLINE && NEWLINE !in chunk[..n.value]
  {
    if chunk == [] then None
    else if chunk[0] == NEWLINE then Some(0)
    else
      var n := Position(chunk[1..]);
      assert chunk == [chunk[0]] + chunk[1..];
      if n.None? then None
      else
        assert chunk[..n.value + 1] == [chunk[0]] + chunk[1..][..n.value];
        Some(n.value + 1)
  }

  class Connection {
    const stream: seq<Byte>
    var consumed: nat
    ghost var cancellations: nat

    predicate Valid()
      reads this
    {
      consumed <= |stream|
    }

    function Rest(): seq<Byte>
      requires Valid()
      reads this
    {
      stream[consumed..]
    }

    constructor (stream: seq<Byte>)
      ensures Valid() && this.stream == stream && consumed == 0
    {
      this.stream, consumed, cancellations := stream, 0, 0;
    }

    /** `fill_buf`: any part of what is left, and nothing only at the end. `None` is a
        cancellation while it waited. */
    method FillBuf() returns (chunk: Option<seq<Byte>>)
      requires Valid()
      modifies `cancellations
      ensures cancellations == old(cancellations) + if chunk.None? then 1 else 0
      ensures chunk.Some? ==> chunk.value <= Rest() && (chunk.value == [] <==> Rest() == [])
    {
      var cancelled: bool, size: int := *, *;
      if cancelled {
        cancellations := cancellations + 1;
        return None;
      }
      var n := if size < 1 then 1 else size;
      var left := |stream| - consumed;
      chunk := Some(stream[consumed..consumed + if n > left then left else n]);
    }

    method Consume(n: nat)
      requires Valid() && n <= |Rest()|
      modifies `consumed
      ensures Valid() && Rest() == old(Rest())[n..]
    {
      consumed := consumed + n;
    }
  }

  // ----- the reader with its own partial buffer -----

  class JsonLines {
    const reader: Connection
    var partial: seq<Byte>

    predicate Valid()
      reads this, reader
    {
      reader.Valid() && NEWLINE !in partial && |partial| <= MAX_FRAME
    }

    /** What has not been delivered yet. */
    function Undelivered(): seq<Byte>
      requires Valid()
      reads this, reader
    {
      partial + reader.Rest()
    }

    constructor (reader: Connection)
      requires reader.Valid()
      ensures Valid() && this.reader == reader && Undelivered() == reader.Rest()
    {
      this.reader, partial := reader, [];
    }

    /** One line, however it is cut into chunks; a cancelled read loses nothing. */
    method Next() returns (r: Result)
      requires Valid()
      modifies this, reader
      ensures reader.cancellations == old(reader.cancellations) + if r.Cancelled? then 1 else 0
      ensures r.Cancelled? ==> Valid() && Undelivered() == old(Undelivered())
      ensures r.Line? ==> Valid() && Whole(r.bytes, MAX_FRAME) && old(Undelivered()) == r.bytes + Undelivered()
      ensures r.Closed? || r.TooLong? ==>
                NoLine(old(Undelivered()), MAX_FRAME) && r == Failure(old(Undelivered()), MAX_FRAME)
    {
      hide Position;
      ghost var all := Undelivered();
      while true
        invariant Valid() && Undelivered() == all && reader.cancellations == old(reader.cancellations)
        decreases |reader.Rest()|
      {
        var filled := reader.FillBuf();
        if filled.None? { return Cancelled; }
        var chunk := filled.value;
        if chunk == [] { return Closed; }
        var newline := Position(chunk);
        var take := if newline.Some? then newline.value + 1 else |chunk|;
        TakeKeeps(partial, chunk, take, reader.Rest());
        if |partial| + take > MAX_FRAME {
          TooLongIs(partial, chunk, take, reader.Rest());
          return TooLong;
        }
        Extended(partial, chunk);
        partial := partial + chunk[..take];
        reader.Consume(take);
        if newline.Some? {
          var bytes := partial;
          partial := [];
          return Line(bytes);
        }
      }
    }
  }

  /** What is taken ends with the first newline, or holds none. */
  lemma Extended(partial: seq<Byte>, chunk: seq<Byte>)
    requires NEWLINE !in partial
    ensures
      match Position(chunk)
      case None => NEWLINE !in partial + chunk[..|chunk|]
      case Some(n) =>
        var all := partial + chunk[..n + 1];
        all[|all| - 1] == NEWLINE && NEWLINE !in all[..|all| - 1]
  {
    var n := Position(chunk);
    if n.Some? {
      assert (partial + chunk[..n.value + 1])[..|partial| + n.value] == partial + chunk[..n.value];
    }
  }

  lemma TakeKeeps(partial: seq<Byte>, chunk: seq<Byte>, take: nat, rest: seq<Byte>)
    requires chunk <= rest && take <= |chunk|
    ensures partial + rest == (partial + chunk[..take]) + rest[take..]
    ensures |rest[take..]| == |rest| - take
  {
    assert chunk[..take] == rest[..take];
    assert rest == rest[..take] + rest[take..];
  }

  /** Nothing within the limit is a newline when the chunk goes beyond it. */
  lemma TooLongIs(partial: seq<Byte>, chunk: seq<Byte>, take: nat, rest: seq<Byte>)
    requires chunk <= rest && 0 < take <= |chunk| && NEWLINE !in partial && NEWLINE !in chunk[..take - 1]
    requires |partial| <= MAX_FRAME < |partial| + take
    ensures NoLine(partial + rest, MAX_FRAME) && Failure(partial + rest, MAX_FRAME) == TooLong
  {
    var all := partial + rest;
    forall k | 0 <= k < MAX_FRAME ensures all[k] != NEWLINE {
      if k >= |partial| { assert all[k] == chunk[..take - 1][k - |partial|]; }
    }
  }

  // ----- the reader of the bridge, whose buffer its caller keeps -----

  class BridgeReader {
    const reader: Connection
    var buffer: seq<Byte>

    predicate Valid()
      reads this, reader
    {
      reader.Valid() && NEWLINE !in buffer && |buffer| <= MAX_LINE
    }

    function Undelivered(): seq<Byte>
      requires Valid()
      reads this, reader
    {
      buffer + reader.Rest()
    }

    constructor (reader: Connection)
      requires reader.Valid()
      ensures Valid() && this.reader == reader && Undelivered() == reader.Rest()
    {
      this.reader, buffer := reader, [];
    }

    /** `take(remaining).read_until`: up to a newline, the end, or one byte past the limit. */
    method ReadUntil(remaining: nat) returns (done: bool)
      requires Valid() && |buffer| + remaining == MAX_LINE + 1
      modifies this, reader
      ensures reader.Valid() && buffer + reader.Rest() == old(Undelivered())
      ensures !done ==> Valid()
      ensures reader.cancellations == old(reader.cancellations) + if done then 0 else 1
      ensures |buffer| <= MAX_LINE + 1
      ensures done ==>
                || (buffer != [] && buffer[|buffer| - 1] == NEWLINE && NEWLINE !in buffer[..|buffer| - 1])
                || (NEWLINE !in buffer && (|buffer| == MAX_LINE + 1 || reader.Rest() == []))
    {
      hide Position;
      var left := remaining;
      ghost var all := Undelivered();
      while left > 0
        invariant reader.Valid() && NEWLINE !in buffer && left >= 0 && |buffer| + left == MAX_LINE + 1
        invariant buffer + reader.Rest() == all && reader.cancellations == old(reader.cancellations)
        decreases left
      {
        var filled := reader.FillBuf();
        if filled.None? { return false; }
        var chunk := if |filled.value| <= left then filled.value else filled.value[..left];
        if chunk == [] { return true; }
        var newline := Position(chunk);
        var take := if newline.Some? then newline.value + 1 else |chunk|;
        TakeKeeps(buffer, chunk, take, reader.Rest());
        Extended(buffer, chunk);
        buffer := buffer + chunk[..take];
        reader.Consume(take);
        left := left - take;
        if newline.Some? { return true; }
      }
      done := true;
    }

    /** One line. Every failure is the same error to the caller. */
    method ReadFrame() returns (r: Result)
      requires Valid()
      modifies this, reader
      ensures reader.cancellations == old(reader.cancellations) + if r.Cancelled? then 1 else 0
      ensures r.Cancelled? ==> Valid() && Undelivered() == old(Undelivered())
      ensures r.Line? ==> Valid() && Whole(r.bytes, MAX_LINE) && old(Undelivered()) == r.bytes + Undelivered()
      ensures r.Closed? || r.TooLong? ==>
                NoLine(old(Undelivered()), MAX_LINE) && r == Failure(old(Undelivered()), MAX_LINE)
    {
      ghost var all := Undelivered();
      var remaining := MAX_LINE + 1 - |buffer|;
      var done := ReadUntil(remaining);
      if !done { return Cancelled; }
      if |buffer| == 0 || |buffer| > MAX_LINE || buffer[|buffer| - 1] != NEWLINE {
        BadBuffer(buffer, reader.Rest(), MAX_LINE);
        return Failure(buffer + reader.Rest(), MAX_LINE);
      }
      r := Line(buffer);
      buffer := [];
    }
  }

  lemma BadBuffer(buffer: seq<Byte>, rest: seq<Byte>, limit: nat)
    requires |buffer| <= limit + 1
    requires |buffer| == 0 || |buffer| > limit || buffer[|buffer| - 1] != NEWLINE
    requires
      || (buffer != [] && buffer[|buffer| - 1] == NEWLINE && NEWLINE !in buffer[..|buffer| - 1])
      || (NEWLINE !in buffer && (|buffer| == limit + 1 || rest == []))
    ensures NoLine(buffer + rest, limit)
  {
    var all := buffer + rest;
    if |buffer| == limit + 1 {
      assert all[..limit] == buffer[..|buffer| - 1];
    } else {
      assert all == buffer;
    }
  }

  // ----- a whole connection -----

  lemma NothingYet(stream: seq<Byte>)
    ensures Splits([], stream[0..], stream, MAX_FRAME) && Splits([], stream[0..], stream, MAX_LINE)
  {
    assert Joined([]) + stream[0..] == stream;
  }

  /** Any number of reads, each of them perhaps cancelled: what was delivered is the lines of
      the stream, in order, one for each read that was not cancelled, and the first failure
      comes where the lines end, for the reason they end. */
  method ReadAll(connection: Connection, attempts: nat) returns (lines: seq<seq<Byte>>, end: Option<Result>, rest: seq<Byte>)
    requires connection.Valid() && connection.consumed == 0
    modifies connection
    ensures Splits(lines, rest, connection.stream, 1048576)
    ensures end.None? ==> |lines| + connection.cancellations - old(connection.cancellations) == attempts
    ensures end.Some? ==> NoLine(rest, 1048576) && end.value == Failure(rest, 1048576)
  {
    hide Splits, Whole, NoLine;
    NothingYet(connection.stream);
    var reader := new JsonLines(connection);
    lines, end := [], None;
    for n := 0 to attempts
      invariant reader.Valid() && fresh(reader) && reader.reader == connection
      invariant Splits(lines, reader.Undelivered(), connection.stream, MAX_FRAME)
      invariant |lines| + connection.cancellations - old(connection.cancellations) == n
    {
      var before := reader.Undelivered();
      var r := reader.Next();
      if r.Closed? || r.TooLong? { return lines, Some(r), before; }
      if r.Line? {
        SplitsMore(lines, r.bytes, before, reader.Undelivered(), connection.stream, MAX_FRAME);
        lines := lines + [r.bytes];
      }
    }
    rest := reader.Undelivered();
  }

  /** The same for the reader of the bridge. */
  method ReadAllFrames(connection: Connection, attempts: nat) returns (lines: seq<seq<Byte>>, end: Option<Result>, rest: seq<Byte>)
    requires connection.Valid() && connection.consumed == 0
    modifies connection
    ensures Splits(lines, rest, connection.stream, 262144)
    ensures end.None? ==> |lines| + connection.cancellations - old(connection.cancellations) == attempts
    ensures end.Some? ==> NoLine(rest, 262144) && end.value == Failure(rest, 262144)
  {
    hide Splits, Whole, NoLine;
    NothingYet(connection.stream);
    var reader := new BridgeReader(connection);
    lines, end := [], None;
    for n := 0 to attempts
      invariant reader.Valid() && fresh(reader) && reader.reader == connection
      invariant Splits(lines, reader.Undelivered(), connection.stream, MAX_LINE)
      invariant |lines| + connection.cancellations - old(connection.cancellations) == n
    {
      var before := reader.Undelivered();
      var r := reader.ReadFrame();
      if r.Closed? || r.TooLong? { return lines, Some(r), before; }
      if r.Line? {
        SplitsMore(lines, r.bytes, before, reader.Undelivered(), connection.stream, MAX_LINE);
        lines := lines + [r.bytes];
      }
    }
    rest := reader.Undelivered();
  }

  /** Two readings of one stream, chunked and cancelled differently, that both reach a
      failure have delivered the same lines and failed for the same reason. */
  lemma ChunksDoNotMatter(stream: seq<Byte>, limit: nat, a: seq<seq<Byte>>, r: seq<Byte>, b: seq<seq<Byte>>, t: seq<Byte>)
    requires Splits(a, r, stream, limit) && NoLine(r, limit)
    requires Splits(b, t, stream, limit) && NoLine(t, limit)
    ensures a == b && Failure(r, limit) == Failure(t, limit)
  {
    SplitIsUnique(stream, limit, a, r, b, t);
  }
}
