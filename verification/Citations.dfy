/** The scan for packet citations in an answer. Text is a sequence of bytes. */
module Citations {
  import opened Common

  const MARKER := "[[packet:"
  const CLOSE := "]]"
  const MAX_ANSWER := 128 * 1024
  const HASH := 64
  const U64 := 0x1_0000_0000_0000_0000

  /** `otherwiseValid` stands for the checks of `validate` on the other fields. */
  datatype Context = Context(sha256: string, packets: seq<nat>, references: Option<seq<nat>>, otherwiseValid: bool)

  predicate IsHex(c: char) {
    '0' <= c <= '9' || 'a' <= c <= 'f' || 'A' <= c <= 'F'
  }

  predicate ValidContext(c: Context) {
    c.otherwiseValid && |c.sha256| == HASH && forall k | 0 <= k < HASH :: IsHex(c.sha256[k])
  }

  predicate SameIgnoringCase(a: string, b: string) {
    |a| == |b| && forall k | 0 <= k < |a| :: LowerChar(a[k]) == LowerChar(b[k])
  }

  predicate AllDigits(s: string) {
    forall k | 0 <= k < |s| :: '0' <= s[k] <= '9'
  }

  function Decimal(s: string): nat
    requires AllDigits(s)
  {
    if s == [] then 0 else Decimal(s[..|s| - 1]) * 10 + (s[|s| - 1] - '0') as nat
  }

  /** `u64::from_str`: an optional plus sign, at least one digit, no overflow. */
  function ParseU64(s: string): (n: Option<nat>)
    ensures n.Some? ==> s != [] && forall k | 0 <= k < |s| :: '0' <= s[k] <= '9' || s[k] == '+'
  {
    var digits := if s != [] && s[0] == '+' then s[1..] else s;
    if digits == [] || !AllDigits(digits) || Decimal(digits) >= U64 then None
    else
      assert forall k | 0 <= k < |s| :: s[k] == '+' || s[k] in digits;
      Some(Decimal(digits))
  }

  /** A number of the context: a selected packet, or one the analysis refers to. */
  predicate Known(c: Context, number: string) {
    var n := ParseU64(number);
    n.Some? && (n.value in c.packets || (c.references.Some? && n.value in c.references.value))
  }

  predicate Occurs(s: string, at: nat, m: string) {
    at + |m| <= |s| && s[at..at + |m|] == m
  }

  /** At `at` stands a whole citation whose number takes `n` bytes. */
  predicate CitesIn(c: Context, s: string, at: nat, n: nat) {
    var number := at + |MARKER| + HASH + 1;
    && Occurs(s, at, MARKER)
    && number + n + |CLOSE| <= |s|
    && SameIgnoringCase(s[at + |MARKER|..number - 1], c.sha256)
    && s[number - 1] == ':'
    && Known(c, s[number..number + n])
    && Occurs(s, number + n, CLOSE)
  }

  ghost predicate Cites(c: Context, s: string, at: nat) {
    exists n: nat :: CitesIn(c, s, at, n)
  }

  /** No marker anywhere but at the beginning of a citation of this capture. */
  ghost predicate AllCited(c: Context, s: string) {
    forall at: nat :: Occurs(s, at, MARKER) ==> Cites(c, s, at)
  }

  // ----- the shape of a citation -----

  lemma MarkerBytes(s: string, at: nat)
    requires Occurs(s, at, MARKER)
    ensures s[at] == '[' && s[at + 1] == '[' && forall k | at + 2 <= k < at + |MARKER| :: s[k] != '['
  {
    forall k | at + 2 <= k < at + |MARKER| ensures s[k] != '[' {
      assert s[at..at + |MARKER|][k - at] == s[k];
    }
    assert s[at..at + |MARKER|][0] == s[at] && s[at..at + |MARKER|][1] == s[at + 1];
  }

  lemma CloseBytes(s: string, at: nat)
    ensures Occurs(s, at, CLOSE) <==> at + 2 <= |s| && s[at] == ']' && s[at + 1] == ']'
  {
    if at + 2 <= |s| { assert s[at..at + 2] == [s[at], s[at + 1]]; }
  }

  predicate Hex(s: string) {
    forall k | 0 <= k < |s| :: IsHex(s[k])
  }

  lemma HashIsHex(hash: string, sha256: string)
    requires SameIgnoringCase(hash, sha256) && forall k | 0 <= k < |sha256| :: IsHex(sha256[k])
    ensures Hex(hash)
  {
    forall k | 0 <= k < |hash| ensures IsHex(hash[k]) {
      assert LowerChar(hash[k]) == LowerChar(sha256[k]);
    }
  }

  lemma Slice(s: string, i: nat, j: nat)
    requires i <= j <= |s|
    ensures forall k | i <= k < j :: s[k] == s[i..j][k - i]
  {
  }

  lemma CitationHash(c: Context, s: string, at: nat, n: nat)
    requires ValidContext(c) && CitesIn(c, s, at, n)
    ensures forall k | at + |MARKER| <= k < at + |MARKER| + HASH :: IsHex(s[k])
  {
    var start, number := at + |MARKER|, at + |MARKER| + HASH + 1;
    HashIsHex(s[start..number - 1], c.sha256);
    hide Occurs, Known, SameIgnoringCase;
    Slice(s, start, number - 1);
  }

  lemma CitationNumber(c: Context, s: string, at: nat, n: nat)
    requires CitesIn(c, s, at, n)
    ensures
      var number := at + |MARKER| + HASH + 1;
      n > 0 && forall k | number <= k < number + n :: '0' <= s[k] <= '9' || s[k] == '+'
  {
    var number := at + |MARKER| + HASH + 1;
    assert ParseU64(s[number..number + n]).Some?;
    hide Occurs, Known, ParseU64, SameIgnoringCase;
    Slice(s, number, number + n);
  }

  /** Between marker and end there is neither a bracket nor a second place for the colon. */
  lemma CitationBytes(c: Context, s: string, at: nat, n: nat)
    requires ValidContext(c) && CitesIn(c, s, at, n)
    ensures
      var number := at + |MARKER| + HASH + 1;
      && n > 0
      && (forall k | at + |MARKER| <= k < number - 1 :: IsHex(s[k]))
      && (forall k | number <= k < number + n :: '0' <= s[k] <= '9' || s[k] == '+')
      && s[number + n] == ']' && s[number + n + 1] == ']'
  {
    CloseBytes(s, at + |MARKER| + HASH + 1 + n);
    CitationHash(c, s, at, n);
    CitationNumber(c, s, at, n);
    hide Occurs, Known, SameIgnoringCase, IsHex;
  }

  /** The scan looks for the end of this citation where it is. */
  lemma EndsThere(c: Context, s: string, at: nat, n: nat, end: nat)
    requires ValidContext(c) && CitesIn(c, s, at, n)
    requires at + |MARKER| <= end && Occurs(s, end, CLOSE)
    requires forall k | at + |MARKER| <= k < end :: !Occurs(s, k, CLOSE)
    ensures end == at + |MARKER| + HASH + 1 + n
  {
    CitationBytes(c, s, at, n);
    CloseBytes(s, end);
    assert Occurs(s, at + |MARKER| + HASH + 1 + n, CLOSE);
  }

  /** No marker hides inside an accepted citation. */
  lemma NothingInside(c: Context, s: string, at: nat, n: nat, other: nat)
    requires ValidContext(c) && CitesIn(c, s, at, n) && Occurs(s, other, MARKER)
    ensures other <= at || other >= at + |MARKER| + HASH + 1 + n + |CLOSE|
  {
    CitationBytes(c, s, at, n);
    MarkerBytes(s, at);
    MarkerBytes(s, other);
  }

  // ----- the scan -----

  /** `str::find` from a position. */
  method Find(s: string, m: string, from: nat) returns (at: Option<nat>)
    requires from <= |s|
    ensures at.None? ==> forall k | from <= k :: !Occurs(s, k, m)
    ensures at.Some? ==> from <= at.value && Occurs(s, at.value, m) && forall k | from <= k < at.value :: !Occurs(s, k, m)
  {
    var i := from;
    while i + |m| <= |s|
      invariant from <= i
      invariant forall k | from <= k < i :: !Occurs(s, k, m)
    {
      if s[i..i + |m|] == m { return Some(i); }
      i := i + 1;
    }
    at := None;
  }

  method IndexOf(s: string, c: char) returns (at: Option<nat>)
    ensures at.None? ==> c !in s
    ensures at.Some? ==> at.value < |s| && s[at.value] == c && c !in s[..at.value]
  {
    for i := 0 to |s|
      invariant c !in s[..i]
    {
      if s[i] == c { return Some(i); }
      assert s[..i + 1] == s[..i] + [s[i]];
    }
    assert s[..|s|] == s;
    at := None;
  }

  /** What the scan tests between `start` and `end`, cut at `colon`. */
  predicate Passes(c: Context, s: string, start: nat, colon: nat, end: nat)
    requires start + colon < end <= |s|
  {
    SameIgnoringCase(s[start..start + colon], c.sha256) && Known(c, s[start + colon + 1..end])
  }

  lemma PassesMeansCited(c: Context, s: string, at: nat, colon: nat, end: nat)
    requires ValidContext(c) && Occurs(s, at, MARKER) && Occurs(s, end, CLOSE)
    requires at + |MARKER| + colon < end && s[at + |MARKER| + colon] == ':'
    requires Passes(c, s, at + |MARKER|, colon, end)
    ensures colon == HASH && CitesIn(c, s, at, end - (at + |MARKER| + HASH + 1))
  {
  }

  lemma CitedMeansPasses(c: Context, s: string, at: nat, n: nat, end: nat)
    requires ValidContext(c) && CitesIn(c, s, at, n) && end == at + |MARKER| + HASH + 1 + n
    ensures
      var start := at + |MARKER|;
      && s[start..end][HASH] == ':' && ':' !in s[start..end][..HASH]
      && Passes(c, s, start, HASH, end)
  {
    CitationBytes(c, s, at, n);
    var start := at + |MARKER|;
    assert s[start..end][..HASH] == s[start..start + HASH];
    Slice(s, start, start + HASH);
  }

  /** One citation: where the scan goes on, or `None` when it refuses. */
  method ScanOne(c: Context, s: string, at: nat) returns (next: Option<nat>)
    requires ValidContext(c) && Occurs(s, at, MARKER)
    ensures next.Some? <==> Cites(c, s, at)
    ensures next.Some? ==> at < next.value <= |s| && forall k | at < k < next.value :: !Occurs(s, k, MARKER)
  {
    hide Occurs, SameIgnoringCase, Known, ValidContext;
    assert at + |MARKER| <= |s| by { Fitting(s, at, MARKER); }
    var start := at + |MARKER|;
    if Cites(c, s, at) { EndExists(c, s, at); }
    var end := Find(s, CLOSE, start);
    if end.None? { return None; }
    Fitting(s, end.value, CLOSE);
    var inside := s[start..end.value];
    var colon := IndexOf(inside, ':');
    ghost var cited := Cites(c, s, at);
    if n: nat :| CitesIn(c, s, at, n) {
      EndsThere(c, s, at, n, end.value);
      CitedMeansPasses(c, s, at, n, end.value);
      assert inside[HASH] == ':';
      FirstColon(inside, colon);
    }
    if colon.None? { return None; }
    if !Passes(c, s, start, colon.value, end.value) { return None; }
    PassesMeansCited(c, s, at, colon.value, end.value);
    ghost var n := end.value - (start + HASH + 1);
    assert CitesIn(c, s, at, n);
    forall k | at < k < end.value + |CLOSE| ensures !Occurs(s, k, MARKER) {
      if Occurs(s, k, MARKER) { NothingInside(c, s, at, n, k); }
    }
    next := Some(end.value + |CLOSE|);
  }

  lemma Fitting(s: string, at: nat, m: string)
    requires Occurs(s, at, m)
    ensures at + |m| <= |s|
  {
  }

  lemma EndExists(c: Context, s: string, at: nat)
    requires Cites(c, s, at)
    ensures exists k: nat :: at + |MARKER| <= k && Occurs(s, k, CLOSE)
  {
    var n: nat :| CitesIn(c, s, at, n);
    assert Occurs(s, at + |MARKER| + HASH + 1 + n, CLOSE);
  }

  lemma Prefixes(s: string)
    ensures forall i, j | 0 <= i < j <= |s| :: s[i] in s[..j]
  {
    forall i, j | 0 <= i < j <= |s| ensures s[i] in s[..j] {
      assert s[..j][i] == s[i];
    }
  }

  lemma FirstColon(inside: string, colon: Option<nat>)
    requires |inside| > HASH && inside[HASH] == ':' && ':' !in inside[..HASH]
    requires colon.None? ==> ':' !in inside
    requires colon.Some? ==> colon.value < |inside| && inside[colon.value] == ':' && ':' !in inside[..colon.value]
    ensures colon == Some(HASH)
  {
    Prefixes(inside);
    assert inside[HASH] in inside[..HASH + 1];
  }

  /** `validate_references`: accepted exactly when every marker in the answer begins a
      citation of this capture, with a number of the context. */
  method ValidateReferences(c: Context, answer: string) returns (ok: bool)
    ensures ok <==> ValidContext(c) && |answer| <= 131072 && AllCited(c, answer)
  {
    if !ValidContext(c) || |answer| > MAX_ANSWER { return false; }
    hide Occurs, Cites, ValidContext;
    var from := 0;
    while true
      invariant from <= |answer|
      invariant forall k | 0 <= k < from :: Occurs(answer, k, MARKER) ==> Cites(c, answer, k)
      decreases |answer| - from
    {
      var at := Find(answer, MARKER, from);
      if at.None? { return true; }
      var next := ScanOne(c, answer, at.value);
      if next.None? { return false; }
      from := next.value;
    }
  }

  // ----- a citation written for a packet -----

  function Text(n: nat): string {
    if n < 10 then ['0' + n as char] else Text(n / 10) + ['0' + (n % 10) as char]
  }

  lemma {:induction false} TextReads(n: nat)
    ensures Text(n) != [] && AllDigits(Text(n)) && Decimal(Text(n)) == n
  {
    if n < 10 {
      assert Text(n)[..0] == [];
      assert Decimal(Text(n)[..0]) == 0;
    } else {
      TextReads(n / 10);
      var text := Text(n);
      assert text[..|text| - 1] == Text(n / 10);
      assert Decimal(text) == n / 10 * 10 + (text[|text| - 1] - '0') as nat;
    }
  }

  /** Written numbers are read back, with or without a sign, as far as they are 64 bits wide. */
  lemma NumberIsRead(n: nat)
    ensures ParseU64(Text(n)) == ParseU64("+" + Text(n)) == if n < 18446744073709551616 then Some(n) else None
  {
    TextReads(n);
    assert ("+" + Text(n))[1..] == Text(n);
  }

  function Citation(sha256: string, number: string): string {
    "[[packet:" + sha256 + ":" + number + "]]"
  }

  /** A citation written for a packet of a capture is accepted exactly when the hash is that
      of the capture, in either case, and the packet is selected or referred to. */
  lemma WrittenCitation(c: Context, sha256: string, n: nat)
    requires ValidContext(c) && |sha256| == 64 && n < 18446744073709551616
    ensures Cites(c, Citation(sha256, Text(n)), 0)
       <==> && (forall k | 0 <= k < 64 :: SameLetter(sha256[k], c.sha256[k]))
            && (n in c.packets || (c.references.Some? && n in c.references.value))
  {
    var s := Citation(sha256, Text(n));
    NumberIsRead(n);
    TextReads(n);
    CitationParts(sha256, Text(n));
    forall k | 0 <= k < 64 { LowerIsSameLetter(sha256[k], c.sha256[k]); }
    if m: nat :| CitesIn(c, s, 0, m) {
      SameNumber(c, sha256, n, m);
    }
    assert (forall k | 0 <= k < 64 :: SameLetter(sha256[k], c.sha256[k])) <==> SameIgnoringCase(sha256, c.sha256);
    hide ParseU64, SameIgnoringCase, Occurs, ValidContext, Text, Citation;
    assert CitesIn(c, s, 0, |Text(n)|) <==> SameIgnoringCase(sha256, c.sha256) && Known(c, Text(n));
  }

  lemma CitationParts(sha256: string, number: string)
    requires |sha256| == HASH
    ensures
      var s, at := Citation(sha256, number), |MARKER| + HASH + 1;
      && |s| == at + |number| + 2
      && Occurs(s, 0, MARKER) && s[|MARKER|..at - 1] == sha256 && s[at - 1] == ':'
      && s[at..at + |number|] == number && Occurs(s, at + |number|, CLOSE)
  {
    var s := Citation(sha256, number);
    assert s[..9] == "[[packet:";
    assert s[|s| - 2..] == "]]";
  }

  lemma SameNumber(c: Context, sha256: string, n: nat, m: nat)
    requires ValidContext(c) && |sha256| == HASH && CitesIn(c, Citation(sha256, Text(n)), 0, m)
    ensures m == |Text(n)|
  {
    var s, at := Citation(sha256, Text(n)), |MARKER| + HASH + 1;
    TextReads(n);
    CitationParts(sha256, Text(n));
    CitationBytes(c, s, 0, m);
    CloseBytes(s, at + |Text(n)|);
    hide CitesIn, Occurs, ParseU64, Text, Citation, Decimal, IsHex;
    Slice(s, at, at + |Text(n)|);
  }
}
