/** the label of a registration: seconds since the Unix epoch as a civil date in UTC. */
module Calendar {
  const LAST := 253402300799
  const DAY := 86400
  const CYCLE := 146097

  datatype Stamp = Stamp(year: nat, month: nat, day: nat, hour: nat, minute: nat, second: nat)

  // ----- the Gregorian calendar -----

  /** Appendix C of RFC 3339. */
  predicate Leap(year: nat) {
    year % 4 == 0 && (year % 100 != 0 || year % 400 == 0)
  }

  function YearLength(year: nat): nat {
    if Leap(year) then 366 else 365
  }

  function Months(year: nat): seq<nat> {
    [31, if Leap(year) then 29 else 28, 31, 30, 31, 30, 31, 31, 30, 31, 30, 31]
  }

  /** Days from the beginning of 1970 to the beginning of `year`. */
  function DaysBefore(year: nat): nat
    requires year >= 1970
  {
    if year == 1970 then 0 else DaysBefore(year - 1) + YearLength(year - 1)
  }

  function Sum(lengths: seq<nat>): nat {
    if lengths == [] then 0 else Sum(lengths[..|lengths| - 1]) + lengths[|lengths| - 1]
  }

  predicate ValidStamp(t: Stamp) {
    && 1970 <= t.year <= 9999
    && 1 <= t.month <= 12
    && 1 <= t.day <= Months(t.year)[t.month - 1]
    && t.hour < 24 && t.minute < 60 && t.second < 60
  }

  function DayNumber(t: Stamp): nat
    requires ValidStamp(t)
  {
    DaysBefore(t.year) + Sum(Months(t.year)[..t.month - 1]) + t.day - 1
  }

  /** Seconds since the epoch; civil days all have the same length. */
  function Seconds(t: Stamp): nat
    requires ValidStamp(t)
  {
    DayNumber(t) * DAY + t.hour * 3600 + t.minute * 60 + t.second
  }

  // ----- the cycle of 400 years -----

  function Leaps(year: nat): nat {
    year / 4 + year / 400 - year / 100
  }

  lemma Fours(y: nat)
    ensures (y + 1) / 4 == y / 4 + if (y + 1) % 4 == 0 then 1 else 0
  {
  }

  lemma Centuries(y: nat)
    ensures (y + 1) / 100 == y / 100 + if (y + 1) % 100 == 0 then 1 else 0
  {
  }

  lemma Quadricentennials(y: nat)
    ensures (y + 1) / 400 == y / 400 + if (y + 1) % 400 == 0 then 1 else 0
  {
  }

  lemma Multiples(y: nat)
    ensures y % 100 == 0 ==> y % 4 == 0
    ensures y % 400 == 0 ==> y % 100 == 0
  {
    var q, p := y / 100, y / 400;
    assert y % 100 == 0 ==> y == 4 * (25 * q);
    assert y % 400 == 0 ==> y == 100 * (4 * p);
  }

  lemma OneMoreYear(year: nat)
    ensures Leaps(year + 1) == Leaps(year) + if Leap(year + 1) then 1 else 0
  {
    Fours(year);
    Centuries(year);
    Quadricentennials(year);
    Multiples(year + 1);
  }

  lemma {:induction false} ClosedForm(year: nat)
    requires year >= 1970
    ensures DaysBefore(year) == 365 * (year - 1970) + Leaps(year - 1) - Leaps(1969)
  {
    if year > 1970 {
      ClosedForm(year - 1);
      OneMoreYear(year - 2);
    }
  }

  /** Every cycle has the same number of days. */
  lemma CycleLength(year: nat)
    requires year >= 1970
    ensures DaysBefore(year + 400) == DaysBefore(year) + CYCLE
  {
    ClosedForm(year);
    ClosedForm(year + 400);
    var y := year - 1;
    assert (y + 400) / 4 == y / 4 + 100 && (y + 400) / 100 == y / 100 + 4 && (y + 400) / 400 == y / 400 + 1;
  }

  lemma {:induction false} Cycles(n: nat)
    ensures DaysBefore(1970 + n * 400) == n * CYCLE
  {
    if n > 0 {
      Cycles(n - 1);
      CycleLength(1970 + (n - 1) * 400);
    }
  }

  lemma {:induction false} DaysGrow(a: nat, b: nat)
    requires 1970 <= a < b
    ensures DaysBefore(a) + YearLength(a) <= DaysBefore(b)
  {
    if a + 1 < b { DaysGrow(a, b - 1); }
  }

  lemma {:induction false} SumGrows(lengths: seq<nat>, i: nat, j: nat)
    requires i < j <= |lengths|
    ensures Sum(lengths[..i]) + lengths[i] <= Sum(lengths[..j])
  {
    assert lengths[..j][..j - 1] == lengths[..j - 1];
    if i + 1 < j { SumGrows(lengths, i, j - 1); }
  }

  lemma SumOfMonths(year: nat)
    ensures Sum(Months(year)) == YearLength(year)
  {
    var m := Months(year);
    assert m[..11][..10] == m[..10] && m[..10][..9] == m[..9] && m[..9][..8] == m[..8] && m[..8][..7] == m[..7];
    assert m[..7][..6] == m[..6] && m[..6][..5] == m[..5] && m[..5][..4] == m[..4] && m[..4][..3] == m[..3];
    assert m[..3][..2] == m[..2] && m[..2][..1] == m[..1] && m[..1][..0] == [];
    assert Sum(m[..1]) == 31;
    assert Sum(m[..2]) == Sum(m[..1]) + m[1];
    assert Sum(m[..3]) == Sum(m[..2]) + 31;
    assert Sum(m[..4]) == Sum(m[..3]) + 30;
    assert Sum(m[..5]) == Sum(m[..4]) + 31;
    assert Sum(m[..6]) == Sum(m[..5]) + 30;
    assert Sum(m[..7]) == Sum(m[..6]) + 31;
    assert Sum(m[..8]) == Sum(m[..7]) + 31;
    assert Sum(m[..9]) == Sum(m[..8]) + 30;
    assert Sum(m[..10]) == Sum(m[..9]) + 31;
    assert Sum(m[..11]) == Sum(m[..10]) + 30;
  }

  /** Four digits are enough up to the last second of 9999. */
  lemma EndOfCalendar()
    ensures DaysBefore(10000) * DAY == LAST + 1
  {
    ClosedForm(10000);
    assert Leaps(9999) == 2424 && Leaps(1969) == 477;
  }

  /** A second has one date. */
  lemma DateIsUnique(a: Stamp, b: Stamp)
    requires ValidStamp(a) && ValidStamp(b) && Seconds(a) == Seconds(b)
    ensures a == b
  {
    assert DayNumber(a) == DayNumber(b) by { SameDay(a, b); }
    SameYear(a, b);
    SameYear(b, a);
    SameMonth(a, b);
    SameMonth(b, a);
  }

  lemma SameDay(a: Stamp, b: Stamp)
    requires ValidStamp(a) && ValidStamp(b) && Seconds(a) == Seconds(b)
    ensures DayNumber(a) == DayNumber(b)
  {
    var x, y := a.hour * 3600 + a.minute * 60 + a.second, b.hour * 3600 + b.minute * 60 + b.second;
    assert x < DAY && y < DAY;
    assert Seconds(a) / DAY == DayNumber(a) && Seconds(b) / DAY == DayNumber(b);
  }

  lemma SameYear(a: Stamp, b: Stamp)
    requires ValidStamp(a) && ValidStamp(b) && DayNumber(a) == DayNumber(b)
    ensures a.year >= b.year
  {
    SumGrows(Months(a.year), a.month - 1, 12);
    assert Months(a.year)[..12] == Months(a.year);
    SumOfMonths(a.year);
    if a.year < b.year { DaysGrow(a.year, b.year); }
  }

  lemma SameMonth(a: Stamp, b: Stamp)
    requires ValidStamp(a) && ValidStamp(b) && DayNumber(a) == DayNumber(b) && a.year == b.year
    ensures a.month >= b.month
  {
    if a.month < b.month { SumGrows(Months(a.year), a.month - 1, b.month - 1); }
  }

  // ----- the label -----

  function Digit(n: nat): char
    requires n < 10
  {
    '0' + n as char
  }

  function Two(n: nat): string
    requires n < 100
  {
    [Digit(n / 10), Digit(n % 10)]
  }

  function Label(t: Stamp): (r: string)
    requires ValidStamp(t)
  {
    Two(t.year / 100) + Two(t.year % 100) + "-" + Two(t.month) + "-" + Two(t.day) + " "
    + Two(t.hour) + ":" + Two(t.minute) + ":" + Two(t.second) + " UTC"
  }

  function Value(c: char): nat {
    if '0' <= c <= '9' then (c - '0') as nat else 0
  }

  function Number(s: string): nat {
    if s == [] then 0 else Number(s[..|s| - 1]) * 10 + Value(s[|s| - 1])
  }

  /** Reads a label back. */
  function Parsed(text: string): Stamp
    requires |text| == 23
  {
    Stamp(Number(text[0..4]), Number(text[5..7]), Number(text[8..10]),
          Number(text[11..13]), Number(text[14..16]), Number(text[17..19]))
  }

  lemma TwoReads(n: nat)
    requires n < 100
    ensures Number(Two(n)) == n
  {
    assert Two(n)[..1] == [Digit(n / 10)];
    assert Number([Digit(n / 10)]) == n / 10 by { assert [Digit(n / 10)][..0] == []; }
  }

  lemma FourReads(a: nat, b: nat)
    requires a < 100 && b < 100
    ensures Number(Two(a) + Two(b)) == a * 100 + b
  {
    TwoReads(a);
    var all := Two(a) + Two(b);
    assert all[..3][..2] == Two(a) && all[..3][2] == Digit(b / 10) && all[3] == Digit(b % 10);
    assert Number(all[..3]) == a * 10 + b / 10;
  }

  lemma LabelReads(t: Stamp)
    requires ValidStamp(t)
    ensures |Label(t)| == 23 && Parsed(Label(t)) == t
    ensures
      var text := Label(t);
      text[4] == '-' && text[7] == '-' && text[10] == ' ' && text[13] == ':' && text[16] == ':' && text[19..] == " UTC"
  {
    var text := Label(t);
    FourReads(t.year / 100, t.year % 100);
    TwoReads(t.month);
    TwoReads(t.day);
    TwoReads(t.hour);
    TwoReads(t.minute);
    TwoReads(t.second);
    assert t.day <= 31;
    assert text[0..4] == Two(t.year / 100) + Two(t.year % 100);
    assert text[5..7] == Two(t.month) && text[8..10] == Two(t.day);
    assert text[11..13] == Two(t.hour) && text[14..16] == Two(t.minute) && text[17..19] == Two(t.second);
  }

  const INVALID := "Hor\U{E1}rio inv\U{E1}lido"

  /** The year loop after the reduction by whole cycles. */
  method YearOf(n: nat) returns (year: nat, days: nat)
    ensures year >= 1970 && days < YearLength(year) && DaysBefore(year) + days == n
  {
    year := 1970 + n / CYCLE * 400;
    days := n % CYCLE;
    Cycles(n / CYCLE);
    while true
      invariant year >= 1970 && DaysBefore(year) + days == n
      decreases days
    {
      var length := if Leap(year) then 366 else 365;
      if days < length { break; }
      days := days - length;
      year := year + 1;
    }
  }

  /** The month loop. */
  method MonthOf(year: nat, n: nat) returns (month: nat, days: nat)
    requires n < YearLength(year)
    ensures 1 <= month <= 12 && days < Months(year)[month - 1] && Sum(Months(year)[..month - 1]) + days == n
  {
    var months := Months(year);
    SumOfMonths(year);
    month, days := 1, n;
    assert months[..0] == [] && months[..12] == months;
    for k := 0 to 12
      invariant month == k + 1 && Sum(months[..k]) + days == n
    {
      if days < months[k] { return; }
      assert months[..k + 1][..k] == months[..k];
      days := days - months[k];
      month := month + 1;
    }
    assert false;
  }

  /** Every second up to the end of 9999 is labelled with its Gregorian date and time. */
  method RegistrationLabel(value: nat) returns (text: string, ghost stamp: Stamp)
    ensures value > LAST ==> text == INVALID
    ensures value <= LAST ==> ValidStamp(stamp) && Seconds(stamp) == value && text == Label(stamp)
  {
    if value > LAST {
      return INVALID, Stamp(0, 0, 0, 0, 0, 0);
    }
    var year, rest := YearOf(value / DAY);
    var month, days := MonthOf(year, rest);
    var seconds := value % DAY;
    if year > 9999 {
      EndOfCalendar();
      if year > 10000 { DaysGrow(10000, year); }
      assert false;
    }
    var t := Stamp(year, month, days + 1, seconds / 3600, seconds / 60 % 60, seconds % 60);
    TimeRecomposes(seconds);
    text, stamp := Label(t), t;
  }

  lemma TimeRecomposes(seconds: nat)
    requires seconds < DAY
    ensures seconds / 3600 < 24 && seconds / 3600 * 3600 + seconds / 60 % 60 * 60 + seconds % 60 == seconds
  {
    var minutes := seconds / 60;
    assert seconds == minutes * 60 + seconds % 60;
    assert minutes == minutes / 60 * 60 + minutes % 60;
    assert minutes / 60 == seconds / 3600;
  }

  /** Different seconds have different labels. */
  lemma LabelsDiffer(a: Stamp, b: Stamp)
    requires ValidStamp(a) && ValidStamp(b)
    ensures Label(a) == Label(b) <==> Seconds(a) == Seconds(b)
    ensures Label(a) != INVALID
  {
    LabelReads(a);
    LabelReads(b);
    if Seconds(a) == Seconds(b) { DateIsUnique(a, b); }
    assert |INVALID| == 16;
  }
}
