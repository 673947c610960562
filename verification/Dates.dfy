/** Converting dates to text and back.
  *
  * The years of a date count on through a year zero; in text they count from 1 in both directions, and
  * the earlier ones are marked with BC. */
module Dates {
  import opened Encodings
  import opened Strconv
  import opened Wrappers

  datatype Date = Date(year: int, month: int, day: int)

  const DASH: byte := 45
  const BC: seq<byte> := [32, 66, 67]
  const SIZE_BUFFER := 15

  predicate Leap(year: int) {
    year % 4 == 0 && (year % 100 != 0 || year % 400 == 0)
  }

  function LastDay(year: int, month: int): int {
    if month == 2 then if Leap(year) then 29 else 28
    else if month == 4 || month == 6 || month == 9 || month == 11 then 30
    else 31
  }

  /** A calendar date, in the range of years that there are. */
  predicate IsDate(d: Date) {
    -32767 <= d.year <= 32767 && 1 <= d.month <= 12 && 1 <= d.day <= LastDay(d.year, d.month)
  }

  // The calendar.

  /** How many of the first days of a month there are. */
  function DaysUpTo(year: int, month: int, day: nat): nat {
    if day == 0 then 0
    else DaysUpTo(year, month, day - 1) + if IsDate(Date(year, month, day)) then 1 else 0
  }

  function DaysOfMonth(year: int, month: int): nat {
    DaysUpTo(year, month, 99)
  }

  /** How many dates there are in a year up to the end of a month. */
  function DaysOfMonths(year: int, month: nat): nat {
    if month == 0 then 0 else DaysOfMonths(year, month - 1) + DaysOfMonth(year, month)
  }

  function DaysOfYear(year: int): nat {
    DaysOfMonths(year, 12)
  }

  /** How many dates there are in so many years. */
  function DaysOfYears(from: int, n: nat): nat {
    if n == 0 then 0 else DaysOfYears(from, n - 1) + DaysOfYear(from + n - 1)
  }

  lemma {:induction false} DaysCounted(year: int, month: int, day: nat)
    requires -32767 <= year <= 32767 && 1 <= month <= 12
    ensures DaysUpTo(year, month, day) == if day <= LastDay(year, month) then day else LastDay(year, month)
  {
    if day > 0 {
      DaysCounted(year, month, day - 1);
    }
  }

  /** The lengths of the months. */
  lemma MonthLength(year: int, month: int)
    requires -32767 <= year <= 32767 && 1 <= month <= 12
    ensures month != 2 ==> DaysOfMonth(year, month) == [31, 0, 31, 30, 31, 30, 31, 31, 30, 31, 30, 31][month - 1]
    ensures DaysOfMonth(year, 2) == if year % 4 == 0 && (year % 100 != 0 || year % 400 == 0) then 29 else 28
  {
    DaysCounted(year, month, 99);
    DaysCounted(year, 2, 99);
  }

  lemma YearLength(year: int)
    requires -32767 <= year <= 32767
    ensures DaysOfYear(year) == if year % 4 == 0 && (year % 100 != 0 || year % 400 == 0) then 366 else 365
  {
    hide DaysOfMonth;
    forall m | 1 <= m <= 12
      ensures DaysOfMonths(year, m) == DaysOfMonths(year, m - 1) + DaysOfMonth(year, m)
    {
    }
    hide DaysOfMonths;
    MonthLength(year, 1);
    MonthLength(year, 3);
    MonthLength(year, 4);
    MonthLength(year, 5);
    MonthLength(year, 6);
    MonthLength(year, 7);
    MonthLength(year, 8);
    MonthLength(year, 9);
    MonthLength(year, 10);
    MonthLength(year, 11);
    MonthLength(year, 12);
    NoMonths(year);
  }

  lemma NoMonths(year: int)
    ensures DaysOfMonths(year, 0) == 0
  {
  }

  /** The days before a year. */
  function DaysBefore(year: int): int {
    365 * year + (year + 3) / 4 - (year + 99) / 100 + (year + 399) / 400
  }

  lemma OneYear(year: int)
    ensures DaysBefore(year + 1) - DaysBefore(year)
            == if year % 4 == 0 && (year % 100 != 0 || year % 400 == 0) then 366 else 365
  {
    hide *;
    BeforeNext(year);
    Fours(year);
    Centuries(year);
    FourHundreds(year);
    Multiples(year);
  }

  lemma BeforeNext(year: int)
    ensures DaysBefore(year) == 365 * year + (year + 3) / 4 - (year + 99) / 100 + (year + 399) / 400
    ensures DaysBefore(year + 1) == 365 * (year + 1) + (year + 4) / 4 - (year + 100) / 100 + (year + 400) / 400
  {
  }

  lemma Multiples(year: int)
    ensures year % 400 == 0 ==> year % 100 == 0
    ensures year % 100 == 0 ==> year % 4 == 0
  {
  }

  lemma Fours(year: int)
    ensures (year + 4) / 4 - (year + 3) / 4 == if year % 4 == 0 then 1 else 0
    ensures (year + 403) / 4 == (year + 3) / 4 + 100
  {
  }

  lemma Centuries(year: int)
    ensures (year + 100) / 100 - (year + 99) / 100 == if year % 100 == 0 then 1 else 0
    ensures (year + 499) / 100 == (year + 99) / 100 + 4
  {
  }

  lemma FourHundreds(year: int)
    ensures (year + 400) / 400 - (year + 399) / 400 == if year % 400 == 0 then 1 else 0
    ensures (year + 799) / 400 == (year + 399) / 400 + 1
  {
  }

  lemma {:induction false} YearsLength(from: int, n: nat)
    requires -32767 <= from && from + n <= 32768
    ensures DaysOfYears(from, n) == DaysBefore(from + n) - DaysBefore(from)
  {
    hide DaysBefore, DaysOfYear;
    if n > 0 {
      var year := from + n - 1;
      assert year + 1 == from + n;
      YearsLength(from, n - 1);
      YearLength(year);
      OneYear(year);
    } else {
      assert from + n == from;
    }
  }

  /** Any four hundred years in a row have the same number of dates. */
  lemma FourCenturies(from: int)
    requires -32767 <= from <= 32368
    ensures DaysOfYears(from, 400) == 146097
  {
    hide DaysOfYears;
    YearsLength(from, 400);
    Fours(from);
    Centuries(from);
    FourHundreds(from);
  }

  /** The year as it is written. */
  function Era(year: int): int {
    if year <= 0 then 1 - year else year
  }

  /** At least four digits. */
  function Padded(s: seq<byte>): seq<byte> {
    if |s| >= 4 then s else seq(4 - |s|, _ => ZERO) + s
  }

  function TwoDigits(n: int): seq<byte>
    requires 0 <= n <= 99
  {
    [DigitOf(n / 10), DigitOf(n % 10)]
  }

  /** What comes after the year. */
  function Rest(d: Date, bc: bool): seq<byte>
    requires IsDate(d)
  {
    [DASH] + TwoDigits(d.month) + [DASH] + TwoDigits(d.day) + if bc then BC else []
  }

  function DateText(d: Date): seq<byte>
    requires IsDate(d)
  {
    Padded(Digits(Era(d.year))) + Rest(d, d.year <= 0)
  }

  /** Numbers of so many digits. */
  lemma DigitLength(n: nat)
    ensures |Digits(n)| == 1 <==> n < 10
    ensures |Digits(n)| == 2 <==> 10 <= n < 100
    ensures |Digits(n)| == 3 <==> 100 <= n < 1000
  {
    hide *;
    Unfolded(n);
    if n >= 10 {
      var m := n / 10;
      Unfolded(m);
      if m >= 10 {
        Unfolded(m / 10);
        assert n < 1000 <==> m / 10 < 10;
      }
    }
    AheadLength(n);
  }

  lemma AheadLength(n: nat)
    ensures forall k: nat :: |Ahead(k)| == if k == 0 then 0 else |Digits(k)|
    ensures |Digits(n)| >= 1
  {
  }

  /** The zeros in front of a number. */
  function Zeros(n: nat): seq<byte> {
    if |Digits(n)| >= 4 then [] else seq(4 - |Digits(n)|, _ => ZERO)
  }

  lemma ZerosAre(n: nat)
    ensures Zeros(n) + Digits(n) == Padded(Digits(n)) && |Zeros(n)| <= 3
    ensures Zeros(n) == (if n < 1000 then [ZERO] else []) + (if n < 100 then [ZERO] else [])
                        + (if n < 10 then [ZERO] else [])
  {
    DigitLength(n);
  }

  method ZerosIntoBuf(buf: array<byte>, start: nat, absy: nat) returns (begin: nat)
    requires start + SIZE_BUFFER <= buf.Length
    modifies buf
    ensures begin == start + |Zeros(absy)| <= start + 3
    ensures buf[..begin] == old(buf[..start]) + Zeros(absy)
  {
    hide Digits, Zeros;
    ZerosAre(absy);
    begin := start;
    if absy < 1000 {
      buf[begin] := ZERO;
      begin := begin + 1;
      if absy < 100 {
        buf[begin] := ZERO;
        begin := begin + 1;
      }
      if absy < 10 {
        buf[begin] := ZERO;
        begin := begin + 1;
      }
    }
  }

  /** Writes the year as it is in text. */
  method YearIntoBuf(buf: array<byte>, start: nat, year: int) returns (begin: nat)
    requires -32767 <= year <= 32767 && start + SIZE_BUFFER <= buf.Length
    modifies buf
    ensures begin == start + |Padded(Digits(Era(year)))| <= buf.Length
    ensures buf[..begin] == old(buf[..start]) + Padded(Digits(Era(year)))
  {
    hide Digits, Zeros, Padded, Rendered;
    if year == -32767 {
      HighestYear();
      buf[start], buf[start + 1], buf[start + 2], buf[start + 3], buf[start + 4] := 51, 50, 55, 54, 56;
      begin := start + 5;
      assert buf[..begin] == old(buf[..start]) + [51, 50, 55, 54, 56];
    } else {
      var absy := (if year < 0 then -year else year) + (if year <= 0 then 1 else 0);
      ZerosAre(absy);
      RenderedDigits(absy);
      begin := ZerosIntoBuf(buf, start, absy);
      ghost var front := buf[..begin];
      var ok, end := IntoBuf(SHORT, buf, begin, absy);
      assert buf[..end - 1] == buf[..end][..end - 1] == front + Digits(absy);
      assert front + Digits(absy) == old(buf[..start]) + (Zeros(absy) + Digits(absy));
      begin := end - 1;
    }
  }

  lemma RenderedDigits(n: nat)
    ensures Rendered(n) == Digits(n)
  {
  }

  lemma HighestYear()
    ensures Digits(32768) == Padded(Digits(32768)) == [51, 50, 55, 54, 56]
  {
    hide Digits, Ahead;
    LastOf(3276, 8);
    LastOf(327, 6);
    LastOf(32, 7);
    LastOf(3, 2);
    LastOf(0, 3);
  }

  lemma EraLength(year: int)
    requires -32767 <= year <= 32767
    ensures |Padded(Digits(Era(year)))| <= 5
  {
    Room(SHORT, Era(year));
  }

  /** The room that is asked for is what the longest text needs, with its NUL. */
  lemma DateRoom(d: Date)
    requires IsDate(d)
    ensures |DateText(d)| + 1 <= SIZE_BUFFER
    ensures |DateText(Date(-32767, 12, 31))| + 1 == SIZE_BUFFER
  {
    hide Digits, Padded;
    EraLength(d.year);
    HighestYear();
  }

  /** Writes a date and a NUL, if there is room for any date. */
  method IntoBufDate(buf: array<byte>, start: nat, value: Date) returns (ok: bool, end: nat)
    requires IsDate(value) && start <= buf.Length
    modifies buf
    ensures ok == (buf.Length - start >= SIZE_BUFFER)
    ensures ok ==> end <= buf.Length && buf[..end] == old(buf[..start]) + (DateText(value) + [0])
    ensures !ok ==> buf[..] == old(buf[..])
  {
    if buf.Length - start < SIZE_BUFFER {
      return false, 0;
    }
    hide Digits, Padded;
    EraLength(value.year);
    ghost var front := buf[..start];
    ghost var text := Padded(Digits(Era(value.year)));
    var begin := YearIntoBuf(buf, start, value.year);
    begin := RestIntoBuf(buf, begin, value);
    assert front + text + (Rest(value, value.year <= 0) + [0]) == front + (DateText(value) + [0]);
    return true, begin;
  }

  /** Writes what comes after the year. */
  method RestIntoBuf(buf: array<byte>, start: nat, value: Date) returns (begin: nat)
    requires IsDate(value) && start + 10 <= buf.Length
    modifies buf
    ensures begin <= buf.Length && buf[..begin] == old(buf[..start]) + (Rest(value, value.year <= 0) + [0])
  {
    hide TwoDigits;
    ghost var text := buf[..start];
    begin := start;
    buf[begin] := DASH;
    begin := begin + 1;
    assert buf[..begin] == text + [DASH];
    begin := MonthIntoBuf(buf, begin, value.month);
    assert buf[..begin] == text + ([DASH] + TwoDigits(value.month));
    buf[begin] := DASH;
    begin := begin + 1;
    assert buf[..begin] == text + ([DASH] + TwoDigits(value.month) + [DASH]);
    begin := DayIntoBuf(buf, begin, value.day);
    ghost var front := buf[..begin];
    assert front == text + ([DASH] + TwoDigits(value.month) + [DASH] + TwoDigits(value.day));
    if value.year <= 0 {
      buf[begin], buf[begin + 1], buf[begin + 2] := BC[0], BC[1], BC[2];
      begin := begin + 3;
      assert buf[..begin] == front + BC;
    }
    buf[begin] := 0;
    begin := begin + 1;
  }

  method MonthIntoBuf(buf: array<byte>, start: nat, m: int) returns (begin: nat)
    requires 1 <= m <= 12 && start + 2 <= buf.Length
    modifies buf
    ensures begin == start + 2 && buf[..begin] == old(buf[..start]) + TwoDigits(m)
  {
    begin := start;
    if m >= 10 {
      buf[begin] := 49;
    } else {
      buf[begin] := 48;
    }
    begin := begin + 1;
    buf[begin] := DigitOf(m % 10);
    begin := begin + 1;
  }

  method DayIntoBuf(buf: array<byte>, start: nat, d: int) returns (begin: nat)
    requires 1 <= d <= 31 && start + 2 <= buf.Length
    modifies buf
    ensures begin == start + 2 && buf[..begin] == old(buf[..start]) + TwoDigits(d)
  {
    begin := start;
    buf[begin] := DigitOf(d / 10);
    begin := begin + 1;
    buf[begin] := DigitOf(d % 10);
    begin := begin + 1;
  }

  // Parsing.

  /** A year is stored in 16 bits.  What becomes of a year that does not fit is not specified; it is taken
    * to lose its higher bits. */
  function Narrowed(n: int): int {
    (n + 32768) % 65536 - 32768
  }

  /** The year that is written, counted on through year zero. */
  function Written(year: seq<byte>, bc: bool): int
    requires Acceptable(INT, year)
  {
    if bc then 1 - Meaning(INT, year) else Meaning(INT, year)
  }

  /** The text is this year, as text, and the rest of this date, with or without BC.  The year may have
    * blanks in front, and if it does not fit it is narrowed. */
  ghost predicate Means(text: seq<byte>, year: seq<byte>, bc: bool, d: Date) {
    && IsDate(d) && text == year + Rest(d, bc)
    && |year| >= 4 && DASH !in year && Acceptable(INT, year) && Meaning(INT, year) > 0
    && d.year == Narrowed(Written(year, bc))
  }

  /** Text means at most one date. */
  lemma MeansOnce(text: seq<byte>, year: seq<byte>, bc: bool, d: Date, year': seq<byte>, bc': bool, d': Date)
    requires Means(text, year, bc, d) && Means(text, year', bc', d')
    ensures year == year' && bc == bc' && d == d'
  {
    hide Acceptable, Meaning;
    var n := |text|;
    assert text[n - 1] == Rest(d, bc)[|Rest(d, bc)| - 1] == Rest(d', bc')[|Rest(d', bc')| - 1];
    assert bc == bc';
    assert |Rest(d, bc)| == |Rest(d', bc')|;
    assert year == text[..|year|] == year';
    assert text[|year|..] == Rest(d, bc) == Rest(d', bc');
    TwoDigitsOnce(d.month, d'.month);
    TwoDigitsOnce(d.day, d'.day);
    assert Rest(d, bc)[1] == TwoDigits(d.month)[0] && Rest(d, bc)[2] == TwoDigits(d.month)[1];
    assert Rest(d', bc)[1] == TwoDigits(d'.month)[0] && Rest(d', bc)[2] == TwoDigits(d'.month)[1];
    assert Rest(d, bc)[4] == TwoDigits(d.day)[0] && Rest(d, bc)[5] == TwoDigits(d.day)[1];
    assert Rest(d', bc)[4] == TwoDigits(d'.day)[0] && Rest(d', bc)[5] == TwoDigits(d'.day)[1];
  }

  lemma TwoDigitsOnce(a: int, b: int)
    requires 0 <= a <= 99 && 0 <= b <= 99
    ensures TwoDigits(a)[0] == TwoDigits(b)[0] && TwoDigits(a)[1] == TwoDigits(b)[1] ==> a == b
  {
  }

  lemma {:induction false} LeadingZeros(k: nat, s: seq<byte>)
    requires AllDigits(s)
    ensures AllDigits(seq(k, _ => ZERO) + s) && NumberOf(seq(k, _ => ZERO) + s) == NumberOf(s)
    decreases |s| + k
  {
    var zeros := seq(k, _ => ZERO);
    if s == [] {
      if k > 0 {
        LeadingZeros(k - 1, []);
        assert zeros + s == (seq(k - 1, _ => ZERO) + []) + [ZERO];
        NumberMore(seq(k - 1, _ => ZERO) + [], ZERO);
      } else {
        assert zeros + s == [];
      }
    } else {
      var front := s[..|s| - 1];
      LeadingZeros(k, front);
      assert zeros + s == (zeros + front) + [s[|s| - 1]] && s == front + [s[|s| - 1]];
      NumberMore(zeros + front, s[|s| - 1]);
      NumberMore(front, s[|s| - 1]);
    }
  }

  /** The text of a year is read as the same year. */
  lemma YearBack(e: nat)
    requires 1 <= e <= 32768
    ensures var text := Padded(Digits(e));
            Acceptable(INT, text) && Meaning(INT, text) == e && |text| >= 4 && DASH !in text
  {
    hide Digits;
    var text := Padded(Digits(e));
    LeadingZeros(if |Digits(e)| >= 4 then 0 else 4 - |Digits(e)|, Digits(e));
    assert seq(0, _ => ZERO) + Digits(e) == Digits(e);
    BlanksAre(text, 0);
    assert text[0..] == text && text[0] != MINUS;
  }

  /** Every date is what its text means, in the range of years that there are. */
  lemma DateRoundTrip(d: Date)
    requires IsDate(d)
    ensures Means(DateText(d), Padded(Digits(Era(d.year))), d.year <= 0, d)
  {
    hide Digits, Padded, Acceptable, Meaning;
    YearBack(Era(d.year));
  }

  /** The form of the text, in bytes: the year, with at least four digits; a dash and two digits for the
    * month, and again for the day; and then " BC" if the year is not positive. */
  lemma Form(d: Date)
    requires IsDate(d)
    ensures DateText(d) == Padded(Digits(if d.year <= 0 then 1 - d.year else d.year))
                           + [45, 48 + d.month / 10, 48 + d.month % 10, 45, 48 + d.day / 10, 48 + d.day % 10]
                           + if d.year <= 0 then [32, 66, 67] else []
  {
    hide Digits, Padded;
  }

  lemma PaddedForm(w: nat, x: nat, y: nat, z: nat)
    requires w < 10 && x < 10 && y < 10 && z < 10
    ensures Padded(Digits(1000 * w + 100 * x + 10 * y + z)) == [48 + w, 48 + x, 48 + y, 48 + z]
  {
    hide *;
    var a := 10 * w + x;
    var b := 10 * a + y;
    LastOf(b, z);
    LastOf(a, y);
    LastOf(w, x);
    LastOf(0, w);
    PaddedShort(w, x, y, z, a, b, 10 * b + z);
    assert 10 * b + z == 1000 * w + 100 * x + 10 * y + z;
  }

  lemma LastOf(n: nat, d: nat)
    requires d < 10
    ensures Digits(10 * n + d) == Ahead(n) + [48 + d]
    ensures Ahead(n) == if n == 0 then [] else Digits(n)
  {
    hide Digits, Ahead;
    Unfolded(10 * n + d);
    Unfolded(n);
    assert (10 * n + d) / 10 == n && (10 * n + d) % 10 == d;
  }

  lemma PaddedShort(w: nat, x: nat, y: nat, z: nat, a: nat, b: nat, c: nat)
    requires Digits(w) == [48 + w]
    requires Digits(a) == (if w == 0 then [] else Digits(w)) + [48 + x] && (a == 0 ==> w == x == 0)
    requires Digits(b) == (if a == 0 then [] else Digits(a)) + [48 + y] && (b == 0 ==> a == y == 0)
    requires Digits(c) == (if b == 0 then [] else Digits(b)) + [48 + z]
    requires w < 10 && x < 10 && y < 10 && z < 10
    ensures Padded(Digits(c)) == [48 + w, 48 + x, 48 + y, 48 + z]
  {
    hide Digits;
  }

  /** So different dates have different texts. */
  lemma RenderingInjective(a: Date, b: Date)
    requires IsDate(a) && IsDate(b) && DateText(a) == DateText(b)
    ensures a == b
  {
    hide Means, DateText;
    DateRoundTrip(a);
    DateRoundTrip(b);
    MeansOnce(DateText(a), Padded(Digits(Era(a.year))), a.year <= 0, a, Padded(Digits(Era(b.year))), b.year <= 0, b);
  }

  predicate EndsWithBC(text: seq<byte>) {
    |text| >= 3 && text[|text| - 3..] == BC
  }

  /** The text without the suffix. */
  function Core(text: seq<byte>): seq<byte> {
    if EndsWithBC(text) then text[..|text| - 3] else text
  }

  ghost predicate FirstDash(s: seq<byte>, i: nat) {
    i <= |s| && (forall j :: 0 <= j < i ==> s[j] != DASH) && (i < |s| ==> s[i] == DASH)
  }

  function TwoDigitValue(a: byte, b: byte): int {
    10 * (a - ZERO) + (b - ZERO)
  }

  /** Where the parts of a date's text are. */
  lemma Shape(text: seq<byte>, sep: nat, year: seq<byte>, bc: bool, d: Date)
    requires Means(text, year, bc, d) && FirstDash(Core(text), sep)
    ensures bc == EndsWithBC(text) && |text| >= 9 && |Core(text)| == sep + 6 && year == Core(text)[..sep]
    ensures var core := Core(text);
            && IsDigit(core[sep + 1]) && IsDigit(core[sep + 2])
            && TwoDigitValue(core[sep + 1], core[sep + 2]) == d.month
            && core[sep + 3] == DASH
            && IsDigit(core[sep + 4]) && IsDigit(core[sep + 5]) && TwoDigitValue(core[sep + 4], core[sep + 5]) == d.day
  {
    hide Acceptable, Meaning;
    var n := |text|;
    var core := year + Rest(d, false);
    assert Rest(d, bc) == Rest(d, false) + if bc then BC else [];
    assert text == core + if bc then BC else [];
    assert !bc ==> text[n - 3..][2] == text[n - 1] == Rest(d, bc)[5];
    assert bc ==> text[n - 3..] == BC;
    assert Core(text) == core;
    var k := |year|;
    assert core[k] == DASH && forall j :: 0 <= j < k ==> core[j] == year[j];
    assert sep == k;
    assert core[k + 1] == DigitOf(d.month / 10) && core[k + 2] == DigitOf(d.month % 10) && core[k + 3] == DASH;
    assert core[k + 4] == DigitOf(d.day / 10) && core[k + 5] == DigitOf(d.day % 10);
    assert core[..k] == year;
  }

  /** Text of this shape means this date, if it is one. */
  lemma Shaped(text: seq<byte>, sep: nat, d: Date)
    requires FirstDash(Core(text), sep) && |Core(text)| == sep + 6 && IsDate(d)
    requires var core := Core(text);
             && IsDigit(core[sep + 1]) && IsDigit(core[sep + 2])
             && TwoDigitValue(core[sep + 1], core[sep + 2]) == d.month
             && core[sep + 3] == DASH
             && IsDigit(core[sep + 4]) && IsDigit(core[sep + 5]) && TwoDigitValue(core[sep + 4], core[sep + 5]) == d.day
    ensures text == Core(text)[..sep] + Rest(d, EndsWithBC(text)) && DASH !in Core(text)[..sep]
  {
    var core := Core(text);
    assert text == core + if EndsWithBC(text) then BC else [];
    assert TwoDigits(d.month) == [core[sep + 1], core[sep + 2]];
    assert TwoDigits(d.day) == [core[sep + 4], core[sep + 5]];
    assert core == core[..sep] + Rest(d, false);
    assert Rest(d, EndsWithBC(text)) == Rest(d, false) + if EndsWithBC(text) then BC else [];
  }

  method FindYearMonthSeparator(text: seq<byte>) returns (here: nat)
    ensures FirstDash(text, here)
  {
    here := 0;
    while here < |text| && text[here] != DASH
      invariant here <= |text| && forall j :: 0 <= j < here ==> text[j] != DASH
    {
      here := here + 1;
    }
  }

  /** The year that the first part of some text means, if there is a dash behind it. */
  method YearFromBuf(text: seq<byte>, size: nat) returns (r: Conversion)
    requires size < |text| && text[size] == DASH
    ensures var year := text[..size];
            r == if size >= 4 && Acceptable(INT, year) && Meaning(INT, year) > 0 then Ok(Meaning(INT, year)) else Err
  {
    hide Acceptable, Meaning;
    if size < 4 {
      return Err;
    }
    r := FromString(INT, text, size);
    if r.Err? || r.value <= 0 {
      return Err;
    }
  }

  /** The date that text means, or none if it means none. */
  ghost predicate ReadsAs(text: seq<byte>, r: Option<Date>) {
    match r
    case Some(d) => exists year, bc :: Means(text, year, bc, d)
    case None => forall year, bc, d :: !Means(text, year, bc, d)
  }

  /** The text of a date reads as that date, and as nothing else. */
  lemma ReadBack(d: Date, r: Option<Date>)
    requires IsDate(d)
    ensures ReadsAs(DateText(d), r) <==> r == Some(d)
  {
    hide Means, DateText, Padded, Digits;
    var year := Padded(Digits(Era(d.year)));
    DateRoundTrip(d);
    if r.Some? && ReadsAs(DateText(d), r) {
      var year', bc' :| Means(DateText(d), year', bc', r.value);
      MeansOnce(DateText(d), year, d.year <= 0, d, year', bc', r.value);
    }
  }

  /** The last day of February, written in any year. */
  function LeapDayText(y: int): seq<byte> {
    Padded(Digits(if y <= 0 then 1 - y else y)) + [45, 48, 50, 45, 50, 57] + if y <= 0 then [32, 66, 67] else []
  }

  function LeapDayOf(y: int): Option<Date> {
    if y % 4 == 0 && (y % 100 != 0 || y % 400 == 0) then Some(Date(y, 2, 29)) else None
  }

  lemma LeapDayMeans(y: int, year: seq<byte>, bc: bool, d: Date)
    requires -32767 <= y <= 32767 && Means(LeapDayText(y), year, bc, d)
    ensures d == Date(y, 2, 29)
  {
    hide Digits, Padded, Acceptable, Meaning;
    var text, front := LeapDayText(y), Padded(Digits(Era(y)));
    var rest := Rest(d, bc);
    YearBack(Era(y));
    assert text[|text| - 1] == rest[|rest| - 1] && bc == (y <= 0);
    assert |rest| == |text| - |front| && year == text[..|year|] == front;
    assert text[|front| + 1] == rest[1] && text[|front| + 2] == rest[2];
    assert text[|front| + 4] == rest[4] && text[|front| + 5] == rest[5];
    assert rest[1] == TwoDigits(d.month)[0] && rest[2] == TwoDigits(d.month)[1];
    assert rest[4] == TwoDigits(d.day)[0] && rest[5] == TwoDigits(d.day)[1];
    TwoDigitsOnce(d.month, 2);
    TwoDigitsOnce(d.day, 29);
  }

  /** The last day of February is read exactly in the years that have one. */
  lemma LeapDayRead(y: int)
    requires -32767 <= y <= 32767
    ensures forall r :: ReadsAs(LeapDayText(y), r) <==> r == LeapDayOf(y)
  {
    hide Digits, Padded, Means;
    var d := Date(y, 2, 29);
    forall year, bc, e | Means(LeapDayText(y), year, bc, e) ensures e == d && IsDate(e) {
      LeapDayMeans(y, year, bc, e);
      MeansDate(LeapDayText(y), year, bc, e);
    }
    if IsDate(d) {
      DateRoundTrip(d);
      LeapDayIs(y);
    }
  }

  lemma MeansDate(text: seq<byte>, year: seq<byte>, bc: bool, d: Date)
    requires Means(text, year, bc, d)
    ensures IsDate(d)
  {
  }

  lemma LeapDayIs(y: int)
    requires IsDate(Date(y, 2, 29))
    ensures DateText(Date(y, 2, 29)) == LeapDayText(y)
  {
    hide Digits, Padded;
    assert TwoDigits(2) == [48, 50] && TwoDigits(29) == [50, 57];
  }

  lemma LeapDaysRead(text: seq<byte>)
    ensures forall y, r :: -32767 <= y <= 32767 && text == LeapDayText(y) && ReadsAs(text, r) ==> r == LeapDayOf(y)
  {
    hide LeapDayText, LeapDayOf, ReadsAs;
    forall y, r | -32767 <= y <= 32767 && text == LeapDayText(y) && ReadsAs(text, r) ensures r == LeapDayOf(y) {
      LeapDayRead(y);
    }
  }

  /** Converts text to the date that it means, if it means one. */
  method DateFromString(text: seq<byte>) returns (r: Option<Date>)
    ensures ReadsAs(text, r)
    ensures forall y :: -32767 <= y <= 32767 && text == LeapDayText(y) ==>
              r == if y % 4 == 0 && (y % 100 != 0 || y % 400 == 0) then Some(Date(y, 2, 29)) else None
  {
    hide Acceptable, Meaning, Means, Core, EndsWithBC, IsDate, LeapDayText;
    LeapDaysRead(text);
    var bc := EndsWithBC(text);
    var core := Core(text);
    var sep := FindYearMonthSeparator(core);
    forall year, b, d | Means(text, year, b, d) ensures Parts(text, sep, year, b, d) {
      PartsOf(text, sep, year, b, d);
    }
    if |text| < 9 || |core| - sep != 6 {
      return None;
    }
    var year := YearFromBuf(core, sep);
    if year.Err? || !IsDigit(core[sep + 1]) || !IsDigit(core[sep + 2]) || core[sep + 3] != DASH {
      return None;
    }
    if !IsDigit(core[sep + 4]) || !IsDigit(core[sep + 5]) {
      return None;
    }
    var d := Date(Narrowed(if bc then 1 - year.value else year.value), TwoDigitValue(core[sep + 1], core[sep + 2]),
                  TwoDigitValue(core[sep + 4], core[sep + 5]));
    if !(1 <= d.day <= 31) || !IsDate(d) {
      DayInRange(d);
      return None;
    }
    Shaped(text, sep, d);
    MeansIs(text, core[..sep], bc, d);
    return Some(d);
  }

  lemma DayInRange(d: Date)
    ensures IsDate(d) ==> 1 <= d.day <= 31
  {
  }

  lemma MeansIs(text: seq<byte>, year: seq<byte>, bc: bool, d: Date)
    requires IsDate(d) && text == year + Rest(d, bc)
    requires |year| >= 4 && DASH !in year && Acceptable(INT, year) && Meaning(INT, year) > 0
    requires d.year == Narrowed(Written(year, bc))
    ensures Means(text, year, bc, d)
  {
  }

  /** All that text that means a date has to satisfy. */
  ghost predicate Parts(text: seq<byte>, sep: nat, year: seq<byte>, bc: bool, d: Date) {
    var core := Core(text);
    && IsDate(d) && bc == EndsWithBC(text) && |text| >= 9 && |core| == sep + 6 && year == core[..sep]
    && |year| >= 4 && Acceptable(INT, year) && Meaning(INT, year) > 0
    && IsDigit(core[sep + 1]) && IsDigit(core[sep + 2]) && core[sep + 3] == DASH
    && IsDigit(core[sep + 4]) && IsDigit(core[sep + 5])
    && d == Date(Narrowed(Written(year, bc)),
                 TwoDigitValue(core[sep + 1], core[sep + 2]), TwoDigitValue(core[sep + 4], core[sep + 5]))
  }

  lemma PartsOf(text: seq<byte>, sep: nat, year: seq<byte>, bc: bool, d: Date)
    requires Means(text, year, bc, d) && FirstDash(Core(text), sep)
    ensures Parts(text, sep, year, bc, d)
  {
    hide Acceptable, Meaning, Core, Rest;
    Shape(text, sep, year, bc, d);
  }

  /** The year of the date that is found is the year that is written if and only if that is in the range
    * of years that there are. */
  lemma YearAsWritten(text: seq<byte>, year: seq<byte>, bc: bool, d: Date)
    requires Means(text, year, bc, d)
    ensures d.year == Written(year, bc) <==> -32767 <= Written(year, bc) <= 32767
  {
    hide Acceptable, Meaning;
  }

  /** For every year beyond the range there is a date that it is taken for, unless it is taken for the one
    * year that there is not. */
  lemma YearTaken(year: seq<byte>, bc: bool, d: Date)
    requires |year| >= 4 && DASH !in year && Acceptable(INT, year) && Meaning(INT, year) > 0
    requires IsDate(d) && d.year == Narrowed(Written(year, bc))
    ensures Means(year + Rest(d, bc), year, bc, d)
    ensures Narrowed(Written(year, bc)) == Written(year, bc) <==> -32768 <= Written(year, bc) <= 32767
  {
    hide Acceptable, Meaning;
  }

  /** A year beyond the range is not refused: it comes out as another year, and any date may come of one. */
  lemma YearNarrowed(d: Date)
    requires IsDate(d)
    ensures exists year, bc ::
              && Acceptable(INT, year) && Written(year, bc) == d.year + (if bc then -65536 else 65536)
              && Means(year + Rest(d, bc), year, bc, d)
  {
    var bc := d.year <= 0;
    var n := if bc then 1 - d.year + 65536 else d.year + 65536;
    var year := Digits(n);
    hide Digits;
    BlanksAre(year, 0);
    assert year[0..] == year;
    DigitLength(n);
    Shifted(d.year);
    assert Acceptable(INT, year) && Meaning(INT, year) == n;
    MeansIs(year + Rest(d, bc), year, bc, d);
  }

  lemma Shifted(n: int)
    requires -32768 <= n <= 32767
    ensures Narrowed(n + 65536) == n && Narrowed(n - 65536) == n
  {
  }
}
