/** Local calendar dates as `YYYY-MM-DD` strings (client/src/utils/dateLocal.ts):
    formatting a date's local fields, and reading such a string back into
    the fields a `Date` is constructed from. */
module DateLocal {
  import opened Common
  import opened Text
  import opened Decimal

  /** A date's local fields: `getFullYear()`, `getMonth()` (0-based) and
      `getDate()`. */
  datatype LocalDate = LocalDate(year: int, monthIndex: int, day: int)

  predicate ValidDate(d: LocalDate) {
    0 <= d.monthIndex <= 11 && 1 <= d.day <= 31
  }

  /** `toLocalISO`: the year as `String` writes it, then month and day padded
      to two digits. */
  function ToLocalIso(d: LocalDate): string
    requires ValidDate(d)
  {
    DashJoin(IntToString(d.year), TwoDigits(d.monthIndex + 1), TwoDigits(d.day))
  }

  /** `String(n).padStart(2, '0')` */
  function TwoDigits(n: nat): string {
    PadStart2(NatToString(n))
  }

  function DashJoin(a: string, b: string, c: string): string {
    a + "-" + b + "-" + c
  }

  /** `new Date(y, m, d)` reads a year from 0 to 99 as 1900 onwards. */
  function ConstructorYear(y: int): int {
    if 0 <= y <= 99 then 1900 + y else y
  }

  /** `parseLocalISO`: split on "-", read the first three parts as numbers,
      and construct a date with the month made 0-based. A part that is not
      made of digits reads as NaN and yields an invalid date (None). */
  function ParseLocalIso(iso: string): (r: Option<LocalDate>)
    ensures var parts := Split(iso, '-');
            r.Some? <==> |parts| >= 3 && AllDigits(parts[0]) && AllDigits(parts[1]) && AllDigits(parts[2])
    ensures r.Some? ==> var parts := Split(iso, '-');
                        AllDigits(parts[1]) && r.value.monthIndex == DigitsValue(parts[1]) - 1
    ensures r.Some? ==> var parts := Split(iso, '-');
                        && AllDigits(parts[0]) && r.value.year == ConstructorYear(DigitsValue(parts[0]))
                        && AllDigits(parts[2]) && r.value.day == DigitsValue(parts[2])
  {
    var parts := Split(iso, '-');
    if |parts| < 3 || !AllDigits(parts[0]) || !AllDigits(parts[1]) || !AllDigits(parts[2]) then None
    else Some(LocalDate(ConstructorYear(DigitsValue(parts[0])), DigitsValue(parts[1]) - 1, DigitsValue(parts[2])))
  }

  /** A month or day number pads to two digits that read back as itself. */
  lemma TwoDigitsFacts(n: nat)
    requires n <= 99
    ensures |TwoDigits(n)| == 2 && AllDigits(TwoDigits(n)) && DigitsValue(TwoDigits(n)) == n
  {
    var s := NatToString(n);
    ReadWritten(n);
    if n >= 10 {
      assert |NatToString(n / 10)| == 1;
    } else {
      LeadingZero(s);
    }
  }

  /** For four-digit years the text is ten characters with dashes at
      positions 4 and 7. */
  lemma IsoShape(d: LocalDate)
    requires ValidDate(d) && 1000 <= d.year <= 9999
    ensures var s := ToLocalIso(d);
            |s| == 10 && s[4] == '-' && s[7] == '-'
  {
    YearLength(d.year);
    TwoDigitsFacts(d.monthIndex + 1);
    TwoDigitsFacts(d.day);
    DashJoinShape(IntToString(d.year), TwoDigits(d.monthIndex + 1), TwoDigits(d.day));
  }

  lemma YearLength(y: int)
    requires 1000 <= y <= 9999
    ensures |IntToString(y)| == 4
  {
    FourDigits(y);
  }

  lemma DashJoinShape(y: string, m: string, dd: string)
    requires |y| == 4 && |m| == 2 && |dd| == 2
    ensures var s := DashJoin(y, m, dd); |s| == 10 && s[4] == '-' && s[7] == '-'
  {
  }

  /** Formatting and parsing round-trip for every year from 100 on. */
  lemma RoundTrip(d: LocalDate)
    requires ValidDate(d) && d.year >= 100
    ensures ParseLocalIso(ToLocalIso(d)) == Some(d)
  {
    RoundTripFields(d);
  }

  /** Years 0 to 99 come back 1900 years later: the constructor's reading of
      two-digit years. */
  lemma EarlyYearsShift(d: LocalDate)
    requires ValidDate(d) && 0 <= d.year <= 99
    ensures ParseLocalIso(ToLocalIso(d)) == Some(d.(year := d.year + 1900))
  {
    RoundTripFields(d);
  }

  lemma RoundTripFields(d: LocalDate)
    requires ValidDate(d) && d.year >= 0
    ensures var parts := Split(ToLocalIso(d), '-');
            && |parts| == 3 && AllDigits(parts[0]) && AllDigits(parts[1]) && AllDigits(parts[2])
            && DigitsValue(parts[0]) == d.year && DigitsValue(parts[1]) == d.monthIndex + 1
            && DigitsValue(parts[2]) == d.day
  {
    YearText(d.year);
    TwoDigitsFacts(d.monthIndex + 1);
    TwoDigitsFacts(d.day);
    SplitThree(IntToString(d.year), TwoDigits(d.monthIndex + 1), TwoDigits(d.day));
  }

  lemma YearText(y: int)
    requires y >= 0
    ensures AllDigits(IntToString(y)) && DigitsValue(IntToString(y)) == y
  {
    ReadWritten(y);
  }

  /** Three digit strings joined by dashes split back into the three. */
  lemma SplitThree(a: string, b: string, c: string)
    requires AllDigits(a) && AllDigits(b) && AllDigits(c)
    ensures Split(DashJoin(a, b, c), '-') == [a, b, c]
  {
    var rest := b + ['-'] + c;
    assert DashJoin(a, b, c) == a + ['-'] + rest;
    NoDash(a);
    SplitCons(a, '-', rest);
    SplitTwo(b, c);
  }

  lemma SplitTwo(b: string, c: string)
    requires AllDigits(b) && AllDigits(c)
    ensures Split(b + ['-'] + c, '-') == [b, c]
  {
    NoDash(b);
    NoDash(c);
    SplitCons(b, '-', c);
    SplitNoSep(c, '-');
  }

  lemma NoDash(s: string)
    requires AllDigits(s)
    ensures forall i :: 0 <= i < |s| ==> s[i] != '-'
  {
  }
}
