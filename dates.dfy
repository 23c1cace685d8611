/**
  `convertDate`: a Buddhist-era date written ddMMyyyy becomes the ISO date
  yyyy-MM-dd 543 years earlier. The conversion goes through java.time: the
  text is parsed with the pattern "ddMMyyyy" (strict parsing, SMART
  resolution), the date is moved back with `minusYears(543)`, and the result
  is printed with the pattern "yyyy-MM-dd". Text the parser refuses is handed
  back unchanged.
 */
module BuddhistDates {
  import opened Wrappers
  import opened Strings

  /** A `java.time.LocalDate`: proleptic ISO year, month 1..12, day of month. */
  datatype LocalDate = LocalDate(year: int, month: int, day: int)

  /** The largest year-of-era `LocalDate` accepts. */
  const YearOfEraMax: int := 999_999_999

  /** Years between the Buddhist and the Christian era. */
  const BuddhistOffset: int := 543

  function Min(a: int, b: int): int {
    if a < b then a else b
  }

  /** `Year.isLeap`: the proleptic Gregorian rule. */
  predicate IsLeap(y: int) {
    y % 4 == 0 && (y % 100 != 0 || y % 400 == 0)
  }

  /** `Month.length`. */
  function MonthLength(month: int, leap: bool): (n: int)
    requires 1 <= month <= 12
    ensures 28 <= n <= 31
    ensures n == 31 <==> month in {1, 3, 5, 7, 8, 10, 12}
    ensures month == 2 ==> n == (if leap then 29 else 28)
  {
    if month == 2 then (if leap then 29 else 28)
    else if month == 4 || month == 6 || month == 9 || month == 11 then 30
    else 31
  }

  /** A date that exists in the proleptic Gregorian calendar. */
  predicate ValidDate(d: LocalDate) {
    1 <= d.month <= 12 && 1 <= d.day <= MonthLength(d.month, IsLeap(d.year))
  }

  // ---------------------------------------------------------------------------
  // LocalDate.parse(text, ofPattern("ddMMyyyy"))

  /**
    The year field of the pattern, "yyyy": at least four digits, at most
    nineteen. In strict parsing a '+' must come before more than four digits
    and may not come before four; a '-' gives a year of era that is zero or
    negative, which is out of range; so what is accepted is exactly four
    digits, or '+' and five to nineteen digits, up to the end of the text.
   */
  function ParseYearOfEra(t: string): (r: Option<nat>)
    ensures r.Some? ==> forall i :: 0 <= i < |t| ==> IsDigit(t[i]) || t[i] == '+'
  {
    if |t| == 4 && AllDigits(t) then Some(DigitsValue(t))
    else if 6 <= |t| <= 20 && t[0] == '+' && AllDigits(t[1..]) then Some(DigitsValue(t[1..]))
    else None
  }

  /**
    Strict parsing of "ddMMyyyy" followed by SMART resolution: the day and
    month take exactly two digits each, the year of era must lie in
    1..999999999 and is taken as the ISO year, the month must lie in 1..12
    and the day in 1..31; a day past the end of its month is moved back to
    the month's last day, using the leap-year rule on the year as written.
   */
  function ParseBuddhistDate(s: string): (r: Option<LocalDate>)
    ensures r.Some? ==> ValidDate(r.value) && 1 <= r.value.year <= YearOfEraMax
  {
    if |s| < 4 || !AllDigits(s[..4]) then None
    else
      match ParseYearOfEra(s[4..])
      case None => None
      case Some(yoe) =>
        var day := DigitsValue(s[..2]);
        var month := DigitsValue(s[2..4]);
        if yoe < 1 || yoe > YearOfEraMax || month < 1 || month > 12 || day < 1 || day > 31 then None
        else Some(LocalDate(yoe, month, Min(day, MonthLength(month, IsLeap(yoe)))))
  }

  // ---------------------------------------------------------------------------
  // LocalDate.minusYears

  /**
    `d.minusYears(n)`: the same month and day `n` years earlier, the day
    moved back to the month's last day when that year's month is shorter
    (29 February in a year that is not leap).
   */
  function MinusYears(d: LocalDate, n: int): (r: LocalDate)
    requires ValidDate(d)
    ensures ValidDate(r)
    ensures r.year == d.year - n && r.month == d.month
    ensures d.day <= MonthLength(d.month, IsLeap(d.year - n)) ==> r.day == d.day
    ensures d.day > MonthLength(d.month, IsLeap(d.year - n)) ==> r.day == MonthLength(d.month, IsLeap(d.year - n))
  {
    var y := d.year - n;
    LocalDate(y, d.month, Min(d.day, MonthLength(d.month, IsLeap(y))))
  }

  // ---------------------------------------------------------------------------
  // LocalDate.format(ofPattern("yyyy-MM-dd"))

  /** The year as "yyyy" prints it: the year of era, 1 - year before year 1. */
  function YearOfEra(year: int): (yoe: nat)
    ensures yoe >= 1
    ensures year >= 1 ==> yoe == year
  {
    if year >= 1 then year else 1 - year
  }

  /** Digits padded on the left with zeros to `width` characters. */
  function PadLeft(digits: string, width: nat): (s: string)
    requires AllDigits(digits)
    ensures AllDigits(s) && |s| == Max(|digits|, width)
    ensures DigitsValue(s) == DigitsValue(digits)
  {
    if |digits| >= width then digits
    else
      LeadingZerosValue(width - |digits|, digits);
      Zeros(width - |digits|) + digits
  }

  function Max(a: int, b: int): int {
    if a < b then b else a
  }

  /**
    The year field printed by "yyyy": the year of era padded to four digits,
    with a '+' in front once it exceeds four digits.
   */
  function YearText(year: int): (s: string)
    ensures |s| >= 4
    ensures forall i :: 0 <= i < |s| ==> IsDigit(s[i]) || s[i] == '+'
  {
    var yoe := YearOfEra(year);
    (if yoe >= 10000 then "+" else "") + PadLeft(NatToString(yoe), 4)
  }

  /** "yyyy-MM-dd": month and day padded to two digits. */
  function FormatIsoDate(d: LocalDate): (s: string)
    requires 1 <= d.month <= 12 && 1 <= d.day <= 31
    ensures |s| >= 10 && s[|s| - 3] == '-' && s[|s| - 6] == '-'
    ensures s[|s| - 5..|s| - 3] == FieldText(d.month) && s[|s| - 2..] == FieldText(d.day)
  {
    JoinedFields(YearText(d.year), FieldText(d.month), FieldText(d.day));
    YearText(d.year) + "-" + FieldText(d.month) + "-" + FieldText(d.day)
  }

  /** The "MM" and "dd" fields: the number padded with zeros to two digits. */
  function FieldText(n: int): (t: string)
    requires 1 <= n <= 31
    ensures |t| == 2 && AllDigits(t) && DigitsValue(t) == n
  {
    NatToStringWidth(n, 2);
    PadLeft(NatToString(n), 2)
  }

  /** In "y-MM-dd", the hyphens stand before the last five and the last two characters, which are the month and the day. */
  lemma JoinedFields(year: string, month: string, day: string)
    requires |year| >= 4 && |month| == 2 && |day| == 2
    ensures var s := year + "-" + month + "-" + day;
      |s| >= 10 && s[|s| - 3] == '-' && s[|s| - 6] == '-' &&
      s[|s| - 5..|s| - 3] == month && s[|s| - 2..] == day
  {
    var s := year + "-" + month + "-" + day;
    assert s == (year + "-") + month + ("-" + day);
  }


  // ---------------------------------------------------------------------------
  // convertDate

  /** The Christian-era ISO date of a Buddhist-era ddMMyyyy date, or the text itself when it does not parse. */
  function ConvertDate(s: string): (r: string)
    ensures ParseBuddhistDate(s).None? ==> r == s
  {
    match ParseBuddhistDate(s)
    case None => s
    case Some(d) => FormatIsoDate(MinusYears(d, BuddhistOffset))
  }

  /** The parsed text never holds a '-'. */
  lemma ParsedHasNoHyphen(s: string, i: int)
    requires ParseBuddhistDate(s).Some? && 0 <= i < |s|
    ensures s[i] != '-'
  {
    if i < 4 {
      assert s[..4][i] == s[i];
    } else {
      assert s[4..][i - 4] == s[i];
    }
  }

  /**
    The conversion hands its input back exactly when the input does not
    parse: a converted date always holds a '-', and text that parses never
    does.
   */
  lemma ConvertDateFallbackIff(s: string)
    ensures ConvertDate(s) == s <==> ParseBuddhistDate(s).None?
  {
    if ParseBuddhistDate(s).Some? {
      var r := ConvertDate(s);
      if r == s {
        ParsedHasNoHyphen(s, |s| - 3);
      }
    }
  }

  /** Digits of a given width read and printed back at that width are the same digits. */
  lemma PadLeftOfDigits(t: string)
    requires AllDigits(t) && |t| >= 1
    ensures PadLeft(NatToString(DigitsValue(t)), |t|) == t
  {
    var v := DigitsValue(t);
    DigitsValueBound(t);
    NatToStringWidth(v, |t|);
    DigitsValueInjective(PadLeft(NatToString(v), |t|), t);
  }

  /**
    The conversion of an eight-digit date that exists in both eras and falls
    in the years 1..9999 of the Christian era: the result is ten characters
    "yyyy-MM-dd" whose month and day are the input's own digits and whose year
    is the input's year minus 543.
   */
  lemma ConvertDateDigits(s: string)
    requires |s| == 8 && AllDigits(s)
    requires 544 <= DigitsValue(s[4..]) <= 10542
    requires 1 <= DigitsValue(s[2..4]) <= 12
    requires 1 <= DigitsValue(s[..2]) <= MonthLength(DigitsValue(s[2..4]), IsLeap(DigitsValue(s[4..])))
    requires DigitsValue(s[..2]) <= MonthLength(DigitsValue(s[2..4]), IsLeap(DigitsValue(s[4..]) - BuddhistOffset))
    ensures var r := ConvertDate(s);
      |r| == 10 && r[4] == '-' && r[7] == '-' && r[5..7] == s[2..4] && r[8..] == s[..2] &&
      AllDigits(r[..4]) && DigitsValue(r[..4]) == DigitsValue(s[4..]) - BuddhistOffset
  {
    var y, m, d := DigitsValue(s[4..]), DigitsValue(s[2..4]), DigitsValue(s[..2]);
    var c := y - BuddhistOffset;
    NatToStringWidth(c, 4);
    var yearText := PadLeft(NatToString(c), 4);
    var text := yearText + "-" + s[2..4] + "-" + s[..2];
    IsoTextOfParts(yearText, s[2..4], s[..2]);
    ConvertKnownDate(s, text, y, m, d, d);
  }

  /** The parts of a "yyyy-MM-dd" text with a four-digit year, where they stand. */
  lemma IsoTextOfParts(year: string, month: string, day: string)
    requires |year| == 4 && |month| == 2 && |day| == 2
    ensures var t := year + "-" + month + "-" + day;
      |t| == 10 && t[..4] == year && t[4] == '-' && t[5..7] == month && t[7] == '-' && t[8..] == day
  {
  }

  /** A date of an eight-digit text, parsed field by field. */
  lemma ParseEightDigits(s: string, day: nat, month: nat, year: nat)
    requires |s| == 8 && AllDigits(s)
    requires DigitsValue(s[..2]) == day && DigitsValue(s[2..4]) == month && DigitsValue(s[4..]) == year
    requires 1 <= year && 1 <= month <= 12 && 1 <= day <= 31
    ensures ParseBuddhistDate(s) == Some(LocalDate(year, month, Min(day, MonthLength(month, IsLeap(year)))))
  {
    assert s[..4][..2] == s[..2] && s[..4][2..4] == s[2..4];
    assert |s[4..]| == 4 && AllDigits(s[4..]);
    assert ParseYearOfEra(s[4..]) == Some(year);
    DigitsValueBound(s[4..]);
    assert Pow10(4) == 10000;
  }

  /** Two digits read as a number. */
  lemma TwoDigits(t: string)
    requires |t| == 2 && AllDigits(t)
    ensures DigitsValue(t) == 10 * DigitValue(t[0]) + DigitValue(t[1])
  {
    var first := t[..1];
    assert first[..0] == [] && first[0] == t[0];
    assert DigitsValue(first) == DigitValue(t[0]);
  }

  /** Four digits read as a number. */
  lemma FourDigits(t: string)
    requires |t| == 4 && AllDigits(t)
    ensures DigitsValue(t) == 1000 * DigitValue(t[0]) + 100 * DigitValue(t[1]) + 10 * DigitValue(t[2]) + DigitValue(t[3])
  {
    var two, three := t[..2], t[..3];
    assert three[..2] == two && three[2] == t[2] && two[0] == t[0] && two[1] == t[1];
    TwoDigits(two);
  }

  /** The text of a date in the years 1..9999: four year digits, two month digits, two day digits. */
  lemma FormatFourDigitYear(d: LocalDate, text: string)
    requires ValidDate(d) && 1 <= d.year <= 9999
    requires |text| == 10 && AllDigits(text[..4]) && text[4] == '-' && AllDigits(text[5..7]) && text[7] == '-' && AllDigits(text[8..])
    requires DigitsValue(text[..4]) == d.year && DigitsValue(text[5..7]) == d.month && DigitsValue(text[8..]) == d.day
    ensures FormatIsoDate(d) == text
  {
    var year, month, day := text[..4], text[5..7], text[8..];
    PadLeftOfDigits(year);
    PadLeftOfDigits(month);
    PadLeftOfDigits(day);
    assert YearText(d.year) == year by {
      assert "" + year == year;
    }
    IsoTextSplit(text);
  }

  lemma IsoTextSplit(t: string)
    requires |t| == 10 && t[4] == '-' && t[7] == '-'
    ensures t == t[..4] + "-" + t[5..7] + "-" + t[8..]
  {
  }

  /** The fields of an eight-digit text read as numbers. */
  lemma DateTextFields(s: string)
    requires |s| == 8 && AllDigits(s)
    ensures DigitsValue(s[..2]) == 10 * DigitValue(s[0]) + DigitValue(s[1])
    ensures DigitsValue(s[2..4]) == 10 * DigitValue(s[2]) + DigitValue(s[3])
    ensures DigitsValue(s[4..]) == 1000 * DigitValue(s[4]) + 100 * DigitValue(s[5]) + 10 * DigitValue(s[6]) + DigitValue(s[7])
  {
    TwoDigits(s[..2]);
    TwoDigits(s[2..4]);
    FourDigits(s[4..]);
  }

  /** The fields of a "yyyy-MM-dd" text with a four-digit year read as numbers. */
  lemma IsoTextFields(t: string)
    requires |t| == 10 && t[4] == '-' && t[7] == '-'
    requires forall i :: 0 <= i < 10 && i != 4 && i != 7 ==> IsDigit(t[i])
    ensures AllDigits(t[..4]) && AllDigits(t[5..7]) && AllDigits(t[8..])
    ensures DigitsValue(t[..4]) == 1000 * DigitValue(t[0]) + 100 * DigitValue(t[1]) + 10 * DigitValue(t[2]) + DigitValue(t[3])
    ensures DigitsValue(t[5..7]) == 10 * DigitValue(t[5]) + DigitValue(t[6])
    ensures DigitsValue(t[8..]) == 10 * DigitValue(t[8]) + DigitValue(t[9])
  {
    FourDigits(t[..4]);
    TwoDigits(t[5..7]);
    TwoDigits(t[8..]);
  }

  /**
    An eight-digit text whose fields are known converts to the text whose
    fields are the year less 543, the month, and the day after both
    adjustments to the month's length.
   */
  lemma ConvertKnownDate(s: string, text: string, year: int, month: int, day: int, outDay: int)
    requires |s| == 8 && AllDigits(s)
    requires DigitsValue(s[..2]) == day && DigitsValue(s[2..4]) == month && DigitsValue(s[4..]) == year
    requires 544 <= year <= 10542 && 1 <= month <= 12 && 1 <= day <= 31
    requires outDay == Min(Min(day, MonthLength(month, IsLeap(year))), MonthLength(month, IsLeap(year - BuddhistOffset)))
    requires |text| == 10 && AllDigits(text[..4]) && text[4] == '-' && AllDigits(text[5..7]) && text[7] == '-' && AllDigits(text[8..])
    requires DigitsValue(text[..4]) == year - BuddhistOffset && DigitsValue(text[5..7]) == month && DigitsValue(text[8..]) == outDay
    ensures ConvertDate(s) == text
  {
    ParseEightDigits(s, day, month, year);
    var parsed := LocalDate(year, month, Min(day, MonthLength(month, IsLeap(year))));
    var shifted := MinusYears(parsed, BuddhistOffset);
    assert shifted == LocalDate(year - BuddhistOffset, month, outDay);
    FormatFourDigitYear(shifted, text);
  }

  lemma ConvertSeptember()
    ensures ConvertDate("01092568") == "2025-09-01"
  {
    DateTextFields("01092568");
    IsoTextFields("2025-09-01");
    ConvertKnownDate("01092568", "2025-09-01", 2568, 9, 1, 1);
  }

  lemma ConvertMay()
    ensures ConvertDate("01052569") == "2026-05-01"
  {
    DateTextFields("01052569");
    IsoTextFields("2026-05-01");
    ConvertKnownDate("01052569", "2026-05-01", 2569, 5, 1, 1);
  }

  lemma ConvertMarch()
    ensures ConvertDate("01032569") == "2026-03-01"
  {
    DateTextFields("01032569");
    IsoTextFields("2026-03-01");
    ConvertKnownDate("01032569", "2026-03-01", 2569, 3, 1, 1);
  }

  /** The expiry dates of the test scenario. */
  lemma ScenarioDates()
    ensures ConvertDate("01092568") == "2025-09-01"
    ensures ConvertDate("01052569") == "2026-05-01"
    ensures ConvertDate("01032569") == "2026-03-01"
  {
    ConvertSeptember();
    ConvertMay();
    ConvertMarch();
  }

  /** A day past the end of its month is moved back to the month's last day rather than refused. */
  lemma ConvertThirtyFirstOfApril()
    ensures ConvertDate("31042568") == "2025-04-30"
  {
    DateTextFields("31042568");
    IsoTextFields("2025-04-30");
    ConvertKnownDate("31042568", "2025-04-30", 2568, 4, 31, 30);
  }

  /**
    29 February of a Buddhist year is checked against the leap-year rule on
    the Buddhist year number: 2567 is not leap by that rule, so the day
    becomes the 28th, although the Christian year 2024 is leap.
   */
  lemma ConvertLeapDayOf2567()
    ensures ConvertDate("29022567") == "2024-02-28"
  {
    DateTextFields("29022567");
    IsoTextFields("2024-02-28");
    ConvertKnownDate("29022567", "2024-02-28", 2567, 2, 29, 28);
  }

  /**
    29 February of the Buddhist leap year 2568 survives parsing, and
    `minusYears` moves it to the 28th because 2025 is not leap.
   */
  lemma ConvertLeapDayOf2568()
    ensures ConvertDate("29022568") == "2025-02-28"
  {
    DateTextFields("29022568");
    IsoTextFields("2025-02-28");
    ConvertKnownDate("29022568", "2025-02-28", 2568, 2, 29, 28);
  }

  /** An eight-digit text with a day outside 1..31, a month outside 1..12 or year 0 is refused. */
  lemma FieldOutOfRangeFalls(s: string)
    requires |s| == 8 && AllDigits(s)
    requires var day, month := DigitsValue(s[..2]), DigitsValue(s[2..4]);
      day < 1 || day > 31 || month < 1 || month > 12 || DigitsValue(s[4..]) == 0
    ensures ConvertDate(s) == s
  {
    assert s[..4][..2] == s[..2] && s[..4][2..4] == s[2..4];
    assert |s[4..]| == 4 && AllDigits(s[4..]);
  }

  lemma DayAboveRangeFalls()
    ensures ConvertDate("32012568") == "32012568"
  {
    DateTextFields("32012568");
    FieldOutOfRangeFalls("32012568");
  }

  lemma DayZeroFalls()
    ensures ConvertDate("00012568") == "00012568"
  {
    DateTextFields("00012568");
    FieldOutOfRangeFalls("00012568");
  }

  lemma MonthOutOfRangeFalls()
    ensures ConvertDate("01132568") == "01132568"
  {
    DateTextFields("01132568");
    FieldOutOfRangeFalls("01132568");
  }

  lemma YearZeroFalls()
    ensures ConvertDate("01010000") == "01010000"
  {
    DateTextFields("01010000");
    FieldOutOfRangeFalls("01010000");
  }

  lemma ShortYearFalls()
    ensures ConvertDate("0109256") == "0109256"
  {
    assert |"0109256"[4..]| == 3;
  }

  lemma LettersFall()
    ensures ConvertDate("not-a-date") == "not-a-date"
  {
    assert !IsDigit("not-a-date"[..4][3]);
  }

  lemma EmptyFalls()
    ensures ConvertDate("") == ""
  {
  }

  lemma ShortOrNonDigitFalls()
    ensures ConvertDate("0109256") == "0109256"
    ensures ConvertDate("not-a-date") == "not-a-date"
    ensures ConvertDate("") == ""
  {
    ShortYearFalls();
    LettersFall();
    EmptyFalls();
  }

  /** Texts the parser refuses come back unchanged. */
  lemma ConvertDateFallbacks()
    ensures ConvertDate("32012568") == "32012568"
    ensures ConvertDate("00012568") == "00012568"
    ensures ConvertDate("01132568") == "01132568"
    ensures ConvertDate("01010000") == "01010000"
    ensures ConvertDate("0109256") == "0109256"
    ensures ConvertDate("not-a-date") == "not-a-date"
    ensures ConvertDate("") == ""
  {
    DayAboveRangeFalls();
    DayZeroFalls();
    MonthOutOfRangeFalls();
    YearZeroFalls();
    ShortOrNonDigitFalls();
  }
}
