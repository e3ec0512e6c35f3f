/** The date handling of the aggregation: the part of `publishedAt` before
    the first "T", parsed with `datetime.strptime(text, "%Y-%m-%d")`, and
    the three period keys written back with `str(year)`, `"%Y-%m"` and
    `"%Y-%m-%d"`.

    `strptime` translates the format into a regular expression, takes the
    first match at the start of the text (alternatives tried left to
    right, with backtracking), refuses a match that does not reach the end
    of the text, and then refuses a calendar date that does not exist. The
    directives match: `%Y` four digits; `%m` one of `1[0-2]`, `0[1-9]`,
    `[1-9]`; `%d` one of `3[01]`, `[12][0-9]`, `0[1-9]`, `[1-9]`, ` [1-9]`. */
module Dates {
  import opened Results
  import opened Clock

  datatype Date = Date(year: int, month: int, day: int)

  /** A date `datetime` accepts, within what four digits can write. */
  predicate ValidDate(d: Date) {
    1 <= d.year <= 9999 && 1 <= d.month <= 12 && 1 <= d.day <= DaysInMonth(d.year, d.month)
  }

  /** `text.split("T")[0]`: everything before the first "T". */
  function DatePart(text: string): (r: string)
    ensures r <= text
    ensures 'T' !in r
    ensures |r| < |text| ==> text[|r|] == 'T'
  {
    if text == [] || text[0] == 'T' then [] else [text[0]] + DatePart(text[1..])
  }

  predicate IsDigit(c: char) {
    '0' <= c <= '9'
  }

  function Digit(c: char): int {
    c as int - '0' as int
  }

  function DigitChar(n: int): (c: char)
    requires 0 <= n <= 9
    ensures IsDigit(c) && Digit(c) == n
  {
    ('0' as int + n) as char
  }

  // ---------------------------------------------------------------------
  // The regular expression

  /** A match of one directive: the number it denotes and where it ends. */
  datatype Piece = Piece(value: int, end: int)

  /** `\d\d\d\d` at the start of the text. */
  function MatchYear(s: string): Option<Piece> {
    if |s| >= 4 && IsDigit(s[0]) && IsDigit(s[1]) && IsDigit(s[2]) && IsDigit(s[3])
    then Some(Piece(1000 * Digit(s[0]) + 100 * Digit(s[1]) + 10 * Digit(s[2]) + Digit(s[3]), 4))
    else None
  }

  /** Every way `%m` can match at `p`, in the order the alternatives are
      tried. */
  function MonthCandidates(s: string, p: nat): seq<Piece> {
    (if p + 1 < |s| && s[p] == '1' && '0' <= s[p + 1] <= '2' then [Piece(10 + Digit(s[p + 1]), p + 2)] else [])
    + (if p + 1 < |s| && s[p] == '0' && '1' <= s[p + 1] <= '9' then [Piece(Digit(s[p + 1]), p + 2)] else [])
    + (if p < |s| && '1' <= s[p] <= '9' then [Piece(Digit(s[p]), p + 1)] else [])
  }

  /** The first alternative of `%d` that matches at `q`; nothing follows it
      in the pattern, so the first one wins. */
  function MatchDay(s: string, q: nat): (r: Option<Piece>)
    ensures r.Some? ==> 1 <= r.value.value <= 31 && q + 1 <= r.value.end <= q + 2 && r.value.end <= |s|
  {
    if q + 1 < |s| && s[q] == '3' && (s[q + 1] == '0' || s[q + 1] == '1') then Some(Piece(30 + Digit(s[q + 1]), q + 2))
    else if q + 1 < |s| && (s[q] == '1' || s[q] == '2') && IsDigit(s[q + 1]) then Some(Piece(10 * Digit(s[q]) + Digit(s[q + 1]), q + 2))
    else if q + 1 < |s| && s[q] == '0' && '1' <= s[q + 1] <= '9' then Some(Piece(Digit(s[q + 1]), q + 2))
    else if q < |s| && '1' <= s[q] <= '9' then Some(Piece(Digit(s[q]), q + 1))
    else if q + 1 < |s| && s[q] == ' ' && '1' <= s[q + 1] <= '9' then Some(Piece(Digit(s[q + 1]), q + 2))
    else None
  }

  /** The match of `-%d` after a month candidate ending at `p`. */
  function MatchDashDay(s: string, p: int): Option<Piece> {
    if 0 <= p < |s| && s[p] == '-' then MatchDay(s, p + 1) else None
  }

  /** Backtracking over the month candidates: the first one after which
      `-%d` matches. */
  function MatchMonthDay(s: string, months: seq<Piece>): Option<(int, Piece)> {
    if months == [] then None
    else
      match MatchDashDay(s, months[0].end)
      case Some(day) => Some((months[0].value, day))
      case None => MatchMonthDay(s, months[1..])
  }

  /** `format_regex.match(text)`: the date the groups denote and where the
      match ends. */
  function MatchDate(s: string): Option<(Date, int)> {
    match MatchYear(s)
    case None => None
    case Some(y) =>
      if |s| > 4 && s[4] == '-' then
        match MatchMonthDay(s, MonthCandidates(s, 5))
        case None => None
        case Some((m, day)) => Some((Date(y.value, m, day.value), day.end))
      else None
  }

  /** `datetime.strptime(text, "%Y-%m-%d")`: no match, a match that leaves
      text over, and a date the calendar does not have all raise
      `ValueError`. */
  function ParseDate(s: string): (r: Result<Date>)
    ensures r.Ok? ==> ValidDate(r.value) && 8 <= |s| <= 10
    ensures r.Err? ==> r.error == BadDate(s)
  {
    match MatchDate(s)
    case None => Err(BadDate(s))
    case Some((d, end)) =>
      MatchDateShape(s);
      if end != |s| || !(1 <= d.year && DaysInMonth(d.year, d.month) >= d.day) then Err(BadDate(s))
      else Ok(d)
  }

  /** What any match looks like: a year of four digits, a month in 1..12,
      a day in 1..31, and an end 8 to 10 characters in. */
  lemma {:induction false} MatchMonthDayShape(s: string, months: seq<Piece>)
    requires forall i :: 0 <= i < |months| ==> 1 <= months[i].value <= 12 && 6 <= months[i].end <= 7
    ensures var r := MatchMonthDay(s, months);
      r.Some? ==> 1 <= r.value.0 <= 12 && 1 <= r.value.1.value <= 31 && 8 <= r.value.1.end <= 10 && r.value.1.end <= |s|
    decreases |months|
  {
    if months != [] {
      MatchMonthDayShape(s, months[1..]);
    }
  }

  lemma MatchDateShape(s: string)
    ensures var r := MatchDate(s);
      r.Some? ==> && 0 <= r.value.0.year <= 9999 && 1 <= r.value.0.month <= 12
                  && 1 <= r.value.0.day <= 31 && 8 <= r.value.1 <= 10 && r.value.1 <= |s|
  {
    if |s| > 4 {
      MatchMonthDayShape(s, MonthCandidates(s, 5));
    }
  }

  // ---------------------------------------------------------------------
  // Writing dates back

  /** Two digits, zero-padded: `%m` and `%d` of `strftime`. */
  function Pad2(n: int): (r: string)
    requires 0 <= n <= 99
    ensures |r| == 2
  {
    [DigitChar(n / 10), DigitChar(n % 10)]
  }

  /** Four digits, zero-padded: `%Y` of `strftime`. */
  function Pad4(n: int): (r: string)
    requires 0 <= n <= 9999
    ensures |r| == 4
  {
    Pad2(n / 100) + Pad2(n % 100)
  }

  /** `str(n)` of a positive number. */
  function Decimal(n: nat): (r: string)
    ensures r != []
    ensures forall i :: 0 <= i < |r| ==> IsDigit(r[i])
  {
    if n < 10 then [DigitChar(n)] else Decimal(n / 10) + [DigitChar(n % 10)]
  }

  /** The `"year"` key: `str(pub_dt.year)`. */
  function YearKey(d: Date): string
    requires ValidDate(d)
  {
    Decimal(d.year)
  }

  /** The `"month"` key: `pub_dt.strftime("%Y-%m")`. */
  function MonthKey(d: Date): string
    requires ValidDate(d)
  {
    Pad4(d.year) + "-" + Pad2(d.month)
  }

  /** The `"date"` key: `pub_dt.strftime("%Y-%m-%d")`. */
  function DateKey(d: Date): (r: string)
    requires ValidDate(d)
    ensures |r| == 10
  {
    MonthKey(d) + "-" + Pad2(d.day)
  }

  // ---------------------------------------------------------------------
  // Properties

  lemma Pad2Reads(n: int)
    requires 0 <= n <= 99
    ensures 10 * Digit(Pad2(n)[0]) + Digit(Pad2(n)[1]) == n
  {
  }

  /** Every valid date, written as its date key, parses back to itself. */
  lemma ParseDateKey(d: Date)
    requires ValidDate(d)
    ensures ParseDate(DateKey(d)) == Ok(d)
  {
    var s := DateKey(d);
    var y := Pad4(d.year);
    assert s == Pad2(d.year / 100) + Pad2(d.year % 100) + "-" + Pad2(d.month) + "-" + Pad2(d.day);
    Pad2Reads(d.year / 100);
    Pad2Reads(d.year % 100);
    Pad2Reads(d.month);
    Pad2Reads(d.day);
    assert MatchYear(s) == Some(Piece(d.year, 4));
    var months := MonthCandidates(s, 5);
    assert months[0] == Piece(d.month, 7);
    assert MatchDay(s, 8) == Some(Piece(d.day, 10));
    assert MatchMonthDay(s, months) == Some((d.month, Piece(d.day, 10)));
  }

  /** Distinct dates have distinct date keys. */
  lemma DateKeyInjective(d: Date, e: Date)
    requires ValidDate(d) && ValidDate(e) && DateKey(d) == DateKey(e)
    ensures d == e
  {
    ParseDateKey(d);
    ParseDateKey(e);
  }

  /** The month key is the first seven characters of the date key, and for
      a year of four digits the year key is the first four. */
  lemma KeysArePrefixes(d: Date)
    requires ValidDate(d)
    ensures MonthKey(d) == DateKey(d)[..7]
    ensures d.year >= 1000 ==> YearKey(d) == DateKey(d)[..4]
  {
    var s := DateKey(d);
    assert s == MonthKey(d) + ("-" + Pad2(d.day));
    if d.year >= 1000 {
      DecimalFourDigits(d.year);
      assert s == Pad4(d.year) + ("-" + Pad2(d.month) + "-" + Pad2(d.day));
    }
  }

  lemma DecimalFourDigits(n: nat)
    requires 1000 <= n <= 9999
    ensures Decimal(n) == Pad4(n)
  {
    DecimalThreeDigits(n / 10);
    DropLastDigit(n);
  }

  lemma DecimalThreeDigits(n: nat)
    requires 100 <= n <= 999
    ensures Decimal(n) == Pad2(n / 10) + [DigitChar(n % 10)]
  {
    var q := n / 10;
    assert Decimal(q) == Decimal(q / 10) + [DigitChar(q % 10)];
  }

  /** Dropping the last decimal digit and splitting off the last two
      agree on the digits in between. */
  lemma DropLastDigit(n: nat)
    ensures (n / 10) / 10 == n / 100
    ensures (n / 10) % 10 == (n % 100) / 10
    ensures n % 10 == (n % 100) % 10
  {
    var q, m := n / 100, n % 100;
    var a, b := m / 10, m % 10;
    assert n == 100 * q + 10 * a + b;
    assert n / 10 == 10 * q + a;
  }

  lemma DigitsArePad2(a: char, b: char)
    requires IsDigit(a) && IsDigit(b)
    ensures Pad2(10 * Digit(a) + Digit(b)) == [a, b]
  {
  }

  lemma DigitsArePad4(s: string)
    requires |s| == 4 && IsDigit(s[0]) && IsDigit(s[1]) && IsDigit(s[2]) && IsDigit(s[3])
    ensures Pad4(1000 * Digit(s[0]) + 100 * Digit(s[1]) + 10 * Digit(s[2]) + Digit(s[3])) == s
  {
    var hi := 10 * Digit(s[0]) + Digit(s[1]);
    var lo := 10 * Digit(s[2]) + Digit(s[3]);
    var n := 1000 * Digit(s[0]) + 100 * Digit(s[1]) + 10 * Digit(s[2]) + Digit(s[3]);
    assert n == 100 * hi + lo;
    assert n / 100 == hi && n % 100 == lo;
    DigitsArePad2(s[0], s[1]);
    DigitsArePad2(s[2], s[3]);
  }

  /** In a match that spans ten characters the month took two digits and
      the day two characters. */
  lemma TenCharacterMatch(s: string)
    requires |s| == 10
    requires MatchDate(s).Some? && MatchDate(s).value.1 == 10
    ensures var d := MatchDate(s).value.0;
      && 1 <= d.month <= 12 && s[5..7] == Pad2(d.month) && s[7] == '-'
      && (s[8] != ' ' ==> 1 <= d.day <= 31 && s[8..] == Pad2(d.day))
  {
    var m, day := ChosenPieces(s);
    MonthPieceDigits(s, m);
    if s[8] != ' ' {
      DayPieceDigits(s, day);
    }
  }

  /** The month and day pieces of a ten-character match: the month ends
      at 7, a dash follows, and the day runs from 8 to the end. */
  lemma ChosenPieces(s: string) returns (m: Piece, day: Piece)
    requires |s| == 10
    requires MatchDate(s).Some? && MatchDate(s).value.1 == 10
    ensures m in MonthCandidates(s, 5) && m.end == 7 && s[7] == '-'
    ensures MatchDay(s, 8) == Some(day) && day.end == 10
    ensures MatchDate(s).value.0.month == m.value && MatchDate(s).value.0.day == day.value
  {
    var months := MonthCandidates(s, 5);
    var r := MatchMonthDay(s, months).value;
    assert forall k :: 0 <= k < |months| ==> 6 <= months[k].end <= 7;
    MatchMonthDayPicks(s, months);
    var i :| 0 <= i < |months| && MatchDashDay(s, months[i].end) == Some(r.1) && months[i].value == r.0;
    m, day := months[i], r.1;
    assert MatchDashDay(s, m.end) == Some(day);
    assert 0 <= m.end < |s| && s[m.end] == '-';
    assert MatchDay(s, m.end + 1) == Some(day);
  }

  /** A two-character month candidate is the zero-padded month. */
  lemma MonthPieceDigits(s: string, m: Piece)
    requires m in MonthCandidates(s, 5) && m.end == 7
    ensures 1 <= m.value <= 12 && s[5..7] == Pad2(m.value)
  {
    assert s[5..7] == [s[5], s[6]];
    DigitsArePad2(s[5], s[6]);
  }

  /** A two-character day match that does not start with a space is the
      zero-padded day. */
  lemma DayPieceDigits(s: string, day: Piece)
    requires |s| == 10 && MatchDay(s, 8) == Some(day) && day.end == 10 && s[8] != ' '
    ensures 1 <= day.value <= 31 && s[8..] == Pad2(day.value)
  {
    assert s[8..] == [s[8], s[9]];
    DigitsArePad2(s[8], s[9]);
  }

  lemma {:induction false} MatchMonthDayPicks(s: string, months: seq<Piece>)
    requires MatchMonthDay(s, months).Some?
    ensures var r := MatchMonthDay(s, months).value;
      exists i :: 0 <= i < |months| && MatchDashDay(s, months[i].end) == Some(r.1) && months[i].value == r.0
    decreases |months|
  {
    if MatchDashDay(s, months[0].end).None? {
      MatchMonthDayPicks(s, months[1..]);
      var r := MatchMonthDay(s, months).value;
      var i :| 0 <= i < |months[1..]| && MatchDashDay(s, months[1..][i].end) == Some(r.1) && months[1..][i].value == r.0;
      assert months[i + 1] == months[1..][i];
    }
  }

  /** A zero-padded "YYYY-MM-DD" text is its own date key. */
  lemma PaddedTextIsDateKey(s: string, d: Date)
    requires ParseDate(s) == Ok(d) && |s| == 10 && s[8] != ' '
    ensures DateKey(d) == s
  {
    MatchDateShape(s);
    TenCharacterMatch(s);
    YearPieceDigits(s);
    assert d == MatchDate(s).value.0;
    assert DateKey(d) == Pad4(d.year) + "-" + Pad2(d.month) + "-" + Pad2(d.day);
    assert s == s[..4] + "-" + s[5..7] + "-" + s[8..] by {
      assert s[4] == '-' && s[7] == '-';
    }
  }

  /** The four year digits are the zero-padded year. */
  lemma YearPieceDigits(s: string)
    requires MatchYear(s).Some?
    ensures MatchYear(s).value.value <= 9999 && Pad4(MatchYear(s).value.value) == s[..4]
  {
    var t := s[..4];
    assert t[0] == s[0] && t[1] == s[1] && t[2] == s[2] && t[3] == s[3];
    DigitsArePad4(t);
  }

  /** `strptime` accepts unpadded and space-padded fields and the leap
      day of a leap year. */
  lemma ParseDateAccepts()
    ensures ParseDate("2023-1-5") == Ok(Date(2023, 1, 5))
    ensures ParseDate("2023-11- 5") == Ok(Date(2023, 11, 5))
    ensures ParseDate("2024-02-29") == Ok(Date(2024, 2, 29))
  {
    assert MonthCandidates("2023-1-5", 5) == [Piece(1, 6)];
    assert MonthCandidates("2023-11- 5", 5) == [Piece(11, 7), Piece(1, 6)];
    assert MonthCandidates("2024-02-29", 5) == [Piece(2, 7)];
  }

  /** `strptime` refuses a day the month does not have, a month past 12,
      text after the day, and the year 0. */
  lemma ParseDateRejects()
    ensures ParseDate("2023-02-29").Err?
    ensures ParseDate("2023-13-01").Err?
    ensures ParseDate("2023-01-011").Err?
    ensures ParseDate("0000-01-01").Err?
  {
    assert MonthCandidates("2023-02-29", 5) == [Piece(2, 7)];
    assert MonthCandidates("2023-13-01", 5) == [Piece(1, 6)];
    assert MonthCandidates("2023-01-011", 5) == [Piece(1, 7)];
    assert MonthCandidates("0000-01-01", 5) == [Piece(1, 7)];
  }
}
