/**
 The daily listing command: `/sum [YYYY-MM-DD]` of both newer bots and the
 single-file bot's `on_summary`. The argument is checked (by a regular
 expression in the newer bots, by `datetime.strptime` in the single-file
 one), today's date stands in when it is missing, and the rows of that date
 are listed in ascending sent_at.

 Today's date is a parameter; the clock and time zone are not modelled.
 */
module SumCommand {
  import opened Basics
  import opened Text
  import opened Messages
  import opened Store
  import opened Queries
  import Templates
  import Resolver
  import Dialog
  import AiogramDialog

  /** The index of the first whitespace character of s, or |s| if none. */
  function FirstSpace(s: string): (i: nat)
    ensures i <= |s|
    ensures i < |s| ==> IsSpace(s[i])
    ensures forall j | 0 <= j < i :: !IsSpace(s[j])
  {
    if s == [] then 0
    else if IsSpace(s[0]) then 0
    else 1 + FirstSpace(s[1..])
  }

  /** The index of the first occurrence of c in s, or |s| if none. */
  function IndexOf(s: string, c: char): (i: nat)
    ensures i <= |s|
    ensures i < |s| ==> s[i] == c
    ensures forall j | 0 <= j < i :: s[j] != c
  {
    if s == [] then 0
    else if s[0] == c then 0
    else 1 + IndexOf(s[1..], c)
  }

  /** The index of the first non-whitespace character of s, or |s| if
      none. */
  function FirstNonSpace(s: string): (i: nat)
    ensures i <= |s|
    ensures i < |s| ==> !IsSpace(s[i])
    ensures forall j | 0 <= j < i :: IsSpace(s[j])
  {
    if s == [] then 0
    else if !IsSpace(s[0]) then 0
    else 1 + FirstNonSpace(s[1..])
  }

  /** `split(maxsplit=1)` of t cuts at k: t[..k] is a word followed by a
      single whitespace run that ends just before the non-space t[k]. */
  predicate SplitsAt(t: string, k: nat) {
    && 0 < k < |t|
    && IsSpace(t[k - 1]) && !IsSpace(t[k])
    && forall j | 0 <= j < k && IsSpace(t[j]) :: AllSpace(t[j..k])
  }

  /** There is at most one such cut. */
  lemma SplitPointUnique(t: string, k1: nat, k2: nat)
    requires SplitsAt(t, k1) && SplitsAt(t, k2)
    ensures k1 == k2
  {
  }

  /** Everything after the first whitespace run of a stripped text, when
      it has one. */
  function AfterFirstSpace(t: string): (r: Option<string>)
    requires Trimmed(t)
    ensures r.None? <==> forall j | 0 <= j < |t| :: !IsSpace(t[j])
    ensures r.Some? ==> r.value != [] && Trimmed(r.value)
    ensures r.Some? ==> exists k: nat :: SplitsAt(t, k) && r.value == t[k..]
  {
    var i := FirstSpace(t);
    if i == |t| then None
    else
      var k := i + FirstNonSpace(t[i..]);
      assert k < |t| by {
        if k == |t| {
          assert t[i..][|t| - 1 - i] == t[|t| - 1];
        }
      }
      CutAfterFirstWord(t, i, k);
      Some(t[k..])
  }

  /** The first whitespace run starts at the first space i and ends before
      the first non-space after it. */
  lemma CutAfterFirstWord(t: string, i: nat, k: nat)
    requires i == FirstSpace(t) < |t|
    requires k == i + FirstNonSpace(t[i..]) < |t|
    ensures SplitsAt(t, k)
  {
    assert k > i;
    assert t[i..][k - 1 - i] == t[k - 1];
    assert t[i..][k - i] == t[k];
    forall j | 0 <= j < k && IsSpace(t[j]) ensures AllSpace(t[j..k]) {
      assert j >= i;
      forall m | 0 <= m < k - j ensures IsSpace(t[j..k][m]) {
        assert t[j..k][m] == t[i..][j - i + m];
      }
    }
  }

  /** `parts[1]` of `text.strip().split(maxsplit=1)` when there are two
      parts: what follows the cut after the first word. */
  function Argument(text: string): (r: Option<string>)
    ensures r.None? <==> forall j | 0 <= j < |Strip(text)| :: !IsSpace(Strip(text)[j])
    ensures r.Some? ==> r.value != [] && Trimmed(r.value)
    ensures r.Some? ==> exists k: nat :: SplitsAt(Strip(text), k) && r.value == Strip(text)[k..]
  {
    AfterFirstSpace(Strip(text))
  }

  /** s has no whitespace character. */
  predicate NoSpace(s: string) {
    forall j | 0 <= j < |s| :: !IsSpace(s[j])
  }

  /** A command word followed by one whitespace character and an argument
      that is itself free of whitespace yields that argument. */
  lemma ArgumentOfCommand(command: string, sep: char, arg: string)
    requires command != [] && NoSpace(command)
    requires IsSpace(sep)
    requires arg != [] && NoSpace(arg)
    ensures Argument(command + [sep] + arg) == Some(arg)
  {
    var t := command + [sep] + arg;
    assert Trimmed(t) by {
      assert t[0] == command[0];
      assert t[|t| - 1] == arg[|arg| - 1];
    }
    TrimmedStripsToItself(t);
    SplitAtSeparator(command, sep, arg);
  }

  lemma SplitAtSeparator(command: string, sep: char, arg: string)
    requires command != [] && NoSpace(command)
    requires IsSpace(sep)
    requires arg != [] && NoSpace(arg)
    requires Trimmed(command + [sep] + arg)
    ensures AfterFirstSpace(command + [sep] + arg) == Some(arg)
  {
    var t := command + [sep] + arg;
    var n := |command|;
    assert FirstSpace(t) == n by {
      assert t[n] == sep;
      forall j | 0 <= j < n ensures !IsSpace(t[j]) {
        assert t[j] == command[j];
      }
    }
    assert FirstNonSpace(t[n..]) == 1 by {
      assert t[n..][0] == sep && t[n..][1] == arg[0];
    }
    assert t[n + 1..] == arg;
  }

  // ---------------------------------------------------------------------
  // The newer bots' check: re.match(r"^\d{4}-\d{2}-\d{2}$", date_str)
  // ---------------------------------------------------------------------

  /** Four digits, '-', two digits, '-', two digits. */
  predicate DateShaped(s: string) {
    && |s| == 10
    && AllDigits(s[..4]) && s[4] == '-'
    && AllDigits(s[5..7]) && s[7] == '-'
    && AllDigits(s[8..])
  }

  /** The regular expression, whose `$` also matches just before a final
      newline. */
  predicate MatchesDatePattern(s: string) {
    DateShaped(s) || (|s| == 11 && s[10] == '\n' && DateShaped(s[..10]))
  }

  // ---------------------------------------------------------------------
  // The single-file bot's check: datetime.strptime(date_str, "%Y-%m-%d")
  // ---------------------------------------------------------------------

  datatype Date = Date(year: nat, month: nat, day: nat)

  predicate LeapYear(y: nat) {
    y % 4 == 0 && (y % 100 != 0 || y % 400 == 0)
  }

  /** Days in a month of the proleptic Gregorian calendar. */
  function DaysIn(year: nat, month: nat): (n: nat)
    requires 1 <= month <= 12
    ensures 28 <= n <= 31
    ensures month == 2 ==> (n == 29 <==> LeapYear(year))
  {
    if month == 2 then (if LeapYear(year) then 29 else 28)
    else if month in {4, 6, 9, 11} then 30
    else 31
  }

  /** What `datetime.date` accepts. */
  predicate ValidDate(d: Date) {
    1 <= d.year <= 9999 && 1 <= d.month <= 12 && 1 <= d.day <= DaysIn(d.year, d.month)
  }

  predicate NonZeroDigit(c: char) {
    '1' <= c <= '9'
  }

  /** The value of a two-digit string. */
  lemma TwoDigits(s: string)
    requires |s| == 2 && AllDigits(s)
    ensures DecimalValue(s) == 10 * DigitValue(s[0]) + DigitValue(s[1])
  {
    var a := s[..1];
    assert AllDigits(a) && a[0] == s[0];
    assert DecimalValue(s) == DecimalValue(a) * 10 + DigitValue(s[1]);
    assert a[..0] == [];
    assert DecimalValue(a) == DecimalValue(a[..0]) * 10 + DigitValue(a[0]);
  }

  /** The value of a four-digit string. */
  lemma FourDigits(s: string)
    requires |s| == 4 && AllDigits(s)
    ensures DecimalValue(s) == 1000 * DigitValue(s[0]) + 100 * DigitValue(s[1]) + 10 * DigitValue(s[2]) + DigitValue(s[3])
    ensures DecimalValue(s) <= 9999
  {
    assert s[..3][..2] == s[..2];
    TwoDigits(s[..2]);
  }

  /** The whole token matched by `%m`, i.e. `1[0-2]|0[1-9]|[1-9]` followed by
      the '-': the token runs up to that '-'. */
  function MonthToken(s: string): (r: Option<nat>)
    ensures r.Some? ==> |s| in {1, 2} && AllDigits(s) && r.value == DecimalValue(s) && 1 <= r.value <= 12
    ensures |s| == 1 && NonZeroDigit(s[0]) ==> r.Some?
    ensures |s| == 2 && AllDigits(s) && 1 <= DecimalValue(s) <= 12 ==> r.Some?
  {
    if |s| == 1 && NonZeroDigit(s[0]) then
      assert s[..0] == [];
      Some(DigitValue(s[0]))
    else if |s| == 2 && AllDigits(s) then
      TwoDigits(s);
      if s[0] == '0' && NonZeroDigit(s[1]) then Some(DigitValue(s[1]))
      else if s[0] == '1' && '0' <= s[1] <= '2' then Some(10 + DigitValue(s[1]))
      else None
    else None
  }

  /** The rest of the string as `%d` leaves it, i.e. the first alternative of
      `3[01]|[12]\d|0[1-9]|[1-9]| [1-9]` that matches must reach the end
      (otherwise "unconverted data remains"). The value is `int()` of the
      token, which ignores the leading space. */
  function DayToken(s: string): (r: Option<nat>)
    ensures r.Some? ==> |s| in {1, 2} && 1 <= r.value <= 31
    ensures |s| == 1 ==> (r.Some? <==> NonZeroDigit(s[0]))
    ensures |s| == 1 && r.Some? ==> r.value == DigitValue(s[0])
    ensures |s| == 2 && AllDigits(s) ==> (r.Some? <==> 1 <= DecimalValue(s) <= 31)
    ensures |s| == 2 && AllDigits(s) && r.Some? ==> r.value == DecimalValue(s)
    ensures |s| == 2 && s[0] == ' ' ==> (r.Some? <==> NonZeroDigit(s[1]))
    ensures |s| == 2 && s[0] == ' ' && r.Some? ==> r.value == DigitValue(s[1])
    ensures |s| == 2 && s[0] != ' ' && !AllDigits(s) ==> r.None?
  {
    if |s| == 1 && NonZeroDigit(s[0]) then Some(DigitValue(s[0]))
    else if |s| == 2 && s[0] == ' ' && NonZeroDigit(s[1]) then Some(DigitValue(s[1]))
    else if |s| == 2 && AllDigits(s) then
      TwoDigits(s);
      if s[0] == '0' && NonZeroDigit(s[1]) then Some(DigitValue(s[1]))
      else if (s[0] == '1' || s[0] == '2') then Some(10 * DigitValue(s[0]) + DigitValue(s[1]))
      else if s[0] == '3' && (s[1] == '0' || s[1] == '1') then Some(30 + DigitValue(s[1]))
      else None
    else None
  }

  /** `datetime.strptime(s, "%Y-%m-%d")`: the date it yields, or None where
      it raises ValueError (no match, unconverted data, year 0, a day past
      the end of its month). */
  function Strptime(s: string): (r: Option<Date>)
    ensures r.Some? ==> ValidDate(r.value)
    ensures r.Some? ==> |s| >= 8 && AllDigits(s[..4]) && s[4] == '-' && r.value.year == DecimalValue(s[..4])
    ensures r.Some? <==>
      && |s| >= 5 && AllDigits(s[..4]) && s[4] == '-'
      && var j := IndexOf(s[5..], '-');
      && j < |s| - 5
      && MonthToken(s[5..][..j]).Some? && DayToken(s[5..][j + 1..]).Some?
      && ValidDate(Date(DecimalValue(s[..4]), MonthToken(s[5..][..j]).value, DayToken(s[5..][j + 1..]).value))
    ensures r.Some? ==>
      var j := IndexOf(s[5..], '-');
      r.value == Date(DecimalValue(s[..4]), MonthToken(s[5..][..j]).value, DayToken(s[5..][j + 1..]).value)
  {
    if |s| < 5 || !AllDigits(s[..4]) || s[4] != '-' then None
    else
      var rest := s[5..];
      var j := IndexOf(rest, '-');
      if j == |rest| then None
      else
        match (MonthToken(rest[..j]), DayToken(rest[j + 1..]))
        case (Some(m), Some(d)) =>
          var y := DecimalValue(s[..4]);
          FourDigits(s[..4]);
          if y >= 1 && d <= DaysIn(y, m) then Some(Date(y, m, d)) else None
        case _ => None
  }

  /** Two decimal digits of n < 100, zero-padded. */
  function Pad2(n: nat): (r: string)
    requires n < 100
    ensures |r| == 2 && AllDigits(r) && DecimalValue(r) == n
  {
    var r := [DigitChar(n / 10), DigitChar(n % 10)];
    TwoDigits(r);
    r
  }

  /** Four decimal digits of n < 10000, zero-padded. */
  function Pad4(n: nat): (r: string)
    requires n < 10000
    ensures |r| == 4 && AllDigits(r) && DecimalValue(r) == n
  {
    var r := Pad2(n / 100) + Pad2(n % 100);
    FourDigits(r);
    TwoDigits(Pad2(n / 100));
    TwoDigits(Pad2(n % 100));
    r
  }

  /** `date.isoformat()`: YYYY-MM-DD, zero-padded. */
  function IsoDate(d: Date): string
    requires d.year < 10000 && d.month < 100 && d.day < 100
  {
    Pad4(d.year) + "-" + Pad2(d.month) + "-" + Pad2(d.day)
  }

  /** Every real date written the way `date.isoformat()` writes it (the
      default date of both commands) passes both checks, and strptime reads
      it back as the same date. */
  lemma IsoDateRoundTrip(d: Date)
    requires ValidDate(d)
    ensures MatchesDatePattern(IsoDate(d))
    ensures Strptime(IsoDate(d)) == Some(d)
  {
    var s := IsoDate(d);
    var y := Pad4(d.year);
    var m := Pad2(d.month);
    var dd := Pad2(d.day);
    assert s[..4] == y;
    assert s[4] == '-';
    assert s[5..7] == m;
    assert s[7] == '-';
    assert s[8..] == dd;
    var rest := s[5..];
    assert rest == m + "-" + dd;
    assert IndexOf(rest, '-') == 2 by {
      assert rest[2] == '-';
      assert rest[0] == m[0] && rest[1] == m[1];
    }
    assert rest[..2] == m;
    assert rest[3..] == dd;
    assert MonthToken(m) == Some(d.month) by {
      assert m[..1] == [m[0]] && m[..1][..0] == [];
    }
    assert DayToken(dd) == Some(d.day) by {
      assert dd[..1] == [dd[0]] && dd[..1][..0] == [];
    }
  }

  /** The two checks disagree both ways. strptime takes an unpadded month
      and day, which the pattern refuses ... */
  lemma StrptimeTakesUnpadded()
    ensures Strptime("2024-2-5") == Some(Date(2024, 2, 5))
    ensures !MatchesDatePattern("2024-2-5")
  {
    var a := "2024-2-5";
    assert a[..4] == "2024";
    FourDigits("2024");
    assert a[5..] == "2-5";
    assert IndexOf("2-5", '-') == 1;
    assert "2-5"[..1] == "2" && "2-5"[2..] == "5";
  }

  /** February 29th of any year from 1 to 9999 is read by strptime exactly
      when the year is a leap year. */
  lemma StrptimeFebruary29(y: string)
    requires |y| == 4 && AllDigits(y) && DecimalValue(y) >= 1
    ensures LeapYear(DecimalValue(y)) ==> Strptime(y + "-02-29") == Some(Date(DecimalValue(y), 2, 29))
    ensures !LeapYear(DecimalValue(y)) ==> Strptime(y + "-02-29") == None
  {
    var s := y + "-02-29";
    assert s[..4] == y && s[4] == '-' && s[5..] == "02-29";
    var rest := "02-29";
    assert IndexOf(rest, '-') == 2;
    assert rest[..2] == "02" && rest[3..] == "29";
    TwoDigits("02");
    TwoDigits("29");
    assert MonthToken("02") == Some(2);
    assert DayToken("29") == Some(29);
  }

  /** ... and the pattern takes a day that does not exist, which strptime
      refuses: February 29th of every year that is not a leap year. */
  lemma PatternTakesMissingDay(y: string)
    requires |y| == 4 && AllDigits(y) && DecimalValue(y) >= 1
    requires !LeapYear(DecimalValue(y))
    ensures MatchesDatePattern(y + "-02-29")
    ensures Strptime(y + "-02-29") == None
  {
    var s := y + "-02-29";
    assert s[..4] == y && s[5..7] == "02" && s[8..] == "29";
    StrptimeFebruary29(y);
  }

  // ---------------------------------------------------------------------
  // The listings
  // ---------------------------------------------------------------------

  /** `if note:`: a missing and an empty note are both left out. */
  predicate HasNote(row: DatedRow) {
    row.note.Some? && row.note.value != []
  }

  /** The lines of the newer listing: one line per row, followed by a note
      line when the row has a non-empty note. */
  function ListingLines(rows: seq<DatedRow>): (lines: seq<string>)
    ensures rows == [] <==> lines == []
    ensures rows != [] ==> lines[0] == Templates.DateLine(rows[0].sentAt, rows[0].id, rows[0].summarized)
  {
    if rows == [] then []
    else
      var r := rows[0];
      [Templates.DateLine(r.sentAt, r.id, r.summarized)]
      + (if HasNote(r) then [Templates.NoteLine(r.note.value)] else [])
      + ListingLines(rows[1..])
  }

  /** How many rows carry a note line. */
  function Noted(rows: seq<DatedRow>): nat {
    if rows == [] then 0 else (if HasNote(rows[0]) then 1 else 0) + Noted(rows[1..])
  }

  /** The listing has one line per row plus one per non-empty note. */
  lemma {:induction false} ListingLength(rows: seq<DatedRow>)
    ensures |ListingLines(rows)| == |rows| + Noted(rows)
    ensures Noted(rows) <= |rows|
  {
    if rows != [] {
      ListingLength(rows[1..]);
    }
  }

  /** Rows without notes list as exactly one line each, in order. */
  lemma {:induction false} NoNotesOneLineEach(rows: seq<DatedRow>)
    requires forall i | 0 <= i < |rows| :: !HasNote(rows[i])
    ensures |ListingLines(rows)| == |rows|
    ensures forall i | 0 <= i < |rows| ::
      ListingLines(rows)[i] == Templates.DateLine(rows[i].sentAt, rows[i].id, rows[i].summarized)
  {
    if rows != [] {
      NoNotesOneLineEach(rows[1..]);
      var tail := ListingLines(rows[1..]);
      assert ListingLines(rows) == [Templates.DateLine(rows[0].sentAt, rows[0].id, rows[0].summarized)] + tail;
    }
  }

  /** What `/sum` answers. */
  datatype SumReply =
    | DateFormatError       // "wrong date format, use YYYY-MM-DD"
    | NoSummaries(text: string)
    | Listing(text: string)

  /** `on_sum_command` of both newer bots, given the argument as the bot
      extracts it (`command.args` in the aiogram bot, `Argument(text)` in the
      python-telegram-bot one). A missing or empty argument means today.
      Also returns the rows it listed. */
  method OnSum(db: Db, arg: Option<string>, today: string) returns (reply: SumReply, rows: seq<DatedRow>)
    ensures reply.DateFormatError? <==> arg.Some? && arg.value != [] && !MatchesDatePattern(arg.value)
    ensures reply.DateFormatError? ==> rows == []
    ensures !reply.DateFormatError? ==>
      var date := if arg.Some? && arg.value != [] then arg.value else today;
      && (forall i | 0 <= i < |rows| ::
            rows[i].id in db.rows && OnDate(db.rows[rows[i].id], date)
            && rows[i] == DatedRow(rows[i].id, db.rows[rows[i].id].sentAt, db.rows[rows[i].id].summarized, db.rows[rows[i].id].note))
      && (forall id | id in db.rows && OnDate(db.rows[id], date) :: exists i | 0 <= i < |rows| :: rows[i].id == id)
      && (forall i, j | 0 <= i < j < |rows| :: rows[i].id != rows[j].id && LexLe(rows[i].sentAt, rows[j].sentAt))
      && (reply.NoSummaries? <==> forall id | id in db.rows :: !OnDate(db.rows[id], date))
      && (reply.NoSummaries? ==> reply.text == Templates.NoSummariesFor(date))
      && (reply.Listing? ==> reply.text == Join(ListingLines(rows), "\n\n"))
  {
    var date := today;
    if arg.Some? && arg.value != [] {
      if !MatchesDatePattern(arg.value) {
        return DateFormatError, [];
      }
      date := arg.value;
    }
    rows := FetchSummariesByDate(db, date);
    if rows == [] {
      reply := NoSummaries(Templates.NoSummariesFor(date));
    } else {
      reply := Listing(Join(ListingLines(rows), "\n\n"));
      assert rows[0].id in db.rows && OnDate(db.rows[rows[0].id], date);
    }
  }

  /** The single-file bot's listing lines. */
  function LegacyLines(rows: seq<LegacyRow>): (lines: seq<string>)
    ensures |lines| == |rows|
    ensures forall i | 0 <= i < |rows| ::
      lines[i] == Templates.LegacyDateLine(rows[i].sentAt, rows[i].fileId, rows[i].summarized)
  {
    if rows == [] then []
    else [Templates.LegacyDateLine(rows[0].sentAt, rows[0].fileId, rows[0].summarized)] + LegacyLines(rows[1..])
  }

  /** The single-file bot's `on_summary`: the argument of the stripped text
      must be a real date as strptime reads it; lines are joined by one
      newline. */
  method OnSummaryLegacy(db: Db, text: string, today: string) returns (reply: SumReply, rows: seq<LegacyRow>)
    requires Valid(db)
    ensures reply.DateFormatError? <==> Argument(text).Some? && Strptime(Argument(text).value).None?
    ensures reply.DateFormatError? ==> rows == []
    ensures !reply.DateFormatError? ==>
      var date := if Argument(text).Some? then Argument(text).value else today;
      && (forall i | 0 <= i < |rows| :: ListedOn(db, date, rows[i]))
      && (forall id | id in db.rows && OnDate(db.rows[id], date) ::
            exists i | 0 <= i < |rows| :: rows[i].fileId == db.rows[id].fileId)
      && (forall i, j | 0 <= i < j < |rows| :: rows[i].fileId != rows[j].fileId && LexLe(rows[i].sentAt, rows[j].sentAt))
      && (reply.NoSummaries? <==> forall id | id in db.rows :: !OnDate(db.rows[id], date))
      && (reply.NoSummaries? ==> reply.text == Templates.NoSummariesFor(date))
      && (reply.Listing? ==> reply.text == Join(LegacyLines(rows), "\n"))
  {
    var date := today;
    var arg := Argument(text);
    if arg.Some? {
      if Strptime(arg.value).None? {
        return DateFormatError, [];
      }
      date := arg.value;
    }
    rows := FetchSummariesByDateLegacy(db, date);
    if rows == [] {
      reply := NoSummaries(Templates.NoSummariesFor(date));
    } else {
      reply := Listing(Join(LegacyLines(rows), "\n"));
      assert ListedOn(db, date, rows[0]);
      var id :| ListedAs(db, date, rows[0], id);
      assert id in db.rows && OnDate(db.rows[id], date);
    }
  }

  /** A listing starts with its first row's timestamp; when that does not
      start with '#', the listing is not a summary message for `^#(\d+)`. */
  lemma ListingNotSummaryShaped(rows: seq<DatedRow>)
    requires rows != [] && rows[0].sentAt != [] && rows[0].sentAt[0] != '#'
    ensures LeadingId(Join(ListingLines(rows), "\n\n")) == None
  {
    var lines := ListingLines(rows);
    var first := Templates.DateLine(rows[0].sentAt, rows[0].id, rows[0].summarized);
    assert first[0] == rows[0].sentAt[0];
    assert Join(lines, "\n\n")[0] == first[0];
  }

  /** So replying to a listing neither opens the edit dialog nor names a
      record for /delete. */
  lemma ReplyToListingIsInert(db: Db, rows: seq<DatedRow>, s: AiogramDialog.Sessions, k: Dialog.Key,
                              text: string, command: string)
    requires Valid(db)
    requires rows != [] && rows[0].sentAt != [] && rows[0].sentAt[0] != '#'
    requires text != [] && text[0] != '/'
    requires TrailingId(Strip(command)).None?
    ensures var reply := RepliedTo(None, Some(Join(ListingLines(rows), "\n\n")));
      && AiogramDialog.Enter(s, db, k, Dialog.Text(text, reply)) == AiogramDialog.Outcome(s, db, Dialog.NeedSummaryReply)
      && Resolver.Resolve(command, reply) == Resolver.Unresolvable
  {
    ListingNotSummaryShaped(rows);
  }
}
