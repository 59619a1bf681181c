/** review_list_scraper.py: the browse-reviews-by-month crawl.  HTTP is
    abstracted as in the band scraper: the total the first response reports
    for a month is a parameter.  The clock (today's date as the default stop)
    is a parameter too. */
module ReviewListScraper {
  import opened Wrappers
  import opened Text
  import opened Pagination

  /** The API's page size. */
  const DisplayLength: nat := 200

  datatype Date = Date(year: int, month: int, day: int)

  /** The dates datetime.date accepts, as far as this code uses them. */
  predicate ValidDate(d: Date) {
    1 <= d.year <= 9999 && 1 <= d.month <= 12 && 1 <= d.day <= 31
  }

  /** s[i:j] with Python's clamping at the end of the string. */
  function PySlice(s: string, i: nat, j: nat): (r: string)
    requires i <= j
  {
    var lo := if i < |s| then i else |s|;
    var hi := if j < |s| then j else |s|;
    s[lo..hi]
  }

  /** datetime.date(year=year, month=month, day=1) */
  function FirstOfMonth(year: int, month: int): (r: Result<Date>)
    ensures r.Ok? <==> 1 <= year <= 9999 && 1 <= month <= 12
    ensures r.Ok? ==> r.value == Date(year, month, 1) && ValidDate(r.value)
  {
    if 1 <= year <= 9999 && 1 <= month <= 12 then Ok(Date(year, month, 1)) else Err(ValueError)
  }

  /** A 'YYYYMM' argument: year int(s[0:4]), month int(s[4:6]), day 1. */
  function ParseYYYYMM(s: string): (r: Result<Date>)
    ensures r.Ok? ==> ValidDate(r.value) && r.value.day == 1
    ensures r.Ok? ==> (ParseInt(PySlice(s, 0, 4)) == Ok(r.value.year)
                    && ParseInt(PySlice(s, 4, 6)) == Ok(r.value.month))
    ensures r.Err? <==> (ParseInt(PySlice(s, 0, 4)).Err? || ParseInt(PySlice(s, 4, 6)).Err? ||
                         FirstOfMonth(ParseInt(PySlice(s, 0, 4)).value, ParseInt(PySlice(s, 4, 6)).value).Err?)
  {
    var year :- ParseInt(PySlice(s, 0, 4));
    var month :- ParseInt(PySlice(s, 4, 6));
    FirstOfMonth(year, month)
  }

  /** Writing a month as YYYYMM and reading it back gives its first day. */
  lemma ParseYYYYMMRoundTrip(year: int, month: int)
    requires 1 <= year <= 9999 && 1 <= month <= 12
    ensures ParseYYYYMM(ZeroPad(year, 4) + ZeroPad(month, 2)) == Ok(Date(year, month, 1))
  {
    var y := ZeroPad(year, 4);
    var m := ZeroPad(month, 2);
    PaddedWidth(year, 4);
    PaddedWidth(month, 2);
    ZeroPadValue(year, 4);
    ZeroPadValue(month, 2);
    var s := y + m;
    assert PySlice(s, 0, 4) == y;
    assert PySlice(s, 4, 6) == m;
  }

  lemma PaddedWidth(n: nat, width: nat)
    requires width >= 1 && n < Pow10(width)
    ensures |ZeroPad(n, width)| == width
  {
    DecimalLength(n, width);
  }

  datatype Config = Config(start: Date, stop: Date)

  /** __init__: parse start, and stop unless it is empty, in which case the
      stop is today. */
  function Init(start: string, stop: string, today: Date): (r: Result<Config>)
    requires ValidDate(today)
    ensures r.Ok? ==> ValidDate(r.value.start) && ValidDate(r.value.stop)
    ensures r.Ok? ==> Ok(r.value.start) == ParseYYYYMM(start)
    ensures r.Ok? && stop == "" ==> r.value.stop == today
    ensures r.Ok? && stop != "" ==> ParseYYYYMM(stop) == Ok(r.value.stop)
    ensures r.Err? <==> ParseYYYYMM(start).Err? || (stop != "" && ParseYYYYMM(stop).Err?)
  {
    var s :- ParseYYYYMM(start);
    if stop == "" then Ok(Config(s, today))
    else
      var e :- ParseYYYYMM(stop);
      Ok(Config(s, e))
  }

  // ---------------------------------------------------------------------
  // The months a run visits

  /** The first month visited in a year (range's lower end). */
  function Lo(c: Config, year: int): int {
    if year == c.start.year then c.start.month else 1
  }

  /** One past the last month visited in a year (range's upper end). */
  function Hi(c: Config, year: int): int {
    if year == c.stop.year then c.stop.month + 1 else 13
  }

  /** [(year, m) for m in range(lo, hi)] */
  function MonthRange(year: int, lo: int, hi: int): (r: seq<(int, int)>)
    ensures |r| == if hi <= lo then 0 else hi - lo
    ensures forall i :: 0 <= i < |r| ==> r[i] == (year, lo + i)
  {
    if hi <= lo then [] else seq(hi - lo, i requires 0 <= i < hi - lo => (year, lo + i))
  }

  /** The months of the first n years of the run. */
  function MonthsThrough(c: Config, n: nat): seq<(int, int)>
  {
    if n == 0 then []
    else
      var year := c.start.year + n - 1;
      MonthsThrough(c, n - 1) + MonthRange(year, Lo(c, year), Hi(c, year))
  }

  lemma MonthsThroughStep(c: Config, n: nat)
    ensures MonthsThrough(c, n + 1) ==
      MonthsThrough(c, n) + MonthRange(c.start.year + n, Lo(c, c.start.year + n), Hi(c, c.start.year + n))
  {
  }

  function YearCount(c: Config): nat {
    if c.stop.year >= c.start.year then c.stop.year - c.start.year + 1 else 0
  }

  /** The (year, month) pairs of the nested loops in run. */
  function Months(c: Config): seq<(int, int)> {
    MonthsThrough(c, YearCount(c))
  }

  /** Lexicographic order on (year, month). */
  predicate Before(a: (int, int), b: (int, int)) {
    a.0 < b.0 || (a.0 == b.0 && a.1 < b.1)
  }

  predicate StrictlyIncreasing(s: seq<(int, int)>) {
    forall i, j :: 0 <= i < j < |s| ==> Before(s[i], s[j])
  }

  lemma {:induction false} MonthsThroughOrdered(c: Config, n: nat)
    requires ValidDate(c.start) && ValidDate(c.stop)
    ensures forall i :: 0 <= i < |MonthsThrough(c, n)| ==>
      c.start.year <= MonthsThrough(c, n)[i].0 < c.start.year + n && 1 <= MonthsThrough(c, n)[i].1 <= 12
    ensures StrictlyIncreasing(MonthsThrough(c, n))
    decreases n
  {
    if n > 0 {
      MonthsThroughOrdered(c, n - 1);
      var year := c.start.year + n - 1;
      var a := MonthsThrough(c, n - 1);
      var b := MonthRange(year, Lo(c, year), Hi(c, year));
      assert MonthsThrough(c, n) == a + b;
      forall i, j | 0 <= i < j < |a + b| ensures Before((a + b)[i], (a + b)[j]) {
        if j >= |a| && i < |a| {
          assert (a + b)[j] == b[j - |a|];
        }
      }
    }
  }

  /** Every visited month is a real month, and each comes after the one
      before it. */
  lemma MonthsOrdered(c: Config)
    requires ValidDate(c.start) && ValidDate(c.stop)
    ensures forall i :: 0 <= i < |Months(c)| ==> 1 <= Months(c)[i].1 <= 12
    ensures StrictlyIncreasing(Months(c))
  {
    MonthsThroughOrdered(c, YearCount(c));
  }

  lemma {:induction false} MonthsThroughFullYears(c: Config, n: nat)
    requires ValidDate(c.start) && ValidDate(c.stop)
    requires 1 <= n <= c.stop.year - c.start.year
    ensures |MonthsThrough(c, n)| == 13 - c.start.month + 12 * (n - 1)
    ensures MonthsThrough(c, n)[0] == (c.start.year, c.start.month)
    decreases n
  {
    if n > 1 {
      MonthsThroughFullYears(c, n - 1);
    }
  }

  /** A run from start to stop (start not after stop) visits every month from
      the start month to the stop month: that many months, beginning at the
      start and ending at the stop. */
  lemma MonthsSpan(c: Config)
    requires ValidDate(c.start) && ValidDate(c.stop)
    requires Before((c.start.year, c.start.month), (c.stop.year, c.stop.month))
          || (c.start.year, c.start.month) == (c.stop.year, c.stop.month)
    ensures |Months(c)| == 12 * (c.stop.year - c.start.year) + c.stop.month - c.start.month + 1
    ensures Months(c)[0] == (c.start.year, c.start.month)
    ensures Months(c)[|Months(c)| - 1] == (c.stop.year, c.stop.month)
  {
    var n := YearCount(c);
    var last := MonthRange(c.stop.year, Lo(c, c.stop.year), Hi(c, c.stop.year));
    assert Months(c) == MonthsThrough(c, n - 1) + last;
    if n > 1 {
      MonthsThroughFullYears(c, n - 1);
      assert Lo(c, c.stop.year) == 1;
    } else {
      assert c.start.year == c.stop.year;
    }
  }

  /** A start year after the stop year visits nothing. */
  lemma NoMonthsWhenStartAfterStop(c: Config)
    requires c.start.year > c.stop.year
    ensures Months(c) == []
  {
  }

  // ---------------------------------------------------------------------
  // The run

  /** '{:04d}-{:02d}'.format(year, month) */
  function Label(year: nat, month: nat): string {
    ZeroPad(year, 4) + "-" + ZeroPad(month, 2)
  }

  /** The label is 'YYYY-MM' and gives back the year and the month. */
  lemma LabelReadsBack(year: nat, month: nat)
    requires 1 <= year <= 9999 && 1 <= month <= 12
    ensures |Label(year, month)| == 7 && Label(year, month)[4] == '-'
    ensures ParseInt(Label(year, month)[..4]) == Ok(year)
    ensures ParseInt(Label(year, month)[5..]) == Ok(month)
  {
    PaddedWidth(year, 4);
    PaddedWidth(month, 2);
    ZeroPadValue(year, 4);
    ZeroPadValue(month, 2);
    var l := Label(year, month);
    assert l[..4] == ZeroPad(year, 4);
    assert l[5..] == ZeroPad(month, 2);
  }

  function Labels(months: seq<(int, int)>): (r: seq<string>)
    requires forall i :: 0 <= i < |months| ==> months[i].0 >= 0 && months[i].1 >= 0
    ensures |r| == |months|
  {
    seq(|months|, i requires 0 <= i < |months| => Label(months[i].0, months[i].1))
  }

  lemma LabelsSnoc(months: seq<(int, int)>, year: int, month: int)
    requires forall i :: 0 <= i < |months| ==> months[i].0 >= 0 && months[i].1 >= 0
    requires year >= 0 && month >= 0
    ensures Labels(months + [(year, month)]) == Labels(months) + [Label(year, month)]
  {
  }

  lemma MonthRangeSnoc(year: int, lo: int, month: int)
    requires lo <= month
    ensures MonthRange(year, lo, month + 1) == MonthRange(year, lo, month) + [(year, month)]
  {
  }

  function NDoMap(firstTotal: string -> int): string -> nat
  {
    dateStr => ExtraRequests(firstTotal(dateStr), DisplayLength)
  }

  datatype RunLog = RunLog(months: seq<(int, int)>, requests: seq<Request>, totalRecordsSum: int, reportedRows: int)

  predicate PositiveMonths(months: seq<(int, int)>) {
    forall i :: 0 <= i < |months| ==> months[i].0 >= 1 && months[i].1 >= 1
  }

  lemma LabelsAppend(a: seq<(int, int)>, b: seq<(int, int)>)
    requires PositiveMonths(a) && PositiveMonths(b)
    ensures PositiveMonths(a + b)
    ensures Labels(a + b) == Labels(a) + Labels(b)
  {
  }

  /** One month of run added to the months before it in its year. */
  lemma MonthStep(year: int, lo: int, month: int, months: seq<(int, int)>, firstTotal: string -> int)
    requires year >= 1 && 1 <= lo <= month
    requires months == MonthRange(year, lo, month) && PositiveMonths(months)
    ensures months + [(year, month)] == MonthRange(year, lo, month + 1) && PositiveMonths(months + [(year, month)])
    ensures Labels(months + [(year, month)]) == Labels(months) + [Label(year, month)]
    ensures Schedule(Labels(months + [(year, month)]), NDoMap(firstTotal), DisplayLength) ==
      Schedule(Labels(months), NDoMap(firstTotal), DisplayLength) +
      PageRequests(Label(year, month), ExtraRequests(firstTotal(Label(year, month)), DisplayLength), DisplayLength)
    ensures SumTotals(Labels(months + [(year, month)]), firstTotal) ==
      SumTotals(Labels(months), firstTotal) + firstTotal(Label(year, month))
  {
    LabelsSnoc(months, year, month);
    ScheduleSnoc(Labels(months), Label(year, month), NDoMap(firstTotal), DisplayLength);
    SumTotalsSnoc(Labels(months), Label(year, month), firstTotal);
    MonthRangeSnoc(year, lo, month);
  }

  /** The inner loop of run for one year: the months lo..hi-1, with each
      month's requests and total. */
  method RunYear(year: int, lo: int, hi: int, firstTotal: string -> int)
      returns (months: seq<(int, int)>, requests: seq<Request>, totalRecordsSum: int)
    requires year >= 1 && lo >= 1
    ensures months == MonthRange(year, lo, hi) && PositiveMonths(months)
    ensures requests == Schedule(Labels(months), NDoMap(firstTotal), DisplayLength)
    ensures totalRecordsSum == SumTotals(Labels(months), firstTotal)
  {
    months, requests, totalRecordsSum := [], [], 0;
    var month := lo;
    while month < hi
      invariant lo <= month && (month <= hi || month == lo)
      invariant months == MonthRange(year, lo, month) && PositiveMonths(months)
      invariant requests == Schedule(Labels(months), NDoMap(firstTotal), DisplayLength)
      invariant totalRecordsSum == SumTotals(Labels(months), firstTotal)
    {
      var dateStr := Label(year, month);
      var totalRecords := firstTotal(dateStr);
      totalRecordsSum := totalRecordsSum + totalRecords;
      var nDo := ExtraRequests(totalRecords, DisplayLength);
      var pages := RequestPages(dateStr, nDo, DisplayLength);
      MonthStep(year, lo, month, months, firstTotal);
      requests := requests + pages;
      months := months + [(year, month)];
      month := month + 1;
    }
  }

  /** One year of run added to the months before it. */
  lemma RunStep(c: Config, n: nat, year: int, lo: int, hi: int, visited: seq<(int, int)>, ms: seq<(int, int)>)
    requires year == c.start.year + n && lo == Lo(c, year) && hi == Hi(c, year)
    requires visited == MonthsThrough(c, n) && ms == MonthRange(year, lo, hi)
    ensures visited + ms == MonthsThrough(c, n + 1)
  {
    MonthsThroughStep(c, n);
  }

  /** The requests and totals of two runs of months one after the other. */
  lemma RunAppend(visited: seq<(int, int)>, ms: seq<(int, int)>, firstTotal: string -> int)
    requires PositiveMonths(visited) && PositiveMonths(ms)
    ensures PositiveMonths(visited + ms)
    ensures Schedule(Labels(visited + ms), NDoMap(firstTotal), DisplayLength) ==
      Schedule(Labels(visited), NDoMap(firstTotal), DisplayLength) + Schedule(Labels(ms), NDoMap(firstTotal), DisplayLength)
    ensures SumTotals(Labels(visited + ms), firstTotal) == SumTotals(Labels(visited), firstTotal) + SumTotals(Labels(ms), firstTotal)
  {
    LabelsAppend(visited, ms);
    ScheduleAppend(Labels(visited), Labels(ms), NDoMap(firstTotal), DisplayLength);
    SumTotalsAppend(Labels(visited), Labels(ms), firstTotal);
  }

  /** run: for every month from start to stop, a request at start 0, whose
      response gives the total, then n_do more a page apart (RequestPages). */
  method Run(c: Config, firstTotal: string -> int) returns (log: RunLog)
    requires ValidDate(c.start) && ValidDate(c.stop)
    ensures log.months == Months(c) && PositiveMonths(log.months)
    ensures log.requests == Schedule(Labels(log.months), NDoMap(firstTotal), DisplayLength)
    ensures log.totalRecordsSum == SumTotals(Labels(log.months), firstTotal)
    ensures log.reportedRows == log.totalRecordsSum + 1
  {
    var visited: seq<(int, int)> := [];
    var requests: seq<Request> := [];
    var totalRecordsSum := 0;
    var year := c.start.year;
    ghost var n: nat := 0;
    while year < c.stop.year + 1
      invariant year == c.start.year + n
      invariant year <= c.stop.year + 1 || n == 0
      invariant visited == MonthsThrough(c, n) && PositiveMonths(visited)
      invariant requests == Schedule(Labels(visited), NDoMap(firstTotal), DisplayLength)
      invariant totalRecordsSum == SumTotals(Labels(visited), firstTotal)
    {
      var lo := if year == c.start.year then c.start.month else 1;
      var hi := if year == c.stop.year then c.stop.month + 1 else 12 + 1;
      var ms, rs, sum := RunYear(year, lo, hi, firstTotal);
      RunStep(c, n, year, lo, hi, visited, ms);
      RunAppend(visited, ms, firstTotal);
      visited, requests, totalRecordsSum := visited + ms, requests + rs, totalRecordsSum + sum;
      year, n := year + 1, n + 1;
    }
    assert n == YearCount(c);
    log := RunLog(visited, requests, totalRecordsSum, totalRecordsSum + 1);
  }

  // ---------------------------------------------------------------------
  // Row fields in writeReviewData

  /** int(text.split()[1]): the day in 'January 31'. */
  function ParseDay(text: string): (r: Result<nat>)
    ensures |Words(text)| < 2 ==> r == Err(IndexError)
    ensures |Words(text)| >= 2 ==> r == ParseInt(Words(text)[1])
  {
    var words := Words(text);
    if |words| < 2 then Err(IndexError) else ParseInt(words[1])
  }

  /** hour, minute = map(int, text.split(':')) */
  function ParseTime(text: string): (r: Result<(nat, nat)>)
    ensures r.Ok? <==> |Split(text, ':')| == 2 && IsDigits(Split(text, ':')[0]) && IsDigits(Split(text, ':')[1])
    ensures r.Ok? ==> r.value == (DigitsValue(Split(text, ':')[0]), DigitsValue(Split(text, ':')[1]))
  {
    var parts := Split(text, ':');
    if |parts| != 2 then Err(ValueError)
    else
      var hour :- ParseInt(parts[0]);
      var minute :- ParseInt(parts[1]);
      Ok((hour, minute))
  }

  /** int(text[:-1]): the percentage in '67%'. */
  function ParsePercentage(text: string): (r: Result<nat>)
    ensures r.Ok? <==> |text| >= 1 && IsDigits(text[..|text| - 1])
    ensures r.Ok? ==> r.value == DigitsValue(text[..|text| - 1])
  {
    ParseInt(if |text| == 0 then "" else text[..|text| - 1])
  }

  lemma DayOfMonthText(monthName: string, day: nat)
    requires |monthName| >= 1 && forall k :: 0 <= k < |monthName| ==> !IsSpace(monthName[k])
    ensures ParseDay(monthName + " " + Decimal(day)) == Ok(day)
  {
    var d := Decimal(day);
    assert monthName + " " + d == monthName + [' '] + d;
    WordsAround(monthName, ' ', d);
    WordsOfWord(monthName);
    WordsOfWord(d);
    ParseDecimal(day);
  }

  lemma TimeText(hour: nat, minute: nat)
    ensures ParseTime(Decimal(hour) + ":" + Decimal(minute)) == Ok((hour, minute))
  {
    var h := Decimal(hour);
    var m := Decimal(minute);
    assert h + ":" + m == h + [':'] + m;
    SplitAround(h, m, ':');
    SplitNoSep(h, ':');
    SplitNoSep(m, ':');
    DecimalValue(hour);
    DecimalValue(minute);
  }

  lemma TimeWithThreePartsFails(a: string, b: string, e: string)
    ensures ParseTime(a + ":" + b + ":" + e).Err?
  {
    assert a + ":" + b + ":" + e == a + [':'] + (b + [':'] + e);
    SplitAround(a, b + [':'] + e, ':');
    SplitAround(b, e, ':');
  }

  lemma PercentageText(p: nat, sign: char)
    ensures ParsePercentage(Decimal(p) + [sign]) == Ok(p)
  {
    var t := Decimal(p) + [sign];
    assert t[..|t| - 1] == Decimal(p);
    DecimalValue(p);
  }

  lemma RowFieldExamples()
    ensures ParseDay("January 31") == Ok(31)
    ensures ParseTime("23:18") == Ok((23, 18))
    ensures ParsePercentage("67%") == Ok(67)
  {
    assert Decimal(31) == "31";
    assert Decimal(23) == "23";
    assert Decimal(18) == "18";
    assert Decimal(67) == "67";
    DayOfMonthText("January", 31);
    assert "January" + " " + "31" == "January 31";
    TimeText(23, 18);
    assert "23" + ":" + "18" == "23:18";
    PercentageText(67, '%');
    assert "67" + ['%'] == "67%";
  }

  datatype ReviewRow = ReviewRow(year: int, month: int, day: nat, hour: nat, minute: nat, reviewPercentage: nat)

  /** The fields of one row that do not come from HTML, in the order the
      code reads them. */
  function ParseRow(review: seq<string>, year: int, month: int): (r: Result<ReviewRow>)
    ensures r.Ok? <==> |review| >= 7 && ParseDay(review[0]).Ok? && ParseTime(review[6]).Ok? &&
                       ParsePercentage(review[4]).Ok?
    ensures |review| < 7 && (|review| < 1 || ParseDay(review[0]).Ok?) ==> r == Err(IndexError)
    ensures |review| >= 1 && ParseDay(review[0]).Err? ==> r == Err(ParseDay(review[0]).error)
    ensures |review| >= 7 && ParseDay(review[0]).Ok? && ParseTime(review[6]).Err? ==>
              r == Err(ParseTime(review[6]).error)
    ensures |review| >= 7 && ParseDay(review[0]).Ok? && ParseTime(review[6]).Ok? &&
              ParsePercentage(review[4]).Err? ==>
              r == Err(ParsePercentage(review[4]).error)
    ensures r.Ok? ==> (ParseDay(review[0]) == Ok(r.value.day)
                    && ParseTime(review[6]) == Ok((r.value.hour, r.value.minute))
                    && ParsePercentage(review[4]) == Ok(r.value.reviewPercentage)
                    && r.value.year == year && r.value.month == month)
  {
    if |review| < 1 then Err(IndexError)
    else
      var day :- ParseDay(review[0]);
      if |review| < 7 then Err(IndexError)
      else
        var time :- ParseTime(review[6]);
        var pct :- ParsePercentage(review[4]);
        Ok(ReviewRow(year, month, day, time.0, time.1, pct))
  }

  /** writeReviewData: the rows written, in order, until the first row that
      raises. */
  method WriteReviewData(reviewData: seq<seq<string>>, year: int, month: int)
      returns (written: seq<ReviewRow>, failure: Option<Error>)
    ensures |written| <= |reviewData|
    ensures forall i :: 0 <= i < |written| ==> ParseRow(reviewData[i], year, month) == Ok(written[i])
    ensures failure.None? <==> |written| == |reviewData|
    ensures failure.Some? ==> ParseRow(reviewData[|written|], year, month) == Err(failure.value)
  {
    written := [];
    for i := 0 to |reviewData|
      invariant |written| == i
      invariant forall j :: 0 <= j < i ==> ParseRow(reviewData[j], year, month) == Ok(written[j])
    {
      var row := ParseRow(reviewData[i], year, month);
      if row.Err? {
        return written, Some(row.error);
      }
      written := written + [row.value];
    }
    failure := None;
  }
}
