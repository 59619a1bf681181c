/** band_scraper.py: the browse-by-letter crawl.  The HTTP calls are
    abstracted: the total-record count the first response reports for a
    letter is a parameter, and the model records the requests issued. */
module BandScraper {
  import opened Pagination

  /** The API's page size. */
  const DisplayLength: nat := 500

  /** The browse tabs: 'NBR', '~', then 'A' to 'Z'. */
  function FullLetters(): seq<string>
  {
    ["NBR", "~"] + seq(26, i requires 0 <= i < 26 => [('A' as int + i) as char])
  }

  /** The letters a run uses; a test run only uses 'A' and 'B'. */
  function Letters(test: bool): seq<string>
  {
    if test then ["A", "B"] else FullLetters()
  }

  datatype Config = Config(test: bool, letters: seq<string>)

  /** __init__: the letter list, built and then extended in place. */
  method Init(test: bool) returns (c: Config)
    ensures c.test == test && c.letters == Letters(test)
  {
    var letters := ["NBR", "~"];
    for code := 'A' as int to 'Z' as int + 1
      invariant letters == ["NBR", "~"] + seq(code - 'A' as int, i requires 0 <= i < code - 'A' as int => [('A' as int + i) as char])
    {
      letters := letters + [[code as char]];
    }
    if test {
      letters := ["A", "B"];
    }
    c := Config(test, letters);
  }

  lemma LettersShape()
    ensures |Letters(false)| == 28
    ensures Letters(false)[0] == "NBR" && Letters(false)[1] == "~"
    ensures Letters(false)[2] == "A" && Letters(false)[27] == "Z"
    ensures forall i :: 2 <= i < 28 ==> Letters(false)[i] == [('A' as int + i - 2) as char]
    ensures Letters(true) == ["A", "B"]
  {
  }

  /** n_do for one letter, capped at 2 in a test run. */
  function NDo(totalRecords: int, test: bool): (n: nat)
    ensures test ==> n <= 2
    ensures !test ==> n == ExtraRequests(totalRecords, DisplayLength)
  {
    var n := ExtraRequests(totalRecords, DisplayLength);
    if test && n > 2 then 2 else n
  }

  function NDoMap(firstTotal: string -> int, test: bool): string -> nat
  {
    letter => NDo(firstTotal(letter), test)
  }

  /** What a run does that the model sees: the requests, in order, and the
      two numbers it reports. */
  datatype RunLog = RunLog(requests: seq<Request>, totalRecordsSum: int, reportedRows: int)

  /** run: per letter a request at start 0, whose response gives the total,
      then n_do more requests a page apart (RequestPages). */
  method Run(c: Config, firstTotal: string -> int) returns (log: RunLog)
    ensures log.requests == Schedule(c.letters, NDoMap(firstTotal, c.test), DisplayLength)
    ensures log.totalRecordsSum == SumTotals(c.letters, firstTotal)
    ensures log.reportedRows == log.totalRecordsSum + 1
  {
    var requests: seq<Request> := [];
    var totalRecordsSum := 0;
    for li := 0 to |c.letters|
      invariant requests == Schedule(c.letters[..li], NDoMap(firstTotal, c.test), DisplayLength)
      invariant totalRecordsSum == SumTotals(c.letters[..li], firstTotal)
    {
      var letter := c.letters[li];
      assert c.letters[..li + 1] == c.letters[..li] + [letter];
      ScheduleSnoc(c.letters[..li], letter, NDoMap(firstTotal, c.test), DisplayLength);
      SumTotalsSnoc(c.letters[..li], letter, firstTotal);
      var totalRecords := firstTotal(letter);
      totalRecordsSum := totalRecordsSum + totalRecords;
      var nDo := ExtraRequests(totalRecords, DisplayLength);
      if c.test && nDo > 2 {
        nDo := 2;
      }
      assert nDo == NDoMap(firstTotal, c.test)(letter);
      var pages := RequestPages(letter, nDo, DisplayLength);
      requests := requests + pages;
    }
    assert c.letters[..|c.letters|] == c.letters;
    log := RunLog(requests, totalRecordsSum, totalRecordsSum + 1);
  }

  /** Outside a test run the pages of every letter reach all its records. */
  lemma FullRunCoversRecords(totalRecords: int)
    ensures (NDo(totalRecords, false) + 1) * DisplayLength >= totalRecords
  {
    ExtraRequestsCoverTotal(totalRecords, DisplayLength);
  }
}
