/** What one scraping run produces (linkedin_scraper.py lines 64-140) as a
    function of what the browser shows, and the properties of the page loop
    and of the sinks that every run has. */
module Run {
  import opened Options
  import opened Fields
  import opened Config
  import opened Pages
  import opened Persistence

  /** The saved workbook: its single sheet's title and rows. */
  datatype Workbook = Workbook(title: string, rows: seq<seq<string>>)

  /** The delimited-text file: its header row and data rows. */
  datatype CsvFile = CsvFile(header: seq<string>, rows: seq<seq<string>>)

  /** Everything one run produces. */
  datatype RunOutcome = RunOutcome(
    results: seq<JobPosting>,
    dbRows: seq<seq<string>>,
    workbook: Workbook,
    csv: Option<CsvFile>,
    lastPage: nat,
    stop: StopReason)

  /** The title given to the worksheet. */
  const SHEET_TITLE: string := "LinkedIn Jobs"

  /** How the page loop ends: the page number grows by one exactly on each
      successful click; the loop stops at the page limit, on a wait timeout,
      on an invisible next button or on a pagination error, each as the page
      it stopped on shows. */
  lemma {:induction false} LoopHaltStops(script: Script, page: nat)
    requires 1 <= page <= MAX_PAGES + 1
    ensures var h := LoopHalt(script, page);
      (forall n :: page <= n < h.lastPage ==> Observe(script, n).CardsLoaded? && Observe(script, n).next == NextClicked) &&
      (h.stop == StopPageLimit <==> h.lastPage == MAX_PAGES + 1) &&
      (h.stop == StopTimedOut ==> Observe(script, h.lastPage) == WaitTimedOut) &&
      (h.stop == StopNoNextPage ==>
        Observe(script, h.lastPage).CardsLoaded? && Observe(script, h.lastPage).next == NextNotVisible) &&
      (h.stop == StopPaginationError ==>
        Observe(script, h.lastPage).CardsLoaded? && Observe(script, h.lastPage).next == NextRaised)
    decreases MAX_PAGES + 1 - page
  {
    if page <= MAX_PAGES && Observe(script, page).CardsLoaded? && Observe(script, page).next == NextClicked {
      LoopHaltStops(script, page + 1);
    }
  }

  /** What one run produces for a script, given the table rows and the
      delimited-text file earlier runs left behind: the loop's records, the
      table with this run's rows appended, a fresh workbook of the header
      and this run's rows, and the delimited-text file, rewritten with the
      first record's keys as header when there is at least one record and
      otherwise left as it was. */
  function ExpectedRun(script: Script, priorRows: seq<seq<string>>, priorCsv: Option<CsvFile>): (o: RunOutcome)
    ensures |o.dbRows| == |priorRows| + |o.results| && o.dbRows[..|priorRows|] == priorRows
    ensures o.results == [] ==> o.csv == priorCsv
  {
    var h := LoopHalt(script, 1);
    var results := Collected(script, PagesScraped(h));
    var dbRows := priorRows + DbRows(results);
    assert dbRows[..|priorRows|] == priorRows;
    RunOutcome(
      results,
      dbRows,
      Workbook(SHEET_TITLE, [HEADER] + ProjectAll(HEADER, results)),
      if results == [] then priorCsv
      else Some(CsvFile(Keys(Entries(results[0])), ProjectAll(Keys(Entries(results[0])), results))),
      h.lastPage,
      h.stop)
  }

  /** A run keeps its sinks consistent: the table keeps the rows of earlier
      runs and then holds this run's records in order; the saved worksheet
      is the header and then this run's table rows; when a record was
      collected the delimited-text file is rewritten with the worksheet
      header as its header and this run's table rows as its rows, and
      otherwise it is left as it was. */
  lemma RunSinksAgree(script: Script, priorRows: seq<seq<string>>, priorCsv: Option<CsvFile>)
    ensures var o := ExpectedRun(script, priorRows, priorCsv);
      var runRows := o.dbRows[|priorRows|..];
      o.workbook.title == SHEET_TITLE &&
      |o.workbook.rows| == |o.results| + 1 && o.workbook.rows[0] == HEADER &&
      o.workbook.rows[1..] == runRows &&
      (forall i :: 0 <= i < |o.results| ==> FromDbRow(runRows[i]) == Some(o.results[i])) &&
      (o.results == [] ==> o.csv == priorCsv) &&
      (o.results != [] ==> o.csv.Some? && o.csv.value.header == HEADER && o.csv.value.rows == runRows)
  {
    var o := ExpectedRun(script, priorRows, priorCsv);
    var results := Collected(script, PagesScraped(LoopHalt(script, 1)));
    assert o.results == results;
    assert o.dbRows == priorRows + DbRows(results);
    assert o.workbook.rows == [HEADER] + ProjectAll(HEADER, results);
    SheetRowsAreDbRows(results);
    var runRows := o.dbRows[|priorRows|..];
    assert runRows == DbRows(results);
    LockStepSameRows(results, runRows, o.workbook.rows);
    if results != [] {
      EntriesKeys(results[0]);
      assert o.csv == Some(CsvFile(HEADER, ProjectAll(HEADER, results)));
    }
  }

  /** A run scrapes at most MAX_PAGES pages, for every script. */
  lemma RunBounded(script: Script, priorRows: seq<seq<string>>, priorCsv: Option<CsvFile>)
    ensures var o := ExpectedRun(script, priorRows, priorCsv);
      1 <= o.lastPage <= MAX_PAGES + 1 &&
      PagesScraped(Halt(o.lastPage, o.stop)) <= MAX_PAGES
  {
    LoopHaltStops(script, 1);
  }

  /** When no card appears on the first page, nothing is collected: the
      table keeps only its earlier rows, the worksheet holds only its header
      and the delimited-text file is not rewritten. */
  lemma FirstWaitTimesOut(script: Script, priorRows: seq<seq<string>>, priorCsv: Option<CsvFile>)
    requires Observe(script, 1) == WaitTimedOut
    ensures var o := ExpectedRun(script, priorRows, priorCsv);
      o.results == [] && o.dbRows == priorRows && o.workbook.rows == [HEADER] &&
      o.csv == priorCsv && o.stop == StopTimedOut && o.lastPage == 1
  {
  }
}
