/** The scraping run of linkedin_scraper.py from the page loop on (lines
    64-140): the loop over result pages, the per-card write-through to the
    in-memory list, the `jobs` table and the worksheet, and the final export.
    The browser is an input script: what each result page shows when the loop
    reaches it. */
module Scraper {
  import opened Options
  import opened Fields
  import opened Config
  import opened Pages
  import opened Persistence
  import opened Run

  /** The `while current_page <= MAX_PAGES` loop of `run_scraper`: wait for
      the result cards, scrape each card through to the sinks, then click to
      the next page or stop. It stops where `LoopHalt` says and leaves in the
      sinks the records of the pages it scraped. */
  method ScrapePages(script: Script, sinks: Sinks) returns (h: Halt)
    requires sinks.Valid() && sinks.results == []
    modifies sinks
    ensures sinks.Valid()
    ensures h == LoopHalt(script, 1)
    ensures sinks.results == Collected(script, PagesScraped(h))
  {
    var currentPage: nat := 1;
    h := Halt(MAX_PAGES + 1, StopPageLimit);
    while currentPage <= MAX_PAGES
      invariant 1 <= currentPage <= MAX_PAGES + 1
      invariant sinks.Valid()
      invariant LoopHalt(script, currentPage) == LoopHalt(script, 1)
      invariant sinks.results == Collected(script, currentPage - 1)
      decreases MAX_PAGES + 1 - currentPage
    {
      var obs := Observe(script, currentPage);
      LoopHaltUnfold(script, currentPage);
      if obs.WaitTimedOut? {
        return Halt(currentPage, StopTimedOut);
      }
      sinks.ScrapeCards(obs.cards);
      match obs.next
      case NextClicked =>
        currentPage := currentPage + 1;
      case NextNotVisible =>
        return Halt(currentPage, StopNoNextPage);
      case NextRaised =>
        return Halt(currentPage, StopPaginationError);
    }
  }

  /** `run_scraper` from the page loop on: run the loop over the
      browser script, writing each record through to the three sinks, then save the
      workbook and, when a record was collected, rewrite the delimited text.
      `priorRows` and `priorCsv` are what earlier runs left in the table and
      in the delimited-text file. */
  method RunScraper(script: Script, priorRows: seq<seq<string>>, priorCsv: Option<CsvFile>) returns (out: RunOutcome)
    ensures out == ExpectedRun(script, priorRows, priorCsv)
  {
    var sinks := new Sinks(priorRows);
    var h := ScrapePages(script, sinks);
    SheetRowsAreDbRows(sinks.results);
    var workbook := Workbook(SHEET_TITLE, sinks.sheetRows);
    var csv := priorCsv;
    if sinks.results != [] {
      var fieldnames := Keys(Entries(sinks.results[0]));
      csv := Some(CsvFile(fieldnames, ProjectAll(fieldnames, sinks.results)));
    }
    out := RunOutcome(sinks.results, sinks.Table(), workbook, csv, h.lastPage, h.stop);
  }
}
