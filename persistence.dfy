/** The three sinks the scraper writes each record through to while it runs
    (linkedin_scraper.py lines 27-45 and 100-109): the in-memory `results`
    list, the `jobs` table and the worksheet. */
module Persistence {
  import opened Options
  import opened Fields
  import opened Pages

  /** The database rows of a list of records, one per record, in order. */
  function DbRows(rs: seq<JobPosting>): (rows: seq<seq<string>>)
    ensures |rows| == |rs|
  {
    if rs == [] then [] else DbRows(rs[..|rs| - 1]) + [DbRow(rs[|rs| - 1])]
  }

  /** Row `i` of the table is the row of record `i`. */
  lemma {:induction false} DbRowsAt(rs: seq<JobPosting>, i: nat)
    requires i < |rs|
    ensures DbRows(rs)[i] == DbRow(rs[i])
  {
    if i < |rs| - 1 {
      DbRowsAt(rs[..|rs| - 1], i);
    }
  }

  /** The rows `csv.DictWriter.writerows` writes for a list of records, and the
      worksheet rows appended for them when the field names are the header. */
  function ProjectAll(fieldnames: seq<string>, rs: seq<JobPosting>): (rows: seq<seq<string>>)
    ensures |rows| == |rs|
  {
    if rs == [] then []
    else ProjectAll(fieldnames, rs[..|rs| - 1]) + [Project(fieldnames, Entries(rs[|rs| - 1]))]
  }

  /** Row `i` of the export is record `i` projected on the field names. */
  lemma {:induction false} ProjectAllAt(fieldnames: seq<string>, rs: seq<JobPosting>, i: nat)
    requires i < |rs|
    ensures ProjectAll(fieldnames, rs)[i] == Project(fieldnames, Entries(rs[i]))
  {
    if i < |rs| - 1 {
      ProjectAllAt(fieldnames, rs[..|rs| - 1], i);
    }
  }

  /** The write-through invariant: the rows this run inserted into the table
      are one per record, in the order of the in-memory list, and the
      worksheet holds the header and then the same rows. */
  predicate InLockStep(results: seq<JobPosting>, dbRows: seq<seq<string>>, sheetRows: seq<seq<string>>) {
    dbRows == DbRows(results) && sheetRows == [HEADER] + dbRows
  }

  /** Sinks in lock-step hold the same data: the worksheet below its header
      row equals the rows inserted into the table, and each of those rows
      reads back as the record at the same position of the list. */
  lemma LockStepSameRows(results: seq<JobPosting>, dbRows: seq<seq<string>>, sheetRows: seq<seq<string>>)
    requires InLockStep(results, dbRows, sheetRows)
    ensures |sheetRows| == |dbRows| + 1 == |results| + 1 && sheetRows[0] == HEADER
    ensures sheetRows[1..] == dbRows == ProjectAll(HEADER, results)
    ensures forall i :: 0 <= i < |results| ==> FromDbRow(dbRows[i]) == Some(results[i])
  {
    SheetRowsAreDbRows(results);
    assert sheetRows[1..] == dbRows;
    forall i | 0 <= i < |results|
      ensures FromDbRow(dbRows[i]) == Some(results[i])
    {
      DbRowsAt(results, i);
    }
  }

  /** The worksheet rows of a list of records are its table rows. */
  lemma SheetRowsAreDbRows(rs: seq<JobPosting>)
    ensures ProjectAll(HEADER, rs) == DbRows(rs)
  {
    forall i | 0 <= i < |rs|
      ensures ProjectAll(HEADER, rs)[i] == DbRows(rs)[i]
    {
      ProjectAllAt(HEADER, rs, i);
      DbRowsAt(rs, i);
      EntriesKeys(rs[i]);
      ProjectIsDbRow(rs[i], rs[i]);
    }
  }

  /** The three sinks: the in-memory `results` list, the `jobs` table and
      the rows of the active worksheet. The table persists across runs: it
      holds the rows `priorRows` earlier runs left and then the rows `dbRows`
      this run inserted. The database insert and the worksheet append are
      taken to succeed whenever the append to `results` before them did. */
  class Sinks {
    const priorRows: seq<seq<string>>
    var results: seq<JobPosting>
    var dbRows: seq<seq<string>>
    var sheetRows: seq<seq<string>>

    predicate Valid()
      reads this
    {
      InLockStep(results, dbRows, sheetRows)
    }

    /** The whole `jobs` table: the earlier runs' rows, then this run's. */
    function Table(): (rows: seq<seq<string>>)
      reads this
      ensures |rows| == |priorRows| + |dbRows| && rows[..|priorRows|] == priorRows
      ensures rows[|priorRows|..] == dbRows
    {
      assert (priorRows + dbRows)[..|priorRows|] == priorRows;
      assert (priorRows + dbRows)[|priorRows|..] == dbRows;
      priorRows + dbRows
    }

    /** `CREATE TABLE IF NOT EXISTS` leaves the rows `prior` of earlier runs
        in the table (none when the database file is new); the header row is
        appended to a fresh worksheet; `results` starts empty. */
    constructor (prior: seq<seq<string>>)
      ensures Valid() && priorRows == prior && Table() == prior
      ensures results == [] && dbRows == [] && sheetRows == [HEADER]
    {
      priorRows := prior;
      results := [];
      dbRows := [];
      sheetRows := [HEADER];
    }

    /** `results.append(job_data)`, the insert and commit, and the worksheet
        append, for one record. */
    method Persist(p: JobPosting)
      requires Valid()
      modifies this
      ensures Valid() && results == old(results) + [p]
    {
      results := results + [p];
      dbRows := dbRows + [DbRow(p)];
      sheetRows := sheetRows + [SheetRow(p)];
      assert results[..|results| - 1] == old(results);
    }

    /** The inner `for` over the cards of one page: each card is extracted
        and persisted, or skipped when its extraction raises. */
    method ScrapeCards(cards: seq<CardObs>)
      requires Valid()
      modifies this
      ensures Valid() && results == old(results) + PagePostings(cards)
    {
      for i := 0 to |cards|
        invariant Valid()
        invariant results == old(results) + PagePostings(cards[..i])
      {
        PagePostingsPrefix(cards, i);
        match cards[i] {
          case ExtractionFailed =>
          case Extracted(t) => Persist(BuildPosting(t));
        }
      }
      assert cards[..|cards|] == cards;
    }
  }
}
