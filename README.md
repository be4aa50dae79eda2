# LinkedIn job scraper: a verified model of its core

`linkedin_scraper.py` logs into LinkedIn, opens a job search for a keyword and
a location, and pages through the results. On every page it scrolls, reads
each job card, builds a six-field record (Keyword, Title, Company, Location,
URL, Connection) and writes it through to three sinks: the in-memory `results`
list, the SQLite table `jobs` and an openpyxl worksheet. When the page loop
ends it saves the workbook and, when at least one record was collected,
writes `results` to a CSV file.

This project models the parts of that run whose behaviour can be stated
exactly, and proves what they promise:

- `text.dfy` (`Text`): Python's `str.isspace` character set; `str.strip()`
  as CPython computes it, a forward scan and then a backward scan; and
  `" ".join`.
- `fields.dfy` (`Fields`): the per-card record. Each text field is
  normalised: every fragment is stripped, blank fragments are dropped and the
  rest are joined with single spaces. The link is made absolute, with `"N/A"`
  for a missing or empty link. The record is a dictionary with six keys in a
  fixed order. The module also gives the row each sink stores for a record.
- `search_url.dfy` (`SearchUrl`): the search URL, where keyword and location
  have every space written as `%20` and nothing else escaped.
- `pages.dfy` (`Pages`): the browser as an input script of per-page
  observations. Each page either times out waiting for cards, or shows its
  cards (each extracted or failing) and a pagination outcome. The module
  defines where the page loop stops and which records it collects.
- `persistence.dfy` (`Persistence`): the three in-run sinks as a class whose
  methods append in lock-step, and the inner loop over the cards of a page.
- `run.dfy` (`Run`): the outcome of a whole run as a function of the script,
  with the properties every run has.
- `scraper.dfy` (`Scraper`): the `while current_page <= MAX_PAGES` loop and
  the final export as imperative methods, proved equal to that function.

The browser script is a finite sequence: entry `k` is what page `k + 1`
shows. A page beyond the script shows no job card, so its wait times out.
The loop never looks past page `MAX_PAGES`, so scripts of that length already
cover every run.

The database file and the CSV file outlive a run. A run starts from the
rows the `jobs` table already holds and the CSV file already on disk; both
are inputs of the model. The workbook is created afresh by every run.

## Model

| member | source | states |
|---|---|---|
| `Text.IsSpace` | linkedin_scraper.py:93-96 | the characters `str.strip()` removes: space, tab, newline and carriage return are among them, no ASCII letter or digit is, and none lies above U+3000 |
| `Text.SkipSpaces` | linkedin_scraper.py:93-96 | the first scan of `strip`: everything it skips is whitespace, and it stops at the first non-whitespace character or at the end |
| `Text.SkipSpacesBack` | linkedin_scraper.py:93-96 | the second scan of `strip`: everything it drops from the end is whitespace, and it stops after a non-whitespace character or at the start position |
| `Text.Strip` | linkedin_scraper.py:93-96 | `str.strip()` never leaves whitespace at either end, and gives `""` exactly when the text is all whitespace |
| `Text.StripUnique` | linkedin_scraper.py:93-96 | reference reading of `strip`: any slice that has only whitespace outside it and no whitespace at its ends is the stripped text |
| `Text.StripStripped` | linkedin_scraper.py:93-96 | text without outer whitespace is left unchanged by `strip` |
| `Text.StripIdempotent` | linkedin_scraper.py:93-96 | stripping twice is stripping once |
| `Text.JoinSpaces` | linkedin_scraper.py:93-95 | `" ".join` of no parts is `""` and of one part is that part; otherwise the join begins with the first part, followed by one space when another part comes |
| `Text.JoinSpacesAppend` | linkedin_scraper.py:93-95 | `" ".join` of two runs is the two joins with one space between them, dropping an empty run |
| `Text.JoinSpacesEnds` | linkedin_scraper.py:93-95 | joining non-empty parts gives `""` only for no parts; the result starts and ends with the outer parts' outer characters |
| `Text.JoinSpacesStripped` | linkedin_scraper.py:93-95 | joining non-empty parts that have no outer whitespace gives text without outer whitespace |
| `Fields.Kept` | linkedin_scraper.py:93-95 | the list comprehension keeps only non-empty stripped fragments, never more than there are fragments |
| `Fields.KeptEmpty` | linkedin_scraper.py:93-95 | the comprehension is empty exactly when every fragment is blank |
| `Fields.KeptAppend` | linkedin_scraper.py:93-95 | the comprehension preserves order: fragments of a later run come after those of an earlier run |
| `Fields.Normalize` | linkedin_scraper.py:93-95 | a Title/Company/Location value has no leading or trailing whitespace, and is `""` exactly when every fragment is blank |
| `Fields.NormalizeSingle` | linkedin_scraper.py:93-95 | a single fragment normalises to its stripped text |
| `Fields.NormalizeAppend` | linkedin_scraper.py:93-95 | the normalised field of two runs of fragments is the two normalised runs joined by one space, a blank run dropped; so the field is the stripped non-blank fragments in their original order |
| `Fields.NormalizeIdempotent` | linkedin_scraper.py:93-95 | normalising the one-element list of a normalised field gives the field back |
| `Fields.AbsoluteUrl` | linkedin_scraper.py:96 | the URL is `"N/A"` exactly when `href` is `None` or `""`; any other URL is `https://www.linkedin.com` followed by exactly the stripped link, so nothing after the origin is outer whitespace |
| `Fields.BlankLinkIsOrigin` | linkedin_scraper.py:96 | a whitespace-only link gives the bare origin |
| `Fields.AbsoluteUrlRoundTrip` | linkedin_scraper.py:96 | a non-empty relative path without outer whitespace is recovered from its URL by dropping the origin |
| `Fields.BuildPosting` | linkedin_scraper.py:91-98 | every record has Keyword equal to `KEYWORD` and Connection `"N/A"`; Title, Company and Location are the normalised fragments of their own locators and URL is the absolute form of the card's link, so the text fields have no outer whitespace and the URL is `"N/A"` or starts with the origin |
| `Fields.Entries` | linkedin_scraper.py:91-98 | the record dictionary has six entries whose keys are, in insertion order, the worksheet header's |
| `Fields.Keys` | linkedin_scraper.py:135 | `d.keys()` lists the keys in insertion order, one per entry |
| `Fields.Lookup` | linkedin_scraper.py:109 | `d[key]` has a value exactly when `key` is one of the dictionary's keys |
| `Fields.LookupFirst` | linkedin_scraper.py:109 | the value under a key is the one stored with its first occurrence |
| `Fields.Project` | linkedin_scraper.py:109 | the projection of a dictionary on a list of field names has one column per field name |
| `Fields.ProjectAt` | linkedin_scraper.py:109 | column `i` of the projection is the value under field name `i`, or `""` when the key is missing (`DictWriter`'s `restval`) |
| `Fields.DbRow` | linkedin_scraper.py:105-106 | the INSERT has one parameter per header column, and the record can be read back from them |
| `Fields.SheetRow` | linkedin_scraper.py:109 | the row appended to the worksheet for a record is the record's INSERT parameters |
| `Fields.EntriesKeys` | linkedin_scraper.py:45 | a record's keys come in the order of the worksheet header: Keyword, Title, Company, Location, URL, Connection |
| `Fields.LookupHeader` | linkedin_scraper.py:105-109 | looking up the i-th header key of a record gives the i-th parameter of its INSERT |
| `Fields.ProjectIsDbRow` | linkedin_scraper.py:102-109 | the CSV row of a record, written under any record's keys, equals its INSERT parameters |
| `Fields.FromDbRow` | linkedin_scraper.py:102-106 | a table row reads back as a record exactly when it has six columns |
| `SearchUrl.EncodeSpaces` | linkedin_scraper.py:60 | `s.replace(' ', '%20')` contains no space |
| `SearchUrl.EncodeSpacesLength` | linkedin_scraper.py:60 | the encoded length is the input length plus two per space |
| `SearchUrl.EncodeSpacesAppend` | linkedin_scraper.py:60 | encoding works character by character over a concatenation |
| `SearchUrl.EncodeSpacesChar` | linkedin_scraper.py:60 | a space becomes `%20` and every other character is kept unchanged |
| `SearchUrl.EncodeSpacesNoSpace` | linkedin_scraper.py:60 | text without spaces is unchanged |
| `SearchUrl.EncodeSpacesIdempotent` | linkedin_scraper.py:60 | encoding twice is encoding once |
| `SearchUrl.DecodeEncodeSpaces` | linkedin_scraper.py:60 | the inverse reading recovers any text without `%` from its encoding |
| `SearchUrl.PercentNotEscaped` | linkedin_scraper.py:60 | `%` is not escaped, so `" "` and `"%20"` encode alike |
| `SearchUrl.JobSearchUrl` | linkedin_scraper.py:60 | the search URL contains no space |
| `SearchUrl.JobSearchUrlLength` | linkedin_scraper.py:60 | the URL grows by two characters per space of keyword and location |
| `SearchUrl.JobSearchUrlLayout` | linkedin_scraper.py:60 | for every keyword and location, the URL is the search page and `?keywords=`, the encoded keyword, `&location=` and the encoded location, at fixed positions |
| `SearchUrl.JobSearchUrlSegments` | linkedin_scraper.py:60 | for a keyword without `&`, the first `&` after `?keywords=` ends exactly the encoded keyword |
| `SearchUrl.NoAmpersandKept` | linkedin_scraper.py:60 | encoding introduces no `&` |
| `SearchUrl.EncodeTwoWords` | linkedin_scraper.py:60 | two words around one space encode to the words around `%20` |
| `SearchUrl.ConfiguredKeywordSegment` | linkedin_scraper.py:10 | the configured keyword's segment is `Product%20Manager` |
| `SearchUrl.ConfiguredSearchUrl` | linkedin_scraper.py:10-11 | the URL the scraper opens with its configured keyword and location |
| `Pages.Observe` | linkedin_scraper.py:70 | only a page inside the script can show cards; any later page times out |
| `Pages.CardPostings` | linkedin_scraper.py:84-115 | a card gives one record when its extraction succeeds and none when it raises |
| `Pages.PagePostings` | linkedin_scraper.py:84-115 | a page gives at most one record per card |
| `Pages.PagePostingsAppend` | linkedin_scraper.py:84-115 | cards are processed independently and in order |
| `Pages.PagePostingsPrefix` | linkedin_scraper.py:84-115 | processing card `i` appends that card's records after those of the cards before it |
| `Pages.PagePostingsSingle` | linkedin_scraper.py:84-115 | a page of one card gives that card's records |
| `Pages.FailedCardAddsNothing` | linkedin_scraper.py:113-115 | a card whose extraction raises adds nothing, and the cards after it still add their records |
| `Pages.PagePostingsFromCards` | linkedin_scraper.py:84-100 | every record of a page is built from one of its successfully extracted cards, with Keyword `KEYWORD` and Connection `"N/A"` |
| `Pages.Collected` | linkedin_scraper.py:64-115 | `results` after pages 1 to `n`; pages beyond the script add nothing |
| `Pages.CollectedFromPages` | linkedin_scraper.py:64-115 | every collected record was contributed by one of the pages scraped |
| `Pages.LoopHalt` | linkedin_scraper.py:65-73 | the loop stops at or after the page it starts on, and never beyond `MAX_PAGES + 1` |
| `Pages.LoopHaltUnfold` | linkedin_scraper.py:117-129 | one loop step: a timeout stops the loop before the page is scraped; a click moves on; an invisible or raising next button stops it after the page |
| `Run.LoopHaltStops` | linkedin_scraper.py:65-73 | `current_page` grows by one only after each successful click; the loop stops at the page limit exactly when it reaches `MAX_PAGES + 1`, or on a timeout, an invisible next button or a pagination error, each as the last page shows |
| `Run.ExpectedRun` | linkedin_scraper.py:27-38 | the table after a run keeps every row earlier runs left and gains one row per record; with no record the CSV file is left as earlier runs left it |
| `Run.RunSinksAgree` | linkedin_scraper.py:131-140 | after a run that reaches the export, the saved worksheet is the header and then this run's table rows, each of those rows reads back as the record at the same position, and the CSV is rewritten exactly when a record was collected, with the header's keys as header and this run's table rows as rows; otherwise it is left as it was |
| `Run.RunBounded` | linkedin_scraper.py:67 | every run stops on a page from 1 to `MAX_PAGES + 1` and scrapes at most `MAX_PAGES` pages |
| `Run.FirstWaitTimesOut` | linkedin_scraper.py:69-73 | when the first wait times out, nothing is collected, the table keeps only its earlier rows, the worksheet holds only its header and the CSV is not rewritten |
| `Persistence.DbRows` | linkedin_scraper.py:102-107 | the table holds one row per record |
| `Persistence.DbRowsAt` | linkedin_scraper.py:102-107 | row `i` of the table is the INSERT of record `i` |
| `Persistence.ProjectAll` | linkedin_scraper.py:137 | `writerows` writes one row per record |
| `Persistence.ProjectAllAt` | linkedin_scraper.py:137 | row `i` written is record `i` projected on the field names |
| `Persistence.LockStepSameRows` | linkedin_scraper.py:100-109 | sinks in lock-step hold the same data: the worksheet is the header and then the rows this run inserted into the table, and each of those rows reads back as the record at the same position of `results` |
| `Persistence.SheetRowsAreDbRows` | linkedin_scraper.py:102-109 | the worksheet rows of a list of records are its table rows |
| `Persistence.Sinks.Table` | linkedin_scraper.py:27-38 | the `jobs` table is the rows earlier runs left, kept in front, followed by exactly the rows this run inserted |
| `Persistence.Sinks.constructor` | linkedin_scraper.py:27-45 | `CREATE TABLE IF NOT EXISTS` keeps the rows earlier runs left and this run has inserted none yet, the fresh worksheet starts with its header row, and `results` starts empty |
| `Persistence.Sinks.Persist` | linkedin_scraper.py:100-109 | appending a record adds it to the end of `results` and keeps the three sinks in lock-step, so the table gains the record's INSERT row and the worksheet its row |
| `Persistence.Sinks.ScrapeCards` | linkedin_scraper.py:84-115 | after the cards of a page, `results` has gained exactly the page's records in card order, and the sinks are in lock-step after every card |
| `Scraper.ScrapePages` | linkedin_scraper.py:64-129 | the page loop stops where `LoopHalt` says and leaves in the sinks exactly the records of the pages it scraped, in lock-step |
| `Scraper.RunScraper` | linkedin_scraper.py:64-140 | the whole run (page loop, sink writes, workbook save, CSV export only when a record was collected) produces, from the table rows and CSV file earlier runs left, exactly the outcome `Run.ExpectedRun` defines, so every lemma of `Run` holds of it |

## Left out

- Login, `goto`, `wait_for_selector`, `wait_for_timeout`, mouse-wheel scrolling and the locator queries (lines 47-62, 70, 76-89, 118-122) are browser calls. They are modelled only as the observations of the input script.
- The fixed sleeps and the 30-second timeout on the card wait are timing. The timeout appears as the "timed out" observation.
- The SQLite connection, the openpyxl workbook and the `csv` module (lines 27-45, 102-109, 131-137) are external libraries. Each sink is an append-only sequence of six-field rows, and every commit takes effect at once.
- `Persistence.Sinks.Persist`: assumes that the INSERT (lines 102-106), the commit (line 107) and the worksheet append (line 109) after `results.append` never raise. A raise is caught by the card's `except` (lines 113-115), and what it leaves depends on where it happens. If the INSERT raises, `results` is one record ahead of both the table and the worksheet. If the commit raises, the row is pending: the next card's commit stores it, and with no later commit it is lost when the connection closes. If the worksheet append raises, `results` and the table hold the record but the worksheet does not. In each case the lock-step invariant would not hold.
- `Fields.ProjectAt`: `csv.DictWriter` raises `ValueError` for a record with keys that are not field names. This case is not modelled because every record has the same six keys (`Fields.EntriesKeys`).
- A raise outside every `try` ends `run_scraper`. In every case the table keeps the rows committed so far, and what else it leaves depends on where the raise happens. A raise in the scrolling, `wait_for_timeout` or `page.locator(...).all()` calls (lines 76-81), or in `wb.save` (line 131), saves no workbook and leaves the CSV file of earlier runs as it was. A raise while opening or writing the CSV (lines 134-137) comes after the workbook was saved. Opening in `"w"` mode truncates the old file first, so that raise leaves the CSV empty or partly written. The input script has no such outcome, so `Run.RunSinksAgree` describes only runs that finish the export.
- Logging setup and every `logger` call (lines 17-23 and throughout) are output only.
- `asyncio` and `async with` (lines 1, 47, 146-147) add no concurrency: the model is sequential.
- The `credentials` module and the login step (lines 5, 52-57) hold secrets, and the login has no checked outcome.
- Closing the cursor, the connection and the browser (lines 142-144) releases resources and changes no output.
