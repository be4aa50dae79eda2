/** One job card turned into a record: the text-field normalisation, the
    absolute link, the record with its fixed keys, and the row each sink
    stores for it (linkedin_scraper.py lines 45, 91-109). */
module Fields {
  import opened Options
  import opened Text
  import Config

  /** The site origin that relative card links are appended to. */
  const ORIGIN: string := "https://www.linkedin.com"

  /** The placeholder for a missing link and for the never-scraped connection. */
  const NA: string := "N/A"

  /** The header row of the worksheet, and the keys a record is projected on
      when it is appended to the worksheet. */
  const HEADER: seq<string> := ["Keyword", "Title", "Company", "Location", "URL", "Connection"]

  /** What the four locator calls return for one card: the raw text fragments
      of the title, company and location elements, and the link's `href`
      attribute (`None` when the attribute is absent). */
  datatype CardTexts = CardTexts(
    titleRaw: seq<string>,
    companyRaw: seq<string>,
    locationRaw: seq<string>,
    href: Option<string>)

  /** One job posting, the dictionary built per card. */
  datatype JobPosting = JobPosting(
    keyword: string,
    title: string,
    company: string,
    location: string,
    url: string,
    connection: string)

  /** `[t.strip() for t in raw if t.strip()]`: the stripped fragments that are
      not empty, in their original order. */
  function Kept(raw: seq<string>): (r: seq<string>)
    ensures |r| <= |raw|
    ensures forall i :: 0 <= i < |r| ==> r[i] != "" && IsStripped(r[i])
  {
    if raw == [] then []
    else if Strip(raw[0]) != "" then [Strip(raw[0])] + Kept(raw[1..])
    else Kept(raw[1..])
  }

  /** Nothing is kept exactly when every fragment is blank. */
  lemma {:induction false} KeptEmpty(raw: seq<string>)
    ensures Kept(raw) == [] <==> forall j :: 0 <= j < |raw| ==> IsBlank(raw[j])
  {
    if raw != [] {
      KeptEmpty(raw[1..]);
      assert forall j :: 1 <= j < |raw| ==> raw[j] == raw[1..][j - 1];
    }
  }

  /** Keeping fragments distributes over concatenation: the fragments of a
      later run come after those of an earlier one. */
  lemma {:induction false} KeptAppend(a: seq<string>, b: seq<string>)
    ensures Kept(a + b) == Kept(a) + Kept(b)
  {
    if a == [] {
      assert a + b == b;
    } else {
      assert (a + b)[0] == a[0] && (a + b)[1..] == a[1..] + b;
      KeptAppend(a[1..], b);
    }
  }

  /** `" ".join([t.strip() for t in raw if t.strip()])`: the normalised value
      of one text field. It has no outer whitespace and it is empty exactly
      when every fragment is blank. */
  function Normalize(raw: seq<string>): (r: string)
    ensures IsStripped(r)
    ensures r == "" <==> forall j :: 0 <= j < |raw| ==> IsBlank(raw[j])
  {
    JoinSpacesStripped(Kept(raw));
    KeptEmpty(raw);
    JoinSpaces(Kept(raw))
  }

  /** A single fragment normalises to its stripped text. */
  lemma NormalizeSingle(t: string)
    ensures Normalize([t]) == Strip(t)
  {
    assert [t][1..] == [];
  }

  /** Normalising two runs of fragments one after the other gives the two
      normalised runs joined by one space, dropping whichever run is blank:
      together with NormalizeSingle this says the field is the stripped,
      non-blank fragments in their original order separated by single spaces. */
  lemma NormalizeAppend(a: seq<string>, b: seq<string>)
    ensures Normalize(a + b) ==
      if Normalize(a) == "" then Normalize(b)
      else if Normalize(b) == "" then Normalize(a)
      else Normalize(a) + " " + Normalize(b)
  {
    KeptAppend(a, b);
    JoinSpacesAppend(Kept(a), Kept(b));
    JoinSpacesStripped(Kept(a));
    JoinSpacesStripped(Kept(b));
  }

  /** A normalised field normalises to itself when it is the only fragment. */
  lemma NormalizeIdempotent(raw: seq<string>)
    ensures Normalize([Normalize(raw)]) == Normalize(raw)
  {
    NormalizeSingle(Normalize(raw));
    StripStripped(Normalize(raw));
  }

  /** `f"https://www.linkedin.com{url.strip()}" if url else "N/A"`: a missing or
      empty link gives the placeholder, any other link the origin followed by
      the stripped link. */
  function AbsoluteUrl(href: Option<string>): (r: string)
    ensures r == NA <==> href == None || href == Some("")
    ensures r != NA ==> |ORIGIN| <= |r| && r[..|ORIGIN|] == ORIGIN && IsStripped(r[|ORIGIN|..])
    ensures href.Some? && href.value != "" ==> r[|ORIGIN|..] == Strip(href.value)
  {
    if href.Some? && href.value != "" then
      assert (ORIGIN + Strip(href.value))[..|ORIGIN|] == ORIGIN;
      assert (ORIGIN + Strip(href.value))[|ORIGIN|..] == Strip(href.value);
      ORIGIN + Strip(href.value)
    else NA
  }

  /** A link made only of whitespace is present but strips to nothing, so the
      URL is the bare origin. */
  lemma BlankLinkIsOrigin(href: string)
    requires href != "" && IsBlank(href)
    ensures AbsoluteUrl(Some(href)) == ORIGIN
  {
  }

  /** A non-empty relative path without outer whitespace is recovered from its
      absolute URL by dropping the origin. */
  lemma AbsoluteUrlRoundTrip(path: string)
    requires path != "" && IsStripped(path)
    ensures AbsoluteUrl(Some(path))[|ORIGIN|..] == path
  {
    StripStripped(path);
  }

  /** The record built from one card's texts: each text field is the
      normalised form of its own locator's fragments and the URL is the
      absolute form of the card's link. */
  function BuildPosting(c: CardTexts): (p: JobPosting)
    ensures p.keyword == Config.KEYWORD && p.connection == NA
    ensures p.title == Normalize(c.titleRaw) && p.company == Normalize(c.companyRaw)
    ensures p.location == Normalize(c.locationRaw) && p.url == AbsoluteUrl(c.href)
    ensures IsStripped(p.title) && IsStripped(p.company) && IsStripped(p.location)
    ensures p.url == NA || (|ORIGIN| <= |p.url| && p.url[..|ORIGIN|] == ORIGIN)
  {
    JobPosting(
      Config.KEYWORD,
      Normalize(c.titleRaw),
      Normalize(c.companyRaw),
      Normalize(c.locationRaw),
      AbsoluteUrl(c.href),
      NA)
  }

  /** The record as the dictionary it is in the scraper: its (key, value)
      pairs in insertion order. */
  function Entries(p: JobPosting): (e: seq<(string, string)>)
    ensures |e| == |HEADER|
    ensures forall i :: 0 <= i < |e| ==> e[i].0 == HEADER[i]
  {
    [("Keyword", p.keyword), ("Title", p.title), ("Company", p.company),
     ("Location", p.location), ("URL", p.url), ("Connection", p.connection)]
  }

  /** `d.keys()`, in insertion order. */
  function Keys(entries: seq<(string, string)>): (ks: seq<string>)
    ensures |ks| == |entries|
    ensures forall i :: 0 <= i < |ks| ==> ks[i] == entries[i].0
  {
    if entries == [] then [] else [entries[0].0] + Keys(entries[1..])
  }

  /** `d[key]`: the value stored under `key`, if any. For a repeated key this
      reads its first occurrence, where a Python dict literal keeps the last;
      the records here never repeat a key (`EntriesKeys`), so the two agree. */
  function Lookup(entries: seq<(string, string)>, key: string): (v: Option<string>)
    ensures v.Some? <==> key in Keys(entries)
  {
    if entries == [] then None
    else if entries[0].0 == key then Some(entries[0].1)
    else Lookup(entries[1..], key)
  }

  /** The value under a key is the one paired with its first occurrence. */
  lemma {:induction false} LookupFirst(entries: seq<(string, string)>, i: nat)
    requires i < |entries|
    requires forall j :: 0 <= j < i ==> entries[j].0 != entries[i].0
    ensures Lookup(entries, entries[i].0) == Some(entries[i].1)
  {
    if i > 0 {
      assert entries[0].0 != entries[i].0;
      assert forall j :: 0 <= j < i - 1 ==> entries[1..][j] == entries[j + 1];
      LookupFirst(entries[1..], i - 1);
    }
  }

  /** The values of one dictionary listed in the order of `fieldnames`; a key
      the dictionary lacks gives the empty string. This is both the worksheet
      projection and what `csv.DictWriter` writes for one record. */
  function Project(fieldnames: seq<string>, entries: seq<(string, string)>): (row: seq<string>)
    ensures |row| == |fieldnames|
  {
    if fieldnames == [] then []
    else [Lookup(entries, fieldnames[0]).GetOr("")] + Project(fieldnames[1..], entries)
  }

  /** Column `i` of a projection is the value under field name `i`, or the
      empty string when the dictionary has no such key. */
  lemma {:induction false} ProjectAt(fieldnames: seq<string>, entries: seq<(string, string)>, i: nat)
    requires i < |fieldnames|
    ensures Project(fieldnames, entries)[i] == Lookup(entries, fieldnames[i]).GetOr("")
  {
    if i > 0 {
      ProjectAt(fieldnames[1..], entries, i - 1);
    }
  }

  /** The parameters bound to the `INSERT INTO jobs (keyword, title, company,
      location, url, connection)` statement. */
  function DbRow(p: JobPosting): (row: seq<string>)
    ensures |row| == |HEADER|
    ensures FromDbRow(row) == Some(p)
  {
    [p.keyword, p.title, p.company, p.location, p.url, p.connection]
  }

  /** The row appended to the worksheet for one record: the record's values
      in header order, which are the parameters of its INSERT. */
  function SheetRow(p: JobPosting): (row: seq<string>)
    ensures row == DbRow(p)
  {
    EntriesKeys(p);
    ProjectIsDbRow(p, p);
    Project(HEADER, Entries(p))
  }

  /** The record's keys come in the order of the worksheet header. */
  lemma EntriesKeys(p: JobPosting)
    ensures Keys(Entries(p)) == HEADER
  {
  }

  /** Looking up the i-th header key of a record gives the i-th column of its
      database row. */
  lemma LookupHeader(p: JobPosting, i: nat)
    requires i < 6
    ensures Lookup(Entries(p), HEADER[i]) == Some(DbRow(p)[i])
  {
    var e := Entries(p);
    assert e[i].0 == HEADER[i];
    if i == 2 {
      assert "Keyword"[0] != "Company"[0];
    }
    LookupFirst(e, i);
  }

  /** Projecting any record on any record's keys gives its database row: the
      worksheet row and the delimited-text row of a record are its database
      row, field for field. */
  lemma ProjectIsDbRow(q: JobPosting, p: JobPosting)
    ensures Project(Keys(Entries(q)), Entries(p)) == DbRow(p)
  {
    EntriesKeys(q);
    var row := Project(HEADER, Entries(p));
    forall i | 0 <= i < 6
      ensures row[i] == DbRow(p)[i]
    {
      ProjectAt(HEADER, Entries(p), i);
      LookupHeader(p, i);
    }
  }

  /** The record read back from a database row. */
  function FromDbRow(row: seq<string>): (p: Option<JobPosting>)
    ensures p.Some? <==> |row| == 6
  {
    if |row| == 6 then Some(JobPosting(row[0], row[1], row[2], row[3], row[4], row[5])) else None
  }
}
