/** The page loop of linkedin_scraper.py (lines 64-129) as a function of
    what the browser shows: the observations the loop reacts to, the records
    each page yields, and where the loop stops. */
module Pages {
  import opened Options
  import opened Fields
  import opened Config

  /** One card of a result page: the four locator calls either all return,
      or one of them raises and the card is skipped. */
  datatype CardObs = Extracted(texts: CardTexts) | ExtractionFailed

  /** The pagination step: the "View next page" button is visible and the
      click succeeds, the button is not visible, or locating, checking or
      clicking it raises. */
  datatype NextButton = NextClicked | NextNotVisible | NextRaised

  /** What the loop sees on one page: the wait for result cards times out,
      or the cards present after scrolling and the pagination outcome. */
  datatype PageObs = WaitTimedOut | CardsLoaded(cards: seq<CardObs>, next: NextButton)

  /** The browser session after login and navigation, as a script: entry
      `k` is what result page `k + 1` shows when the loop reaches it. */
  type Script = seq<PageObs>

  /** What page `page` shows. No result card ever appears on a page beyond
      the script, so its wait times out; a script of MAX_PAGES entries
      therefore covers every run. */
  function Observe(script: Script, page: nat): (obs: PageObs)
    ensures obs.CardsLoaded? ==> 1 <= page <= |script|
  {
    if 1 <= page <= |script| then script[page - 1] else WaitTimedOut
  }

  /** Why the page loop ended. */
  datatype StopReason = StopPageLimit | StopTimedOut | StopNoNextPage | StopPaginationError

  /** Where the page loop ended: `current_page` at exit and the exit taken. */
  datatype Halt = Halt(lastPage: nat, stop: StopReason)

  /** The record a card contributes: one when its extraction succeeds,
      none when it fails. */
  function CardPostings(c: CardObs): (r: seq<JobPosting>)
    ensures |r| == if c.Extracted? then 1 else 0
  {
    match c
    case Extracted(t) => [BuildPosting(t)]
    case ExtractionFailed => []
  }

  /** The records a page's cards contribute, in card order. */
  function PagePostings(cards: seq<CardObs>): (r: seq<JobPosting>)
    ensures |r| <= |cards|
  {
    if cards == [] then []
    else PagePostings(cards[..|cards| - 1]) + CardPostings(cards[|cards| - 1])
  }

  /** Cards are processed independently: the records of a run of cards are
      those of its first part followed by those of the rest. */
  lemma {:induction false} PagePostingsAppend(a: seq<CardObs>, b: seq<CardObs>)
    ensures PagePostings(a + b) == PagePostings(a) + PagePostings(b)
  {
    if b == [] {
      assert a + b == a;
    } else {
      assert (a + b)[..|a + b| - 1] == a + b[..|b| - 1];
      PagePostingsAppend(a, b[..|b| - 1]);
    }
  }

  /** Scanning the cards left to right: the first `i + 1` cards contribute
      the records of the first `i` and then those of card `i`. */
  lemma PagePostingsPrefix(cards: seq<CardObs>, i: nat)
    requires i < |cards|
    ensures PagePostings(cards[..i + 1]) == PagePostings(cards[..i]) + CardPostings(cards[i])
  {
    assert cards[..i + 1][..i] == cards[..i];
  }

  /** A page of one card contributes that card's records. */
  lemma PagePostingsSingle(c: CardObs)
    ensures PagePostings([c]) == CardPostings(c)
  {
    assert [c][..0] == [];
  }

  /** A card whose extraction fails adds nothing, wherever it stands, and the
      cards after it still contribute their records. */
  lemma FailedCardAddsNothing(a: seq<CardObs>, b: seq<CardObs>)
    ensures PagePostings(a + [ExtractionFailed] + b) == PagePostings(a) + PagePostings(b)
  {
    var failed := ExtractionFailed;
    PagePostingsAppend(a + [failed], b);
    PagePostingsAppend(a, [failed]);
    PagePostingsSingle(failed);
  }

  /** Every record of a page comes from a successfully extracted card of it,
      and carries the configured keyword and the connection placeholder. */
  lemma {:induction false} PagePostingsFromCards(cards: seq<CardObs>)
    ensures forall p :: p in PagePostings(cards) ==>
      p.keyword == KEYWORD && p.connection == NA &&
      exists i :: 0 <= i < |cards| && cards[i].Extracted? && p == BuildPosting(cards[i].texts)
  {
    if cards != [] {
      var front := cards[..|cards| - 1];
      PagePostingsFromCards(front);
      forall p | p in PagePostings(cards)
        ensures exists i :: 0 <= i < |cards| && cards[i].Extracted? && p == BuildPosting(cards[i].texts)
      {
        if p in PagePostings(front) {
          var i :| 0 <= i < |front| && front[i].Extracted? && p == BuildPosting(front[i].texts);
          assert cards[i] == front[i];
        } else {
          assert cards[|cards| - 1].Extracted? && p == BuildPosting(cards[|cards| - 1].texts);
        }
      }
    }
  }

  /** Where the page loop stops when it reaches page `page`: at the page
      limit, at a page whose wait times out, or at a page whose next button
      is not visible or raises; a successful click moves on to the next page.
      Where it stops depends on the pages' outcomes only, never on the
      records collected. */
  function LoopHalt(script: Script, page: nat): (h: Halt)
    ensures page <= h.lastPage
    ensures page <= MAX_PAGES + 1 ==> h.lastPage <= MAX_PAGES + 1
    decreases MAX_PAGES + 1 - page
  {
    if page > MAX_PAGES then Halt(page, StopPageLimit)
    else
      match Observe(script, page)
      case WaitTimedOut => Halt(page, StopTimedOut)
      case CardsLoaded(_, next) =>
        match next
        case NextClicked => LoopHalt(script, page + 1)
        case NextNotVisible => Halt(page, StopNoNextPage)
        case NextRaised => Halt(page, StopPaginationError)
  }

  /** One step of the loop at a page it enters: a timed-out wait stops it
      before the page is scraped, a visible and clicked next button moves it
      on, and any other pagination outcome stops it after the page. */
  lemma LoopHaltUnfold(script: Script, page: nat)
    requires 1 <= page <= MAX_PAGES
    ensures var obs, h := Observe(script, page), LoopHalt(script, page);
      (obs.WaitTimedOut? ==> h == Halt(page, StopTimedOut) && PagesScraped(h) == page - 1) &&
      (obs.CardsLoaded? ==> Collected(script, page) == Collected(script, page - 1) + PagePostings(obs.cards)) &&
      (obs.CardsLoaded? && obs.next == NextClicked ==> h == LoopHalt(script, page + 1)) &&
      (obs.CardsLoaded? && obs.next == NextNotVisible ==> h == Halt(page, StopNoNextPage) && PagesScraped(h) == page) &&
      (obs.CardsLoaded? && obs.next == NextRaised ==> h == Halt(page, StopPaginationError) && PagesScraped(h) == page)
  {
  }

  /** The records of pages 1 to `n`, in page order. A page beyond the
      script contributes nothing, so the records stop growing there. */
  function Collected(script: Script, n: nat): (r: seq<JobPosting>)
    ensures n >= |script| ==> r == Collected(script, |script|)
  {
    if n == 0 then [] else Collected(script, n - 1) + PagePostings(PageCards(Observe(script, n)))
  }

  /** Every collected record was contributed by one of pages 1 to `n`. */
  lemma {:induction false} CollectedFromPages(script: Script, n: nat, p: JobPosting)
    requires p in Collected(script, n)
    ensures exists page :: 1 <= page <= n && p in PagePostings(PageCards(Observe(script, page)))
  {
    var last := PagePostings(PageCards(Observe(script, n)));
    assert Collected(script, n) == Collected(script, n - 1) + last;
    if p !in last {
      CollectedFromPages(script, n - 1, p);
    }
  }

  /** The cards of a page; none when the wait for them timed out. */
  function PageCards(obs: PageObs): seq<CardObs> {
    if obs.CardsLoaded? then obs.cards else []
  }

  /** The number of pages whose cards were processed: every page before the
      last, and the last too unless the loop stopped before scraping it. */
  function PagesScraped(h: Halt): nat
    requires h.lastPage >= 1
  {
    if h.stop == StopNoNextPage || h.stop == StopPaginationError then h.lastPage else h.lastPage - 1
  }
}
