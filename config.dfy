/** The run configuration, fixed as module-level constants in the scraper. */
module Config {

  /** The search term; also stored in every record's `Keyword` field. */
  const KEYWORD: string := "Product Manager"

  /** The search location. */
  const LOCATION: string := "India"

  /** The page loop runs while the current page number is at most this. */
  const MAX_PAGES: nat := 10
}
