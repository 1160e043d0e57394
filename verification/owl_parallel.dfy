/** The parallel RecordOwl scraper: the first rows of the input are split
    into contiguous chunks, one per worker; each worker whose browser starts
    scrapes every company of its chunk once (no retries), always producing a
    four-field row; a monitor writes checkpoints as the shared count grows.
    Each attempt's outcome is an input, indexed by the company's position in
    the scraped rows. */
module OwlParallel {
  import opened Wrappers
  import opened Text
  import opened Seqs
  import opened Retry
  import opened LinkRule
  import opened Batch

  datatype Input = Input(uen: string, entityName: string)

  /** The four-key result dict. */
  datatype Row = Row(uen: string, companyName: string, companyLink: Option<string>, website: Option<string>)

  /** `scrape_company`: one attempt; a missing link and every exception give
      the row with no link and no website, so a row always comes back. The
      attempt's page is the list of `href`s (absent or present) of the
      page's links; reading them can raise, which is `Crashed`. */
  function ScrapeCompany(r: Input, a: Attempt<seq<Option<string>>>): (row: Row)
    ensures row.uen == r.uen && row.companyName == r.entityName
    ensures row.companyLink.Some? <==> a.Loaded?
    ensures a.Loaded? ==> row.companyLink == Some(a.link) && row.website == FirstWebsite(a.page, Plausible)
    ensures !a.Loaded? ==> row.website.None?
    ensures row.website.Some? ==> Plausible(row.website.value)
  {
    match a
    case Loaded(link, hrefs) =>
      var w := FirstWebsite(hrefs, Plausible);
      assert w.Some? ==> Plausible(w.value) by {
        if w.Some? {
          var i :| FirstPassingAt(hrefs, Plausible, i) && hrefs[i] == w;
        }
      }
      Row(r.uen, r.entityName, Some(link), w)
    case _ => Row(r.uen, r.entityName, None, None)
  }

  /** The row of the company at position `i` of the scraped rows, from the
      attempt at that position. */
  function Scraper(attempt: nat -> Attempt<seq<Option<string>>>): (Input, nat) -> Row {
    (r: Input, i: nat) => ScrapeCompany(r, attempt(i))
  }

  /** The shared result list of `parallel_scrape(df, num_companies,
      num_workers)`, with the workers' rows taken worker by worker: the
      rows of the chunks whose browser started, so never a row that is not
      some scraped company's row, in input order; and when every browser
      starts, exactly one row per scraped company, in input order, as if
      there were one worker. */
  method ParallelScrape(df: seq<Input>, numCompanies: nat, numWorkers: nat,
                        started: nat -> bool, attempt: nat -> Attempt<seq<Option<string>>>)
    returns (results: seq<Row>)
    requires numWorkers > 0
    ensures results == WorkersRows(Chunks(Take(df, numCompanies), numWorkers), started, Scraper(attempt))
    ensures IsSubseq(results, WorkerRows(Take(df, numCompanies), 0, true, Scraper(attempt)))
    ensures forall j :: 0 <= j < |results| ==> results[j] in WorkerRows(Take(df, numCompanies), 0, true, Scraper(attempt))
    ensures |results| <= |Take(df, numCompanies)|
    ensures (forall w :: 0 <= w < numWorkers ==> started(w)) ==>
      |results| == |Take(df, numCompanies)| &&
      forall i :: 0 <= i < |results| ==> results[i] == ScrapeCompany(df[i], attempt(i))
  {
    var subset := Take(df, numCompanies);
    results := RunWorkers(subset, numWorkers, started, Scraper(attempt));
    forall j | 0 <= j < |results|
      ensures results[j] in WorkerRows(subset, 0, true, Scraper(attempt))
    {
      SubseqIn(results, WorkerRows(subset, 0, true, Scraper(attempt)), j);
    }
  }

  /** The columns of the final frame, also when no row was collected. */
  const Columns: seq<string> := ["uen", "company_name", "company_link", "website"]
}
