/** The older single-browser RecordOwl scraper: search by UEN, read the
    company page's links, phone and email, and collect one row per company
    (a placeholder when the search finds nothing, nothing at all when the
    company page cannot be read).  Its progress line divides by the number
    of rows so far, which the first company can leave at zero; the loop is
    modelled both as written and with that report guarded. */
module OwlLegacy {
  import opened Wrappers
  import opened Seqs
  import opened LinkRule

  /** Rows between two progress lines. */
  const ProgressEvery: nat := 25

  /** What `search_uen` sees: the page raised, no company link appeared
      within the wait, or a link with its `href` (possibly absent). */
  datatype SearchOutcome = SearchRaised | NoLinkFound | LinkFound(href: Option<string>)

  /** `search_uen`: the company link's `href`, `None` on every failure. */
  function SearchUen(o: SearchOutcome): (url: Option<string>)
    ensures url.Some? <==> o.LinkFound? && o.href.Some?
    ensures url.Some? ==> url == o.href
  {
    if o.LinkFound? then o.href else None
  }

  /** `if company_url:` — an absent or empty link counts as not found. */
  predicate Truthy(url: Option<string>) { url.Some? && url.value != [] }

  /** The body text's first matches of the phone and email patterns, or no
      body element (each lookup swallows that and leaves its field unset). */
  datatype Body = BodyMissing | Body(phoneMatch: Option<string>, emailMatch: Option<string>)

  /** The company page: opening it raised, or its links and body. */
  datatype CompanyPage = PageRaised | Page(scan: LinkScan, body: Body)

  /** The eight-key result dict. */
  datatype LegacyRow = LegacyRow(uen: string, companyName: string, recordowlUrl: Option<string>,
                                 website: Option<string>, phone: Option<string>, email: Option<string>,
                                 address: Option<string>, industry: Option<string>)

  /** `scrape_company_data`: `None` when the page raised, otherwise the row
      with the first link passing the older rule, the phone and email
      matches, and the address and industry never filled in. */
  function ScrapeCompanyData(url: string, uen: string, name: string, page: CompanyPage): (r: Option<LegacyRow>)
    ensures r.None? <==> page.PageRaised?
    ensures r.Some? ==> r.value.uen == uen && r.value.companyName == name && r.value.recordowlUrl == Some(url)
    ensures r.Some? ==> r.value.address.None? && r.value.industry.None?
    ensures r.Some? ==> r.value.website == ScanWebsite(page.scan, LegacyPlausible)
    ensures r.Some? && r.value.website.Some? ==> LegacyPlausible(r.value.website.value)
    ensures r.Some? && page.body.BodyMissing? ==> r.value.phone.None? && r.value.email.None?
    ensures r.Some? && page.body.Body? ==> r.value.phone == page.body.phoneMatch && r.value.email == page.body.emailMatch
  {
    match page
    case PageRaised => None
    case Page(scan, body) =>
      var phone := if body.Body? then body.phoneMatch else None;
      var email := if body.Body? then body.emailMatch else None;
      Some(LegacyRow(uen, name, Some(url), ScanWebsite(scan, LegacyPlausible), phone, email, None, None))
  }

  /** The row written for a company the search did not find. */
  function Placeholder(uen: string, name: string): (r: LegacyRow)
    ensures r.uen == uen && r.companyName == name
    ensures r.recordowlUrl.None? && r.website.None? && r.phone.None? && r.email.None?
    ensures r.address.None? && r.industry.None?
  {
    LegacyRow(uen, name, None, None, None, None, None, None)
  }

  datatype Input = Input(uen: string, entityName: string)

  /** What one company adds to the results: its row, or nothing when the
      link was found but the page could not be read. */
  function RowStep(r: Input, search: SearchOutcome, page: CompanyPage): (row: Option<LegacyRow>)
    ensures !Truthy(SearchUen(search)) ==> row == Some(Placeholder(r.uen, r.entityName))
    ensures row.None? <==> Truthy(SearchUen(search)) && page.PageRaised?
    ensures row.Some? ==> row.value.uen == r.uen && row.value.companyName == r.entityName
    ensures Truthy(SearchUen(search)) ==> row == ScrapeCompanyData(SearchUen(search).value, r.uen, r.entityName, page)
  {
    var url := SearchUen(search);
    if Truthy(url) then ScrapeCompanyData(url.value, r.uen, r.entityName, page)
    else Some(Placeholder(r.uen, r.entityName))
  }

  /** The values of the present entries, in order. */
  function Present<R>(xs: seq<Option<R>>): (r: seq<R>)
    ensures |r| <= |xs|
  {
    if xs == [] then []
    else if xs[0].Some? then [xs[0].value] + Present(xs[1..])
    else Present(xs[1..])
  }

  lemma {:induction false} PresentAppend<R>(xs: seq<Option<R>>, x: Option<R>)
    ensures Present(xs + [x]) == Present(xs) + (if x.Some? then [x.value] else [])
    decreases |xs|
  {
    if xs == [] {
      assert [x][1..] == [];
    } else {
      assert (xs + [x])[1..] == xs[1..] + [x];
      PresentAppend(xs[1..], x);
    }
  }

  /** The loop with the progress report guarded: the results of the
      first `n` steps. */
  function Collect<R>(step: nat -> Option<R>, n: nat): seq<R> {
    if n == 0 then []
    else
      var res := Collect(step, n - 1);
      if step(n - 1).Some? then res + [step(n - 1).value] else res
  }

  /** The first `n` outcomes, as a sequence. */
  function Steps<R>(step: nat -> Option<R>, n: nat): (s: seq<Option<R>>)
    ensures |s| == n && forall i :: 0 <= i < n ==> s[i] == step(i)
  {
    seq(n, (i: int) requires 0 <= i < n => step(i))
  }

  /** The loop keeps exactly the present outcomes, in order. */
  lemma {:induction false} CollectPresent<R>(step: nat -> Option<R>, n: nat)
    ensures Collect(step, n) == Present(Steps(step, n))
    decreases n
  {
    if n == 0 {
      assert Steps(step, 0) == [];
    } else {
      CollectPresent(step, n - 1);
      assert Steps(step, n) == Steps(step, n - 1) + [step(n - 1)];
      PresentAppend(Steps(step, n - 1), step(n - 1));
    }
  }

  /** The loop as written: after each company, when the number of rows is
      a multiple of 25, the progress line divides by that number, so a row
      count of zero raises `ZeroDivisionError` (`None`), which nothing in
      the script catches. */
  function CollectAsWritten<R>(step: nat -> Option<R>, n: nat): Option<seq<R>> {
    if n == 0 then Some([])
    else
      match CollectAsWritten(step, n - 1)
      case None => None
      case Some(res) =>
        var res' := if step(n - 1).Some? then res + [step(n - 1).value] else res;
        if |res'| % ProgressEvery == 0 && |res'| == 0 then None else Some(res')
  }

  /** The loop as written fails exactly when the first company adds no row,
      and otherwise agrees with the guarded loop. */
  lemma {:induction false} CollectAsWrittenAgrees<R>(step: nat -> Option<R>, n: nat)
    ensures CollectAsWritten(step, n).None? <==> n > 0 && step(0).None?
    ensures CollectAsWritten(step, n).Some? ==> CollectAsWritten(step, n).value == Collect(step, n)
    ensures n > 0 && step(0).Some? ==> |Collect(step, n)| > 0
    decreases n
  {
    if n > 0 {
      CollectAsWrittenAgrees(step, n - 1);
    }
  }

  /** The step of company `i` of the subset. */
  function StepAt(subset: seq<Input>, search: nat -> SearchOutcome, page: nat -> CompanyPage): nat -> Option<LegacyRow> {
    (i: nat) => if i < |subset| then RowStep(subset[i], search(i), page(i)) else None
  }

  /** `process_batch` with the progress report guarded: over rows
      `start .. start + num`, the rows of the companies that add one, in
      order; never more rows than companies. */
  function ProcessBatch(rows: seq<Input>, num: nat, start: nat, search: nat -> SearchOutcome,
                        page: nat -> CompanyPage): (out: seq<LegacyRow>)
    ensures var subset := Slice(rows, start, start + num);
      |out| <= |subset| &&
      out == Present(Steps(StepAt(subset, search, page), |subset|))
  {
    var subset := Slice(rows, start, start + num);
    CollectPresent(StepAt(subset, search, page), |subset|);
    Collect(StepAt(subset, search, page), |subset|)
  }

  /** `process_batch` as written: `None` stands for the uncaught
      `ZeroDivisionError`. */
  function ProcessBatchAsWritten(rows: seq<Input>, num: nat, start: nat, search: nat -> SearchOutcome,
                                 page: nat -> CompanyPage): (out: Option<seq<LegacyRow>>)
    ensures var subset := Slice(rows, start, start + num);
      (out.None? <==> subset != [] && Truthy(SearchUen(search(0))) && page(0).PageRaised?) &&
      (out.Some? ==> out.value == ProcessBatch(rows, num, start, search, page))
  {
    var subset := Slice(rows, start, start + num);
    CollectAsWrittenAgrees(StepAt(subset, search, page), |subset|);
    CollectAsWritten(StepAt(subset, search, page), |subset|)
  }

  /** A batch whose first company has a link but an unreadable page: the
      script as written raises before writing anything, while the guarded
      loop returns the (empty) results. */
  lemma FirstPageUnreadable(search: nat -> SearchOutcome, page: nat -> CompanyPage)
    requires search(0) == LinkFound(Some("https://recordowl.com/company/a"))
    requires page(0) == PageRaised
    ensures ProcessBatchAsWritten([Input("201900001A", "A PTE. LTD.")], 1, 0, search, page).None?
    ensures ProcessBatch([Input("201900001A", "A PTE. LTD.")], 1, 0, search, page) == []
  {
    var rows := [Input("201900001A", "A PTE. LTD.")];
    assert Slice(rows, 0, 1) == rows;
    var step := StepAt(rows, search, page);
    assert step(0).None?;
    assert Steps(step, 1) == [step(0)];
    assert Present(Steps(step, 1)) == Present(Steps(step, 1)[1..]);
  }
}
