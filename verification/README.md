# Company-website scraping pipeline: a Dafny model of its deterministic core

The repository is a set of Python scripts. Together they build a list of
Singapore companies: ACRA registry extracts, RecordOwl and companies.sg
profiles, guessed domains, and scraped company websites. Most of the code
drives browsers, calls HTTP APIs or reads and writes CSV files. This project
models the pure logic under that plumbing, and proves what each piece
promises:

- **String normalisers.** The domain stem and its six domain guesses, the
  HTML file-name slug, the companies.sg URL, and whitespace collapse.
- **Selectors over found candidates.** The social-link post-filters, email
  and phone priority, the meta-tag fallback chain, the three variants of the
  "first plausible company website" rule, dt/dd and span/label lookups, and
  the stock-table row mapping.
- **List-level operations.** Keep-first de-duplication by UEN, the ACRA row
  filter, stop-at-target accumulation with truncation, and the dataset-id
  map.
- **Batch runners.** Bounded retries with one counter shared across
  navigation steps, one result row per input row, and the one runner that
  can drop rows. Also checkpoint cadence and naming, a browser restart every
  50 companies, contiguous chunking across workers, and the checkpoint
  watermark.

The browser, the network, the regex engine, BeautifulSoup and
`pd.to_datetime` all become inputs:

- a list of regex matches;
- a list of page elements;
- an outcome datatype for navigation;
- a function from attempt number (or row index) to outcome.

Shared modules:

- `Wrappers`: `Option`.
- `Text`: Python's `str.isspace` set, ASCII case mapping, `in`, `strip`.
- `Seqs`: filter, map, subsequence, slice, flatten.
- `Batch`: checkpoints, chunks, the restart arithmetic and the watermark.
- `Retry`: the decisive attempt of the `retry < max_retries` recursion.
- `LinkRule`: the website-link rules.

Each script has its own module:

| module | script |
|---|---|
| `DomainGuess` | `scripts/acra/find_websites_directories.py` |
| `WebsiteScraper` | `scripts/scrape_websites/1_website_scraper.py` |
| `Dedup` | `scripts/merge_csv.py` |
| `Stocks` | `scripts/stocks/2_extract_stocks.py` |
| `CompaniesSg` | `scripts/companies_sg/1_sg_scraper.py` |
| `AcraIds` | `scripts/acra/get_acra_urls.py` |
| `AcraExtract` | `scripts/acra/extract_acra.py` |
| `OwlMulti` | `scripts/record0wld/multithread_recirdowl.py` |
| `OwlParallel` | `scripts/record0wld/recordowl_parallel.py` |
| `OwlSimple` | `scripts/record0wld/recordowl_simple.py` |
| `OwlLegacy` | `scripts/record0wld/recordowl_scraper.py` |

Where the code differs from what its comments and names suggest, the model
follows the code:

- `extract_acra.py` `main` does not filter. The `filter_data` call is
  commented out, so `ExtractAcra` accumulates unfiltered frames.
  `FilterData` is modelled on its own. The identical `filter_data` of the
  multithreaded RecordOwl scraper is the same function.
- In the multithreaded RecordOwl scraper, a browser restart whose second
  attempt also fails raises out of `worker_thread`. That ends the thread:
  the thread's remaining companies get no row at all, not a fallback row.
- In the companies.sg loop, a skipped row `continue`s before the save check.
  So the save at index `i` fires only when row `i` itself was kept.

## Model

| member | source | states |
|---|---|---|
| DomainGuess.CleanCompanyName | scripts/acra/find_websites_directories.py:24-36 | NaN gives the empty stem; every character of a stem is a lower-case ASCII letter or digit |
| DomainGuess.CleanIsAlnumLower | scripts/acra/find_websites_directories.py:29-35 | the three regex passes equal "strip, drop one legal suffix, keep the ASCII letters and digits, lower-case" |
| DomainGuess.DropLegalSuffix | scripts/acra/find_websites_directories.py:31 | a name is unchanged unless it ends in a whitespace-preceded legal-form word, which is then removed together with the whitespace before it |
| DomainGuess.OneSuffixOnly | scripts/acra/find_websites_directories.py:31 | only one suffix is removed: "ABC PTE LTD" becomes "abcpte" |
| DomainGuess.CleanIdempotent | scripts/acra/find_websites_directories.py:29-35 | cleaning a stem again changes nothing |
| DomainGuess.StemIsFixed | scripts/acra/find_websites_directories.py:29-35 | any string of lower-case ASCII letters and digits is its own stem: no whitespace to strip, no suffix to drop, nothing to remove or lower-case |
| DomainGuess.DomainVariations | scripts/acra/find_websites_directories.py:39-56 | no guesses exactly when the stem is shorter than 3; otherwise six, n.com.sg, n.sg, n.com and then the same three with www. |
| DomainGuess.DomainsDistinct | scripts/acra/find_websites_directories.py:47-54 | the six guesses are pairwise different, so no domain is probed twice |
| DomainGuess.ProcessCompany | scripts/acra/find_websites_directories.py:77-96 | a hit exactly when some guess answers; the hit is the first answering guess in generation order, tagged domain_guess, with the row's UEN and name |
| DomainGuess.ShortStemNeverFound | scripts/acra/find_websites_directories.py:43-44 | a stem shorter than three characters is never found, whatever the network answers |
| DomainGuess.BatchesFrom | scripts/acra/find_websites_directories.py:151-153 | the batches are non-empty, full-sized except the last, and concatenate back to the subset |
| DomainGuess.BatchingIsTransparent | scripts/acra/find_websites_directories.py:151-173 | the hits collected batch by batch are the hits of one pass over the whole subset |
| DomainGuess.CollectUnique | scripts/acra/find_websites_directories.py:151-174 | for any per-row lookup: nothing exactly when no row gives a result; otherwise one row per key, every key found is kept, in the order found, and each kept row is the first one found with its key |
| DomainGuess.FindWebsites | scripts/acra/find_websites_directories.py:142-174 | no output exactly when no company of the head(count) subset is found; otherwise UENs are unique, every found UEN is kept, the rows are an order-preserving subsequence of the hits, and each row is the first hit for its UEN |
| WebsiteScraper.Collapse | scripts/scrape_websites/1_website_scraper.py:79 | no separator survives; for input made only of word characters, separators and '-', only word characters and '_' remain |
| WebsiteScraper.CollapseRun | scripts/scrape_websites/1_website_scraper.py:79 | a run of '-' or whitespace before a word becomes exactly one '_' |
| WebsiteScraper.CleanFilename | scripts/scrape_websites/1_website_scraper.py:77-80 | for ASCII input, at most 50 characters, each an upper-case letter, a digit or '_' |
| WebsiteScraper.CleanFilenameIdempotent | scripts/scrape_websites/1_website_scraper.py:77-80 | a cleaned name cleans to itself |
| WebsiteScraper.CleanFilenameOfWord | scripts/scrape_websites/1_website_scraper.py:77-80 | a name made only of word characters is upper-cased and cut to 50 |
| WebsiteScraper.SocialLink | scripts/scrape_websites/1_website_scraper.py:88-104 | only the first match is examined: a link exactly when that match, cut at its first '?', contains no rejected part, and then the link is that cut match |
| WebsiteScraper.RejectedFirstMatch | scripts/scrape_websites/1_website_scraper.py:93-104 | a rejected first match leaves the field None, whatever later matches exist |
| WebsiteScraper.ExtractSocial | scripts/scrape_websites/1_website_scraper.py:82-108 | LinkedIn has no rejects; Facebook rejects sharer and plugins; Instagram rejects /p/ |
| WebsiteScraper.PickEmail | scripts/scrape_websites/1_website_scraper.py:119-125 | None exactly when every email contains a skip term; otherwise the first valid email with a contact prefix, else the first valid email |
| WebsiteScraper.PickPhone | scripts/scrape_websites/1_website_scraper.py:128-139 | None exactly when no pattern matched; otherwise the stripped first match of the first pattern that matched |
| WebsiteScraper.PhoneIgnoresLater | scripts/scrape_websites/1_website_scraper.py:135-139 | once a pattern has matched, what later patterns would find makes no difference |
| WebsiteScraper.Clip | scripts/scrape_websites/1_website_scraper.py:153 | the stripped text cut to 300 characters: a prefix of it whose length is the smaller of its length and 300 |
| WebsiteScraper.PickKeywords | scripts/scrape_websites/1_website_scraper.py:145-169 | meta keywords, else meta description, else og:description, each stripped and clipped; None only when all three are absent |
| WebsiteScraper.Normalize | scripts/scrape_websites/1_website_scraper.py:193-195 | the result has a scheme and ends with the input, and it equals the input exactly when the input already had http:// or https:// |
| WebsiteScraper.GuardUrl | scripts/scrape_websites/1_website_scraper.py:189-195 | no navigation exactly when the URL is missing or blank; otherwise the URL navigated to is the normalised one |
| WebsiteScraper.NavError | scripts/scrape_websites/1_website_scraper.py:243-248 | a message mentioning timeout in any case gives "Timeout"; any other message is cut to its first 100 characters |
| WebsiteScraper.ScrapeAndExtract | scripts/scrape_websites/1_website_scraper.py:171-250 | success exactly when there is a URL and the page loaded, and then the social links, contact picks and keywords are those extracted from the page; failed exactly when an error is set; a missing URL gives "No URL"; a navigation that raised records its error text; the reported website is the normalised URL; a failure carries no extracted data |
| WebsiteScraper.ToProcess | scripts/scrape_websites/1_website_scraper.py:271-274 | the rows with a non-empty website, from position start_from on, at most max_companies of them, in file order |
| WebsiteScraper.RunFullScrape | scripts/scrape_websites/1_website_scraper.py:291-353 | one result per processed row, in order; failed_sites are exactly the failed rows, in order, with the original website; there is one checkpoint per 100 results, and the k-th is named start_from + 100(k+1) and holds the first 100(k+1) results |
| Dedup.KeepFirstFromSound | scripts/merge_csv.py:20 | dropping duplicates keeps exactly the unseen keys, each once, as an order-preserving subsequence |
| Dedup.KeepFirstFromPicksFirst | scripts/merge_csv.py:20 | each kept row is the first occurrence of its UEN |
| Dedup.DropDuplicates | scripts/merge_csv.py:20 | keep="first": one row per key, every key kept, in input order, each the first row carrying its key |
| Dedup.DropDuplicatesOrdered | scripts/merge_csv.py:20 | the kept keys come in the order of their first occurrence in the input |
| Dedup.Merge | scripts/merge_csv.py:9-20 | no staged file means no output (pd.concat of an empty list raises); otherwise the merge has unique UENs, keeps every UEN of the concatenated files, is a subsequence of the concatenation, and keeps each UEN's first row |
| Dedup.MergeIdempotent | scripts/merge_csv.py:17-20 | de-duplicating the merged output again, or merging it as the only file, changes nothing |
| Dedup.MergeExample | scripts/merge_csv.py:17-20 | a later file's row for an already-seen UEN is dropped in favour of the earlier one |
| Stocks.Words | scripts/stocks/2_extract_stocks.py:15 | split() gives non-empty whitespace-free words whose concatenation is the text's non-whitespace characters in order; the first word runs up to the first whitespace |
| Stocks.WordsSplit | scripts/stocks/2_extract_stocks.py:15 | words are maximal: a whitespace-free run followed by whitespace or the end is one word, never split or joined with what follows |
| Stocks.CleanText | scripts/stocks/2_extract_stocks.py:13-16 | None or "" gives ""; the result has no whitespace at either end and only single spaces between words, and it splits into the same words as the input |
| Stocks.WordsOfJoin | scripts/stocks/2_extract_stocks.py:15 | splitting words joined by single spaces gives the words back |
| Stocks.CleanTextIdempotent | scripts/stocks/2_extract_stocks.py:15 | cleaning twice is cleaning once |
| Stocks.ToStock | scripts/stocks/2_extract_stocks.py:72-98 | every field of a record is whitespace-collapsed; for a full row the symbol is the cleaned link text of cell 1 when it has a link, else the cleaned cell text, and the other five fields are the cleaned texts of cells 2 to 6 in order |
| Stocks.ToStockIgnoresOtherCells | scripts/stocks/2_extract_stocks.py:72-98 | the record depends on cells 1 to 6 only; cell 0 and any later cells play no part |
| Stocks.StockRows | scripts/stocks/2_extract_stocks.py:58-98 | one record per row with at least seven cells, in row order, so never more records than rows |
| Stocks.ExtractStocks | scripts/stocks/2_extract_stocks.py:42-66 | None exactly when the main table or its body is missing; otherwise the mapped full rows |
| CompaniesSg.ExtractText | scripts/companies_sg/1_sg_scraper.py:34-41 | a value is the stripped text of the first label after the first span that matches case-insensitively |
| CompaniesSg.ExtractTextFound | scripts/companies_sg/1_sg_scraper.py:34-41 | a value is found exactly when some matching span has a label after it |
| CompaniesSg.Slug | scripts/companies_sg/1_sg_scraper.py:53 | the slug has no '.' and no ' ': dots are removed and each space becomes '-', character by character |
| CompaniesSg.CompanyUrl | scripts/companies_sg/1_sg_scraper.py:53-54 | the URL is the business base, the UEN, '/', the slug and a trailing '-' |
| CompaniesSg.SlugPlain | scripts/companies_sg/1_sg_scraper.py:53 | a name without dots or spaces is its own slug |
| CompaniesSg.RecordFor | scripts/companies_sg/1_sg_scraper.py:53-89 | every row carries the company URL; a failed fetch keeps only the stripped UEN and the URL; a fetched page gives each of the six fields from the label lookup with its own label |
| CompaniesSg.RunResults | scripts/companies_sg/1_sg_scraper.py:45-89 | the results are one record per kept row, in input order |
| CompaniesSg.RunSaveTags | scripts/companies_sg/1_sg_scraper.py:91-93 | saves happen at exactly the kept indices i with i+1 a multiple of 500 |
| CompaniesSg.RunSavesArePrefixes | scripts/companies_sg/1_sg_scraper.py:91-93 | each save holds a prefix of the final results |
| CompaniesSg.Scrape | scripts/companies_sg/1_sg_scraper.py:20-99 | at most MAX_ROWS results, one per kept row among the first MAX_ROWS rows, in order |
| CompaniesSg.ScrapeSaveTags | scripts/companies_sg/1_sg_scraper.py:22-93 | every save tag is a multiple of 500 and at most MAX_ROWS |
| AcraIds.DatasetMap | scripts/acra/get_acra_urls.py:9-15 | the keys are exactly the matched letters; each value is the id of the letter's last match; well-formed matches give single-letter-or-Others keys and d_-hex values |
| AcraIds.DatasetItems | scripts/acra/get_acra_urls.py:15-26 | the dict's items: each matched letter exactly once, in the order of its first match, with the map's value (its last match's id) |
| AcraIds.ItemsKeepFirstPlace | scripts/acra/get_acra_urls.py:15 | a letter matched again keeps its first place among the items but takes the later id |
| AcraIds.LastMatchWins | scripts/acra/get_acra_urls.py:15 | a match whose letter does not come up again decides that letter's id |
| AcraIds.LastIndex | scripts/acra/get_acra_urls.py:15 | the index of the last match for a letter, or -1 when it has none |
| AcraExtract.DownloadUrl | scripts/acra/extract_acra.py:48-61 | a URL exactly when the status is 200 or 201, the JSON code is 0 and a URL is present |
| AcraExtract.CollectSound | scripts/acra/extract_acra.py:132-154 | the accumulated frames are a prefix of the non-empty downloaded frames; the loop stops early only once the total reached the target; no frame is taken after that |
| AcraExtract.ExtractAcra | scripts/acra/extract_acra.py:129-170 | nothing is written exactly when no dataset yields rows; otherwise the output is the first TARGET_RECORDS rows of the frames in dataset order |
| AcraExtract.FirstColumn | scripts/acra/extract_acra.py:99-115 | the first column whose lower-cased name contains the keyword, or none |
| AcraExtract.FilterData | scripts/acra/extract_acra.py:94-120 | the kept rows are exactly those passing all four tests, in order; reg_year is added only when an incorporation column exists |
| AcraExtract.FilterDataSubsequence | scripts/acra/extract_acra.py:94-120 | the kept rows are an order-preserving subsequence of the input |
| AcraExtract.EarlyStages | scripts/acra/extract_acra.py:99-106 | the status and type filters together keep the rows passing both, and leave the columns alone |
| AcraExtract.LateStages | scripts/acra/extract_acra.py:109-117 | the date and SSIC filters together keep the rows with a parsed year of at least 2005 and a non-null SSIC |
| AcraExtract.SsicAfterYear | scripts/acra/extract_acra.py:112-115 | adding reg_year does not change which column counts as the SSIC column |
| OwlMulti.FirstDt | scripts/record0wld/multithread_recirdowl.py:123-125 | the first dt whose text contains the label, case-insensitively |
| OwlMulti.TextByLabel | scripts/record0wld/multithread_recirdowl.py:117-131 | a value exactly when the first matching dt has a dd; the value is that dd's stripped text |
| OwlMulti.TextByLabelFirstOnly | scripts/record0wld/multithread_recirdowl.py:124-128 | a later matching dt is never tried when the first matching dt has no dd |
| OwlMulti.LinkByLabel | scripts/record0wld/multithread_recirdowl.py:133-146 | the href of the dd of the first matching dt when there is such a dd; None when no dt matches or the first matching one has no dd |
| OwlMulti.Description | scripts/record0wld/multithread_recirdowl.py:181-198 | a description is the stripped first paragraph of the dd of some dt mentioning description |
| OwlMulti.DescriptionFirst | scripts/record0wld/multithread_recirdowl.py:187-195 | the first dt mentioning description whose dd has paragraphs gives its stripped first paragraph, when no earlier such dt lacks a dd |
| OwlMulti.DescriptionMissingDd | scripts/record0wld/multithread_recirdowl.py:188-197 | a dt mentioning description with no dd, before any usable one, makes the lookup return None |
| OwlMulti.SocialLink | scripts/record0wld/multithread_recirdowl.py:170-175 | a platform's link is one of its matches, and there is one exactly when it has matches |
| OwlMulti.WebsiteOf | scripts/record0wld/multithread_recirdowl.py:302-305 | an empty website link leaves the field None |
| OwlMulti.ReadRecord | scripts/record0wld/multithread_recirdowl.py:268-323 | the record keeps the search keys and link; each of the ten labelled fields comes from the label lookup with its own label; the website is set only from a non-empty href; the description, founder and seven social links are read as the page gives them |
| OwlMulti.ScrapeCompany | scripts/record0wld/multithread_recirdowl.py:219-337 | a record exactly when the decisive attempt of the shared-counter retries loaded the page, and then it is the record read from that attempt's page; a missing company link ends at once with None |
| OwlMulti.RowFor | scripts/record0wld/multithread_recirdowl.py:389-400 | a full record when scraping succeeds, else exactly the fallback row with the input UEN and name |
| OwlMulti.WorkerAccounts | scripts/record0wld/multithread_recirdowl.py:383-417 | the rows are the first companies' rows in order; without a failed restart there is one row per company and n/50 restarts; a failed restart stops the thread right after a multiple of 50 |
| OwlMulti.WorkerCompletes | scripts/record0wld/multithread_recirdowl.py:413-417 | when restarts succeed, n companies give n rows and n/50 restarts |
| OwlMulti.ThreadRows | scripts/record0wld/multithread_recirdowl.py:377-420 | a thread's rows are its chunk's rows in order, all of them when its browser starts and no restart fails |
| OwlMulti.RunThreads | scripts/record0wld/multithread_recirdowl.py:487-530 | the rows are an order-preserving subsequence of the companies' rows, since each thread only stops early; when every thread runs through, exactly one row per company in subset order |
| OwlMulti.ScrapeAll | scripts/record0wld/multithread_recirdowl.py:482-537 | the result list is an order-preserving subsequence of the subset's rows; when every thread runs through, it is exactly one row per company |
| OwlParallel.ScrapeCompany | scripts/record0wld/recordowl_parallel.py:38-101 | always a four-field row with the input keys; a link exactly when the page loaded; the website is the first href passing the rule |
| OwlParallel.ParallelScrape | scripts/record0wld/recordowl_parallel.py:110-180 | the rows are those of the chunks whose browser started, worker by worker; so they are an order-preserving subsequence of the scraped companies' rows and each is some company's row; when every worker starts, exactly one row per company, in order |
| OwlSimple.ScrapeCompany | scripts/record0wld/recordowl_simple.py:33-114 | the result is what the decisive attempt of the retries gives: search-page failures give (None, None), a missing link gives (None, None) at once, company-page failures keep the link, and a loaded page gives its first link passing the rule |
| OwlSimple.LoopAccounts | scripts/record0wld/recordowl_simple.py:128-174 | the loop appends exactly one row per item, in order, and saves the checkpoints of a save every 500 |
| OwlSimple.ProcessBatch | scripts/record0wld/recordowl_simple.py:116-181 | one row per company in rows start_from to start_from+num_companies, in order |
| OwlSimple.ProcessBatchCheckpoints | scripts/record0wld/recordowl_simple.py:171-174 | the k-th checkpoint is named start_from + 500(k+1) and holds the first 500(k+1) rows |
| OwlLegacy.SearchUen | scripts/record0wld/recordowl_scraper.py:92-121 | a URL only when a company link was found with an href |
| OwlLegacy.ScrapeCompanyData | scripts/record0wld/recordowl_scraper.py:166-230 | None exactly when reading the page raised; address and industry are always None; the website passes the older rule; phone and email are the body's first matches, and None when the page has no body |
| OwlLegacy.Placeholder | scripts/record0wld/recordowl_scraper.py:262-271 | everything except UEN and name is None |
| OwlLegacy.RowStep | scripts/record0wld/recordowl_scraper.py:247-271 | no link gives the placeholder; a found link gives the row read from that link's page; a row is dropped exactly when a link was found but the page could not be read |
| OwlLegacy.CollectPresent | scripts/record0wld/recordowl_scraper.py:240-271 | the collected rows are the present rows of the steps, in order |
| OwlLegacy.ProcessBatch | scripts/record0wld/recordowl_scraper.py:232-280 | at most one row per company of the subset, in order: dropped rows are skipped, not replaced |
| OwlLegacy.ProcessBatchAsWritten | scripts/record0wld/recordowl_scraper.py:273-276 | the batch crashes exactly when the first company has a link but its page cannot be read; otherwise it agrees with the corrected loop |
| OwlLegacy.CollectAsWrittenAgrees | scripts/record0wld/recordowl_scraper.py:273-276 | the progress check divides by zero only after a first step that added nothing |
| OwlLegacy.FirstPageUnreadable | scripts/record0wld/recordowl_scraper.py:249-276 | a one-company batch whose page cannot be read crashes as written, and yields no rows once corrected |
| Retry.Decisive | scripts/record0wld/recordowl_simple.py:35-114 | the decisive attempt is at most max_retries; every attempt before it failed in a retryable way, and it is the first that did not |
| Retry.DecisiveUnique | scripts/record0wld/multithread_recirdowl.py:223-262 | the decisive attempt is the only one with those properties |
| LinkRule.FirstWebsite | scripts/record0wld/recordowl_parallel.py:63-74 | None exactly when no href passes; otherwise the first href that passes |
| LinkRule.ScanWebsite | scripts/record0wld/recordowl_scraper.py:187-204 | a failed scan gives no website; a completed scan gives the first href passing the rule |
| LinkRule.PlausibleIsLegacy | scripts/record0wld/recordowl_scraper.py:194-200 | every link the newer rule accepts, the older rule also accepts |
| LinkRule.YouTubeOnlyLegacy | scripts/record0wld/recordowl_scraper.py:200 | a YouTube link passes the older rule but not the newer one |
| LinkRule.UpperRecordOwlOnlyLegacy | scripts/record0wld/recordowl_scraper.py:196 | an upper-case RECORDOWL.COM link passes the older, case-sensitive test |
| Batch.RestartCount | scripts/record0wld/multithread_recirdowl.py:413-417 | restarting after every 50th company gives floor(k/50) restarts for k companies |
| Batch.CheckpointsClosed | scripts/record0wld/recordowl_simple.py:171-174 | a save every e rows gives floor(n/e) checkpoints, the k-th named base + e(k+1) and holding the first e(k+1) rows |
| Batch.SplitChunks | scripts/record0wld/multithread_recirdowl.py:487-494 | n chunks, the first n-1 of size len/n and the last the remainder, concatenating to the subset; chunk w starts at w*(len/n) |
| Batch.WorkerRows | scripts/record0wld/recordowl_parallel.py:110-121 | a started worker gives one row per chunk item, in order; a worker whose browser fails to start gives none |
| Batch.RunWorkers | scripts/record0wld/recordowl_parallel.py:110-180 | the rows are each started worker's chunk rows, worker by worker, so an order-preserving subsequence of a single pass over the subset; when every worker starts, exactly that pass |
| Batch.Watermarks | scripts/record0wld/recordowl_parallel.py:183-196 | checkpoints are written only at observed positive counts, in order, each at least 500 beyond every earlier checkpoint |
| Batch.WatermarksAppend | scripts/record0wld/recordowl_parallel.py:183-196 | observing two stretches of polls writes the checkpoints of the first, then those of the second measured from the watermark the first left |
| Batch.WatermarksSnoc | scripts/record0wld/recordowl_parallel.py:186-196 | one more observation adds a checkpoint exactly when its count is positive, at least 500 beyond the current watermark, and the write succeeds |
| Batch.FailedWriteKeepsMark | scripts/record0wld/recordowl_parallel.py:189-196 | a checkpoint write that raises leaves the watermark where it was, so the next poll measures from it again |
| Batch.WatermarksComplete | scripts/record0wld/recordowl_parallel.py:186-196 | every observation that is positive, at least 500 beyond the watermark at that moment and whose write succeeds is written, at the next checkpoint position |
| Batch.WatermarkNothingOverdue | scripts/record0wld/recordowl_parallel.py:186-196 | after the last poll no checkpoint is overdue: fewer than 500 items are unsaved, none are done, or the write just attempted failed |

## Left out

- Browsers, HTTP and the file system are left out. That covers Selenium and
  undetected_chromedriver, waits, scrolling, `requests`, CSV, HTML and JSON
  reads and writes, directory creation, and the HTML dumps of pages without
  a website. Each becomes an input value or an outcome datatype.
- The regex engine, BeautifulSoup and `pd.to_datetime` are left out. Their
  results are inputs: match lists in page order, element lists, and a parser
  from cell to optional year.
- Threads, locks, `ThreadPoolExecutor` and `as_completed` are left out. Each
  worker runs sequentially. The shared result list is the workers' rows
  concatenated in worker order, because the real interleaving depends on
  timing.
- `find_websites_directories.py` collects hits within a batch in
  `as_completed` order. The model collects them in input order, so its
  row-order claims assume that order.
- Sleeps, random delays, elapsed-time estimates, progress prints and
  percentages are left out, with two exceptions. The first is the legacy
  progress print, whose division by zero is the finding below. The second
  is the company-name slice in the RecordOwl progress prints, described in
  the next item.
- Missing company names are left out. The RecordOwl scrapers print the
  name sliced: `company_name[:50]` at
  scripts/record0wld/recordowl_simple.py:134 and
  scripts/record0wld/recordowl_scraper.py:244, and `company_name[:40]` at
  scripts/record0wld/multithread_recirdowl.py:409-411. A NaN `entity_name`
  is a float, so the slice raises TypeError. In the single-worker and legacy
  scrapers the batch ends there and no final CSV is written. The
  single-worker `main` catches the error and prints it, and checkpoints
  already written stay; the legacy `main` does not catch it. In the
  multithreaded scraper it ends the thread after that company's row is
  appended, but only when the row has a website or a contact number. Every
  `Input.entityName` in the model is a string, so the model covers only
  inputs whose names are all present.
- `set()` order in the multithreaded social-link pick is arbitrary. Each
  platform's pick is an input index into its match list.
- WebsiteScraper.CleanFilename: stated for ASCII names only. For other
  characters, Python's Unicode `\w` and `upper()` can lengthen a string.
- Text case mapping and `\w` are ASCII-only throughout, for the same reason.
- OwlParallel.ParallelScrape: no separate contract for an empty result. The
  empty frame's column list is the constant `OwlParallel.Columns`.
- Interactive `input()` prompts, the ADLS upload, the scheduler scripts and
  the exploratory ACRA report are outside the modelled core.
- OwlMulti.ScrapeCompany: the founding date is taken as an input value. Its
  regex search over the page source is not modelled.

## Findings

| source | as written | input that shows it | evidently intended | confidence | as-written member | corrected member |
|---|---|---|---|---|---|---|
| scripts/record0wld/recordowl_scraper.py:273-276 | The progress check `len(results) % 25 == 0` is true when `results` is still empty. The message then divides by `len(results)`, raising ZeroDivisionError. `main` catches only KeyboardInterrupt, so the run ends and no CSV is written. | The first company of the subset has a company link, but reading its page raises, so `scrape_company_data` returns None. | Report progress only after some row was collected; the batch goes on and returns the rows it has. | not executed | OwlLegacy.ProcessBatchAsWritten, OwlLegacy.FirstPageUnreadable | OwlLegacy.ProcessBatch, OwlLegacy.CollectAsWrittenAgrees |
