/** The multithreaded RecordOwl scraper: each thread scrapes a contiguous
    chunk with its own browser, reading 20 fields from the company page's
    `dt`/`dd` pairs, timeline and social links, and restarts its browser
    after every 50th company.  The page is an input: the `dt` elements in
    document order (each with the `dd` its XPath lookup would find), the
    founding date the timeline pattern finds and, per social platform, the
    pattern's matches. */
module OwlMulti {
  import opened Wrappers
  import opened Text
  import opened Seqs
  import opened Retry
  import opened Batch

  /** The `dd` found by `following-sibling::dd[1]`: its text, the `href` of
      its first link (absent when it has no link or the link has none) and
      its paragraphs. */
  datatype Dd = Dd(text: string, anchorHref: Option<string>, paragraphs: seq<string>)

  /** A `dt` and the `dd` after it, if any. */
  datatype Dt = Dt(text: string, dd: Option<Dd>)

  /** The social platforms, in the order of the pattern table. */
  const Platforms: seq<string> := ["facebook", "linkedin", "twitter", "instagram", "youtube", "tiktok", "pinterest"]

  datatype Page = Page(dts: seq<Dt>, founder: Option<string>, social: seq<seq<string>>, picks: seq<nat>)

  /** Index of the first `dt` whose text contains `key`, ignoring case, or `|dts|`. */
  function FirstDt(dts: seq<Dt>, key: string): (i: nat)
    ensures i <= |dts|
    ensures forall j :: 0 <= j < i ==> !ContainsCI(dts[j].text, key)
    ensures i < |dts| ==> ContainsCI(dts[i].text, key)
  {
    if dts == [] then 0
    else if ContainsCI(dts[0].text, key) then 0
    else 1 + FirstDt(dts[1..], key)
  }

  /** `extract_text_by_label`: the stripped text of the `dd` of the first
      matching `dt`; when that `dt` has no `dd` the lookup raises and the
      answer is `None`, later `dt`s are not tried. */
  function TextByLabel(dts: seq<Dt>, key: string): (r: Option<string>)
    ensures r.Some? <==> FirstDt(dts, key) < |dts| && dts[FirstDt(dts, key)].dd.Some?
    ensures r.Some? ==> r.value == Strip(dts[FirstDt(dts, key)].dd.value.text)
  {
    var i := FirstDt(dts, key);
    if i < |dts| && dts[i].dd.Some? then Some(Strip(dts[i].dd.value.text)) else None
  }

  /** A lookup by label answers exactly when some `dt` matches and the first
      one that does has a `dd`; matches further down never count. */
  lemma TextByLabelFirstOnly(dts: seq<Dt>, key: string, j: nat)
    requires j < |dts| && ContainsCI(dts[j].text, key) && dts[j].dd.Some?
    requires exists k :: 0 <= k < j && ContainsCI(dts[k].text, key) && dts[k].dd.None? &&
                         forall m :: 0 <= m < k ==> !ContainsCI(dts[m].text, key)
    ensures TextByLabel(dts, key).None?
  {
    var k :| 0 <= k < j && ContainsCI(dts[k].text, key) && dts[k].dd.None? &&
             forall m :: 0 <= m < k ==> !ContainsCI(dts[m].text, key);
    assert FirstDt(dts, key) == k;
  }

  /** `extract_link_by_label`: the `href` of the link in the `dd` of the
      first matching `dt`. */
  function LinkByLabel(dts: seq<Dt>, key: string): (r: Option<string>)
    ensures r.Some? ==> FirstDt(dts, key) < |dts| && dts[FirstDt(dts, key)].dd.Some? &&
                        r == dts[FirstDt(dts, key)].dd.value.anchorHref
    ensures FirstDt(dts, key) < |dts| && dts[FirstDt(dts, key)].dd.Some? ==>
      r == dts[FirstDt(dts, key)].dd.value.anchorHref
    ensures FirstDt(dts, key) == |dts| || dts[FirstDt(dts, key)].dd.None? ==> r.None?
  {
    var i := FirstDt(dts, key);
    if i < |dts| && dts[i].dd.Some? then dts[i].dd.value.anchorHref else None
  }

  /** `extract_description`: the first `dt` mentioning "description" whose
      `dd` has paragraphs gives its first paragraph, stripped; a matching
      `dt` without paragraphs is passed over, one without a `dd` ends the
      search with `None`. */
  function Description(dts: seq<Dt>): (r: Option<string>)
    ensures r.Some? ==> exists i :: 0 <= i < |dts| && ContainsCI(dts[i].text, "description") &&
                                    dts[i].dd.Some? && dts[i].dd.value.paragraphs != [] &&
                                    r.value == Strip(dts[i].dd.value.paragraphs[0])
  {
    if dts == [] then None
    else if ContainsCI(dts[0].text, "description") then
      if dts[0].dd.None? then None
      else if dts[0].dd.value.paragraphs != [] then Some(Strip(dts[0].dd.value.paragraphs[0]))
      else
        var r := Description(dts[1..]);
        DescriptionShift(dts, r);
        r
    else
      var r := Description(dts[1..]);
      DescriptionShift(dts, r);
      r
  }

  /** The first `dt` mentioning "description" whose `dd` has paragraphs
      decides, provided every earlier such `dt` has a `dd` (without
      paragraphs). */
  lemma {:induction false} DescriptionFirst(dts: seq<Dt>, i: nat)
    requires i < |dts| && ContainsCI(dts[i].text, "description")
    requires dts[i].dd.Some? && dts[i].dd.value.paragraphs != []
    requires forall k :: 0 <= k < i && ContainsCI(dts[k].text, "description") ==>
               dts[k].dd.Some? && dts[k].dd.value.paragraphs == []
    ensures Description(dts) == Some(Strip(dts[i].dd.value.paragraphs[0]))
    decreases i
  {
    if i > 0 {
      assert forall k :: 0 <= k < i - 1 ==> dts[1..][k] == dts[k + 1];
      DescriptionFirst(dts[1..], i - 1);
    }
  }

  /** A `dt` mentioning "description" without a `dd`, before any usable
      one, makes the whole lookup fail. */
  lemma {:induction false} DescriptionMissingDd(dts: seq<Dt>, i: nat)
    requires i < |dts| && ContainsCI(dts[i].text, "description") && dts[i].dd.None?
    requires forall k :: 0 <= k < i && ContainsCI(dts[k].text, "description") ==>
               dts[k].dd.Some? && dts[k].dd.value.paragraphs == []
    ensures Description(dts).None?
    decreases i
  {
    if i > 0 {
      assert forall k :: 0 <= k < i - 1 ==> dts[1..][k] == dts[k + 1];
      DescriptionMissingDd(dts[1..], i - 1);
    }
  }

  lemma DescriptionShift(dts: seq<Dt>, r: Option<string>)
    requires dts != []
    requires r.Some? ==> exists i :: 0 <= i < |dts[1..]| && ContainsCI(dts[1..][i].text, "description") &&
                                     dts[1..][i].dd.Some? && dts[1..][i].dd.value.paragraphs != [] &&
                                     r.value == Strip(dts[1..][i].dd.value.paragraphs[0])
    ensures r.Some? ==> exists i :: 0 <= i < |dts| && ContainsCI(dts[i].text, "description") &&
                                   dts[i].dd.Some? && dts[i].dd.value.paragraphs != [] &&
                                   r.value == Strip(dts[i].dd.value.paragraphs[0])
  {
    if r.Some? {
      var i :| 0 <= i < |dts[1..]| && ContainsCI(dts[1..][i].text, "description") &&
               dts[1..][i].dd.Some? && dts[1..][i].dd.value.paragraphs != [] &&
               r.value == Strip(dts[1..][i].dd.value.paragraphs[0]);
      assert dts[i + 1] == dts[1..][i];
    }
  }

  /** One platform's link: some element of the set of matches (the set's
      iteration order is not modelled, so `pick` chooses which). */
  function SocialLink(matches: seq<string>, pick: nat): (r: Option<string>)
    ensures r.None? <==> matches == []
    ensures r.Some? ==> r.value in matches
  {
    if matches == [] then None else Some(matches[pick % |matches|])
  }

  /** The link of platform `p` on the page (no matches when the page lists none). */
  function SocialOf(page: Page, p: nat): Option<string> {
    if p < |page.social| then SocialLink(page.social[p], if p < |page.picks| then page.picks[p] else 0) else None
  }

  /** The 23-key result dict of a scraped company. */
  datatype Record = Record(
    uen: string, companyName: string, companyLink: string,
    registrationNumber: Option<string>, registeredAddress: Option<string>, operatingStatus: Option<string>,
    companyAge: Option<string>, building: Option<string>, contactNumber: Option<string>,
    website: Option<string>, description: Option<string>,
    primarySsicCode: Option<string>, primaryIndustry: Option<string>,
    secondarySsicCode: Option<string>, secondaryIndustry: Option<string>, companyFounder: Option<string>,
    facebook: Option<string>, linkedin: Option<string>, twitter: Option<string>, instagram: Option<string>,
    youtube: Option<string>, tiktok: Option<string>, pinterest: Option<string>)

  /** `if website_link: data['website'] = website_link`: an empty `href` leaves it unset. */
  function WebsiteOf(dts: seq<Dt>): (r: Option<string>)
    ensures r.Some? ==> r.value != [] && r == LinkByLabel(dts, "Website")
    ensures r.None? ==> LinkByLabel(dts, "Website") in {None, Some("")}
  {
    var l := LinkByLabel(dts, "Website");
    if l.Some? && l.value != [] then l else None
  }

  /** The record read from a loaded company page. */
  function ReadRecord(uen: string, name: string, link: string, page: Page): (r: Record)
    ensures r.uen == uen && r.companyName == name && r.companyLink == link
    ensures r.registrationNumber == TextByLabel(page.dts, "Registration Number")
    ensures r.registeredAddress == TextByLabel(page.dts, "Registered Address")
    ensures r.operatingStatus == TextByLabel(page.dts, "Operating Status")
    ensures r.companyAge == TextByLabel(page.dts, "Company Age")
    ensures r.building == TextByLabel(page.dts, "Building")
    ensures r.contactNumber == TextByLabel(page.dts, "Contact Number")
    ensures r.primarySsicCode == TextByLabel(page.dts, "Primary SSIC Code")
    ensures r.primaryIndustry == TextByLabel(page.dts, "Primary Industry")
    ensures r.secondarySsicCode == TextByLabel(page.dts, "Secondary SSIC Code")
    ensures r.secondaryIndustry == TextByLabel(page.dts, "Secondary Industry")
    ensures r.website == WebsiteOf(page.dts)
    ensures r.website.Some? ==> r.website.value != []
    ensures r.description == Description(page.dts)
    ensures r.companyFounder == page.founder
    ensures r.facebook == SocialOf(page, 0) && r.linkedin == SocialOf(page, 1)
    ensures r.twitter == SocialOf(page, 2) && r.instagram == SocialOf(page, 3)
    ensures r.youtube == SocialOf(page, 4) && r.tiktok == SocialOf(page, 5) && r.pinterest == SocialOf(page, 6)
    ensures r.facebook.Some? ==> 0 < |page.social| && r.facebook.value in page.social[0]
  {
    var d := page.dts;
    Record(uen, name, link,
           TextByLabel(d, "Registration Number"), TextByLabel(d, "Registered Address"),
           TextByLabel(d, "Operating Status"), TextByLabel(d, "Company Age"), TextByLabel(d, "Building"),
           TextByLabel(d, "Contact Number"), WebsiteOf(d), Description(d),
           TextByLabel(d, "Primary SSIC Code"), TextByLabel(d, "Primary Industry"),
           TextByLabel(d, "Secondary SSIC Code"), TextByLabel(d, "Secondary Industry"), page.founder,
           SocialOf(page, 0), SocialOf(page, 1), SocialOf(page, 2), SocialOf(page, 3),
           SocialOf(page, 4), SocialOf(page, 5), SocialOf(page, 6))
  }

  /** `scrape_company`: the record of the decisive attempt when it loaded the
      company page, `None` for every other outcome. */
  function ScrapeCompany(uen: string, name: string, attempts: nat -> Attempt<Page>): (r: Option<Record>)
    ensures r.Some? <==> attempts(Decisive(attempts, 0)).Loaded?
    ensures attempts(0).NoLink? ==> r.None?
    ensures attempts(0).Loaded? ==> r == Some(ReadRecord(uen, name, attempts(0).link, attempts(0).page))
    ensures r.Some? ==> r.value.uen == uen && r.value.companyName == name
    ensures r.Some? ==>
      r.value == ReadRecord(uen, name, attempts(Decisive(attempts, 0)).link, attempts(Decisive(attempts, 0)).page)
  {
    var k := Decisive(attempts, 0);
    assert attempts(0).Loaded? ==> k == 0;
    var a := attempts(k);
    if a.Loaded? then Some(ReadRecord(uen, name, a.link, a.page)) else None
  }

  datatype Input = Input(uen: string, entityName: string)

  /** A row of the shared list: a scraped record, or the three-key fallback. */
  datatype Row = Full(record: Record) | Fallback(uen: string, companyName: string)

  /** How a browser restart went: at once, on the second try, or not at
      all (the second failure propagates and ends the thread). */
  datatype Restart = Restarted | RestartedOnRetry | RestartFailed

  /** A thread's rows, restarts done, and whether a failed restart ended it. */
  datatype WorkerState<R> = WorkerState(rows: seq<R>, restarts: nat, halted: bool)

  /** One company's row: its record, or the fallback when scraping gave nothing. */
  function RowFor(r: Input, attempts: nat -> Attempt<Page>): (row: Row)
    ensures row.Full? <==> ScrapeCompany(r.uen, r.entityName, attempts).Some?
    ensures row.Full? ==> row.record.uen == r.uen && row.record.companyName == r.entityName
    ensures row.Fallback? ==> row == Fallback(r.uen, r.entityName)
  {
    match ScrapeCompany(r.uen, r.entityName, attempts)
    case Some(rec) => Full(rec)
    case None => Fallback(r.uen, r.entityName)
  }

  /** `worker_thread` over the first `n` companies of its chunk, given each
      company's row and how each restart goes (restart `k` follows company
      `50 * k`). */
  function Worker<R>(row: nat -> R, restart: nat -> Restart, n: nat): WorkerState<R> {
    if n == 0 then WorkerState([], 0, false)
    else
      var st := Worker(row, restart, n - 1);
      if st.halted then st
      else
        var rows := st.rows + [row(n - 1)];
        if n % RestartEvery == 0 then
          if restart(n / RestartEvery).RestartFailed? then WorkerState(rows, st.restarts, true)
          else WorkerState(rows, st.restarts + 1, false)
        else WorkerState(rows, st.restarts, false)
  }

  /** A thread appends exactly one row per company in order; when no restart
      fails it handles every company and restarts `n / 50` times. */
  lemma {:induction false} WorkerAccounts<R>(row: nat -> R, restart: nat -> Restart, n: nat)
    ensures var st := Worker(row, restart, n);
      |st.rows| <= n && (forall i :: 0 <= i < |st.rows| ==> st.rows[i] == row(i)) &&
      (!st.halted ==> |st.rows| == n && st.restarts == n / RestartEvery) &&
      (st.halted ==> |st.rows| % RestartEvery == 0 && |st.rows| > 0 && restart(|st.rows| / RestartEvery).RestartFailed?)
    decreases n
  {
    if n > 0 {
      WorkerAccounts(row, restart, n - 1);
      DivStep(n, RestartEvery);
    }
  }

  /** No restart among the first `n` companies' restarts fails. */
  predicate RestartsSucceed(restart: nat -> Restart, n: nat) {
    forall k :: 1 <= k <= n / RestartEvery ==> !restart(k).RestartFailed?
  }

  /** No restart ever fails. */
  ghost predicate NeverFails(restart: nat -> Restart) {
    forall k :: !restart(k).RestartFailed?
  }

  /** The first `w` threads start their browsers and never fail a restart. */
  ghost predicate AllRun(started: nat -> bool, restart: nat -> nat -> Restart, w: nat) {
    forall v :: 0 <= v < w ==> started(v) && NeverFails(restart(v))
  }

  lemma AllRunStep(started: nat -> bool, restart: nat -> nat -> Restart, w: nat)
    ensures AllRun(started, restart, w + 1) <==> AllRun(started, restart, w) && started(w) && NeverFails(restart(w))
  {
  }

  /** A thread stops early only at a restart that fails. */
  lemma WorkerCompletes<R>(row: nat -> R, restart: nat -> Restart, n: nat)
    requires RestartsSucceed(restart, n)
    ensures |Worker(row, restart, n).rows| == n
    ensures Worker(row, restart, n).restarts == n / RestartEvery
  {
    WorkerAccounts(row, restart, n);
  }

  /** The row function of a chunk starting at `offset` of the subset
      (companies are numbered across the whole subset). */
  function ChunkRows<T, R>(chunk: seq<T>, offset: nat, f: (T, nat) -> R): nat -> R
    requires chunk != []
  {
    (i: nat) => if i < |chunk| then f(chunk[i], offset + i) else f(chunk[0], offset)
  }

  /** The rows one thread appends: none when its browser fails to start,
      otherwise the rows of its chunk in order, up to a failed restart. */
  function ThreadRows<T, R>(chunk: seq<T>, offset: nat, started: bool, restart: nat -> Restart,
                            f: (T, nat) -> R): (rows: seq<R>)
    ensures |rows| <= |chunk|
    ensures forall i :: 0 <= i < |rows| ==> rows[i] == f(chunk[i], offset + i)
    ensures started && RestartsSucceed(restart, |chunk|) ==> |rows| == |chunk|
    ensures started && NeverFails(restart) ==> |rows| == |chunk|
  {
    if started && chunk != [] then
      WorkerAccounts(ChunkRows(chunk, offset, f), restart, |chunk|);
      Worker(ChunkRows(chunk, offset, f), restart, |chunk|).rows
    else []
  }

  /** The row of every item, in order. */
  function AllRows<T, R>(subset: seq<T>, f: (T, nat) -> R): (rows: seq<R>)
    ensures |rows| == |subset| && forall i :: 0 <= i < |subset| ==> rows[i] == f(subset[i], i)
  {
    seq(|subset|, i requires 0 <= i < |subset| => f(subset[i], i))
  }

  /** The rows are some of those of the first `m` items, in item order. */
  ghost predicate RowsOf<T, R>(results: seq<R>, subset: seq<T>, m: nat, f: (T, nat) -> R)
    requires m <= |subset|
  {
    IsSubseq(results, AllRows(subset, f)[..m])
  }

  /** The rows are exactly those of the first `m` items, in order. */
  ghost predicate ExactRows<T, R>(results: seq<R>, subset: seq<T>, m: nat, f: (T, nat) -> R)
    requires m <= |subset|
  {
    |results| == m && forall i :: 0 <= i < m ==> results[i] == f(subset[i], i)
  }

  /** Appending a thread's rows for the chunk at `offset` keeps both facts. */
  lemma AppendThread<T, R>(subset: seq<T>, offset: nat, chunk: seq<T>, results: seq<R>, rows: seq<R>, f: (T, nat) -> R)
    requires offset + |chunk| <= |subset|
    requires forall i :: 0 <= i < |chunk| ==> chunk[i] == subset[offset + i]
    requires |rows| <= |chunk| && forall i :: 0 <= i < |rows| ==> rows[i] == f(chunk[i], offset + i)
    requires RowsOf(results, subset, offset, f)
    ensures RowsOf(results + rows, subset, offset + |chunk|, f)
    ensures ExactRows(results, subset, offset, f) && |rows| == |chunk| ==>
      ExactRows(results + rows, subset, offset + |chunk|, f)
  {
    var rs := AllRows(subset, f);
    var seg := rs[offset..offset + |chunk|];
    assert rs[..offset + |chunk|] == rs[..offset] + seg;
    assert rows == seg[0..|rows|];
    SliceSubseq(seg, 0, |rows|);
    SubseqAppend(results, rs[..offset], rows, seg);
  }

  /** The threads over `n` chunks of `subset`, their rows taken thread by
      thread: the rows are some items' rows in item order (each thread
      stops at most early, never skips), and when every browser starts and
      no restart fails, exactly one row per item in order. */
  method RunThreads<T, R(==)>(subset: seq<T>, n: nat, started: nat -> bool, restart: nat -> nat -> Restart,
                          f: (T, nat) -> R) returns (results: seq<R>)
    requires n > 0
    ensures |results| <= |subset|
    ensures RowsOf(results, subset, |subset|, f)
    ensures AllRun(started, restart, n) ==> ExactRows(results, subset, |subset|, f)
  {
    var chunks := SplitChunks(subset, n);
    results := [];
    var w: nat, offset: nat := 0, 0;
    while w < n
      invariant 0 <= w <= n
      invariant ThreadsSoFar(subset, chunks, started, restart, f, w, offset, results)
    {
      ThreadsStep(subset, chunks, started, restart, f, w, offset, results);
      results := results + ThreadRows(chunks[w], offset, started(w), restart(w), f);
      offset := offset + |chunks[w]|;
      w := w + 1;
    }
    assert chunks[..n] == chunks;
  }

  /** The loop invariant of `RunThreads` after `w` threads: they covered the
      first `offset` items, every row is the row of one of those, and the
      rows are exactly theirs when all of those threads ran to the end. */
  ghost predicate ThreadsSoFar<T, R>(subset: seq<T>, chunks: seq<seq<T>>, started: nat -> bool,
                                     restart: nat -> nat -> Restart, f: (T, nat) -> R,
                                     w: nat, offset: nat, results: seq<R>)
  {
    && w <= |chunks|
    && offset == |Flatten(chunks[..w])| && offset <= |subset| && Flatten(chunks[..w]) == subset[..offset]
    && |results| <= offset
    && RowsOf(results, subset, offset, f)
    && (AllRun(started, restart, w) ==> ExactRows(results, subset, offset, f))
  }

  /** One more thread keeps the invariant. */
  lemma ThreadsStep<T, R>(subset: seq<T>, chunks: seq<seq<T>>, started: nat -> bool,
                          restart: nat -> nat -> Restart, f: (T, nat) -> R,
                          w: nat, offset: nat, results: seq<R>)
    requires Flatten(chunks) == subset && w < |chunks|
    requires ThreadsSoFar(subset, chunks, started, restart, f, w, offset, results)
    ensures ThreadsSoFar(subset, chunks, started, restart, f, w + 1, offset + |chunks[w]|,
                         results + ThreadRows(chunks[w], offset, started(w), restart(w), f))
  {
    var chunk := chunks[w];
    var rows := ThreadRows(chunk, offset, started(w), restart(w), f);
    var offset' := offset + |chunk|;
    assert offset' == |Flatten(chunks[..w + 1])| && offset' <= |subset| && Flatten(chunks[..w + 1]) == subset[..offset']
      && subset[..offset'] == subset[..offset] + chunk by {
      FlattenPrefix(chunks, w);
    }
    forall i | 0 <= i < |chunk|
      ensures chunk[i] == subset[offset + i]
    {
      assert subset[offset + i] == subset[..offset'][offset + i];
    }
    AppendThread(subset, offset, chunk, results, rows, f);
    AllRunStep(started, restart, w);
  }

  /** The row of every company of the subset, in order. */
  function Rows(subset: seq<Input>, attempts: nat -> nat -> Attempt<Page>): (rows: seq<Row>)
    ensures |rows| == |subset| && forall i :: 0 <= i < |subset| ==> rows[i] == RowFor(subset[i], attempts(i))
  {
    seq(|subset|, i requires 0 <= i < |subset| => RowFor(subset[i], attempts(i)))
  }

  /** The script's threaded run over the subset: some companies' rows, in
      company order, never a row that is not some company's row, and one
      row per company in order when every thread runs to the end. */
  method ScrapeAll(subset: seq<Input>, numThreads: nat, started: nat -> bool, restart: nat -> nat -> Restart,
                   attempts: nat -> nat -> Attempt<Page>) returns (results: seq<Row>)
    requires numThreads > 0
    ensures |results| <= |subset|
    ensures IsSubseq(results, Rows(subset, attempts))
    ensures forall j :: 0 <= j < |results| ==> results[j] in Rows(subset, attempts)
    ensures AllRun(started, restart, numThreads) ==> results == Rows(subset, attempts)
  {
    var f := (r: Input, i: nat) => RowFor(r, attempts(i));
    results := RunThreads(subset, numThreads, started, restart, f);
    var rs := AllRows(subset, f);
    assert rs == Rows(subset, attempts);
    assert rs[..|subset|] == rs;
    forall j | 0 <= j < |results|
      ensures results[j] in Rows(subset, attempts)
    {
      SubseqIn(results, rs, j);
    }
  }
}
