/** The Selenium website scraper: for each company with a website it opens
    the site, saves the HTML under a file name derived from the company name,
    and pulls social links, a contact email and phone and the meta keywords
    out of the page source.  Navigation, the file write and the regex
    searches are inputs: the outcome of opening the page and, per pattern,
    the matches in page order. */
module WebsiteScraper {
  import opened Wrappers
  import opened Text
  import opened Seqs
  import opened Batch

  const NameLimit: nat := 50
  const KeywordLimit: nat := 300
  const ErrorLimit: nat := 100
  const CheckpointEvery: nat := 100

  // ----- clean_filename -----

  predicate IsAscii(c: char) { c < '\U{80}' }

  /** The class `[-\s]`. */
  predicate IsSep(c: char) { c == '-' || IsSpace(c) }

  /** The characters the first substitution keeps: `[\w\s-]`. */
  predicate Safe(c: char) { IsWordAscii(c) || IsSep(c) }

  /** The characters a cleaned name is made of. */
  predicate NameChar(c: char) { IsUpperAscii(c) || IsDigit(c) || c == '_' }

  /** `s` with its leading run of separators removed. */
  function DropSeps(s: string): (r: string)
    ensures |r| <= |s| && r == s[|s| - |r|..]
    ensures r == [] || !IsSep(r[0])
    ensures forall i :: 0 <= i < |s| - |r| ==> IsSep(s[i])
    ensures s != [] && IsSep(s[0]) ==> |r| < |s|
  {
    if s != [] && IsSep(s[0]) then DropSeps(s[1..]) else s
  }

  /** `re.sub(r'[-\s]+', '_', s)`: every maximal run of separators becomes
      one underscore. */
  function Collapse(s: string): (r: string)
    ensures |r| <= |s|
    ensures forall i :: 0 <= i < |r| ==> !IsSep(r[i])
    ensures (forall i :: 0 <= i < |s| ==> Safe(s[i])) ==> forall i :: 0 <= i < |r| ==> IsWordAscii(r[i])
    decreases |s|
  {
    if s == [] then []
    else if IsSep(s[0]) then "_" + Collapse(DropSeps(s))
    else [s[0]] + Collapse(s[1..])
  }

  /** Text without separators is left alone. */
  lemma {:induction false} CollapseNoSep(s: string)
    requires forall i :: 0 <= i < |s| ==> !IsSep(s[i])
    ensures Collapse(s) == s
    decreases |s|
  {
    if s != [] {
      CollapseNoSep(s[1..]);
    }
  }

  lemma {:induction false} DropSepsRun(run: string, t: string)
    requires forall i :: 0 <= i < |run| ==> IsSep(run[i])
    requires t == [] || !IsSep(t[0])
    ensures DropSeps(run + t) == t
    decreases |run|
  {
    if run != [] {
      assert (run + t)[1..] == run[1..] + t;
      DropSepsRun(run[1..], t);
    } else {
      assert run + t == t;
    }
  }

  /** A whole run of separators, however long, gives a single underscore. */
  lemma CollapseRun(run: string, t: string)
    requires run != [] && forall i :: 0 <= i < |run| ==> IsSep(run[i])
    requires t == [] || !IsSep(t[0])
    ensures Collapse(run + t) == "_" + Collapse(t)
  {
    assert (run + t)[0] == run[0];
    DropSepsRun(run, t);
  }

  /** `clean_filename` on ASCII names: drop every character outside
      `[\w\s-]`, turn separator runs into `_`, keep 50 characters and
      upper-case them. */
  function CleanFilename(name: string): (r: string)
    requires forall i :: 0 <= i < |name| ==> IsAscii(name[i])
    ensures |r| <= NameLimit
    ensures forall i :: 0 <= i < |r| ==> NameChar(r[i])
  {
    var kept := Filter(name, Safe);
    var c := Collapse(kept);
    var t := Take(c, NameLimit);
    assert forall i :: 0 <= i < |t| ==> t[i] == c[i];
    Upper(t)
  }

  /** A cleaned name cleans to itself. */
  lemma CleanFilenameIdempotent(name: string)
    requires forall i :: 0 <= i < |name| ==> IsAscii(name[i])
    ensures var r := CleanFilename(name);
      (forall i :: 0 <= i < |r| ==> IsAscii(r[i])) && CleanFilename(r) == r
  {
    var r := CleanFilename(name);
    FilterAll(r, Safe);
    CollapseNoSep(r);
    assert Take(r, NameLimit) == r;
    assert Upper(r) == r;
  }

  /** A name of word characters only is just cut to 50 and upper-cased. */
  lemma CleanFilenameOfWord(name: string)
    requires forall i :: 0 <= i < |name| ==> IsWordAscii(name[i]) && IsAscii(name[i])
    ensures CleanFilename(name) == Upper(Take(name, NameLimit))
  {
    FilterAll(name, Safe);
    CollapseNoSep(name);
  }

  // ----- extract_social_media -----

  const FacebookRejects: seq<string> := ["sharer", "plugins"]
  const InstagramRejects: seq<string> := ["/p/"]

  /** One platform: only the first match is looked at; it is cut at its
      first `?` and dropped when it contains a rejected part. */
  function SocialLink(matches: seq<string>, rejects: seq<string>): (r: Option<string>)
    ensures r.Some? ==> matches != [] && IsPrefix(r.value, matches[0]) && '?' !in r.value
    ensures r.Some? ==> !ContainsAny(r.value, rejects)
    ensures r.Some? ==> r.value == Before(matches[0], '?')
    ensures r.None? <==> matches == [] || ContainsAny(Before(matches[0], '?'), rejects)
    ensures matches != [] && '?' !in matches[0] && !ContainsAny(matches[0], rejects) ==> r == Some(matches[0])
  {
    if matches == [] then None
    else
      var url := Before(matches[0], '?');
      BeforeWhenAbsent(matches[0], '?');
      if ContainsAny(url, rejects) then None else Some(url)
  }

  lemma BeforeWhenAbsent(s: string, c: char)
    ensures c !in s ==> Before(s, c) == s
  {
    if c !in s {
      BeforeAbsent(s, c);
    }
  }

  /** A rejected first match leaves the field empty, whatever comes later. */
  lemma {:induction false} RejectedFirstMatch(first: string, later: seq<string>, rejects: seq<string>, k: nat)
    requires k < |rejects| && Contains(Before(first, '?'), rejects[k])
    ensures SocialLink([first] + later, rejects).None?
  {
    assert ([first] + later)[0] == first;
  }

  datatype Social = Social(linkedin: Option<string>, facebook: Option<string>, instagram: Option<string>)

  function ExtractSocial(linkedin: seq<string>, facebook: seq<string>, instagram: seq<string>): (s: Social)
    ensures s.linkedin == SocialLink(linkedin, [])
    ensures s.facebook == SocialLink(facebook, FacebookRejects)
    ensures s.instagram == SocialLink(instagram, InstagramRejects)
  {
    Social(SocialLink(linkedin, []), SocialLink(facebook, FacebookRejects), SocialLink(instagram, InstagramRejects))
  }

  // ----- extract_contact_info -----

  const SkipTerms: seq<string> := ["example", "test", "noreply", "sentry", "schema.org"]
  const PriorityTerms: seq<string> := ["info@", "contact@", "hello@", "enquiry@"]

  predicate ValidEmail(e: string) { !ContainsAny(Lower(e), SkipTerms) }
  predicate PriorityEmail(e: string) { ContainsAny(Lower(e), PriorityTerms) }
  predicate PreferredEmail(e: string) { ValidEmail(e) && PriorityEmail(e) }

  /** The contact email: the first valid one naming a contact mailbox, else
      the first valid one, else none. */
  function PickEmail(emails: seq<string>): (r: Option<string>)
    ensures r.None? <==> forall i :: 0 <= i < |emails| ==> !ValidEmail(emails[i])
    ensures r.Some? ==> r.value in emails && ValidEmail(r.value)
    ensures FirstWhere(emails, PreferredEmail) < |emails| ==> r == Some(emails[FirstWhere(emails, PreferredEmail)])
    ensures FirstWhere(emails, PreferredEmail) == |emails| && r.Some? ==> r == Some(emails[FirstWhere(emails, ValidEmail)])
  {
    var valid := Filter(emails, ValidEmail);
    var priority := Filter(valid, PriorityEmail);
    FilterFilter(emails, ValidEmail, PriorityEmail, PreferredEmail);
    FilterHead(emails, ValidEmail);
    FilterHead(emails, PreferredEmail);
    if priority != [] then Some(priority[0]) else if valid != [] then Some(valid[0]) else None
  }

  predicate NonEmpty(ms: seq<string>) { ms != [] }

  /** The contact phone: the first pattern, in the fixed order, with any
      match supplies its first match, stripped. */
  function PickPhone(found: seq<seq<string>>): (r: Option<string>)
    ensures r.None? <==> forall k :: 0 <= k < |found| ==> found[k] == []
    ensures r.Some? ==> FirstWhere(found, NonEmpty) < |found| &&
                        r.value == Strip(found[FirstWhere(found, NonEmpty)][0])
  {
    var k := FirstWhere(found, NonEmpty);
    if k < |found| then Some(Strip(found[k][0])) else None
  }

  /** Once a pattern has matched, the patterns after it are never consulted. */
  lemma {:induction false} PhoneIgnoresLater(found: seq<seq<string>>, k: nat, later: seq<seq<string>>)
    requires k < |found| && found[k] != [] && forall j :: 0 <= j < k ==> found[j] == []
    ensures PickPhone(found[..k + 1] + later) == PickPhone(found) == Some(Strip(found[k][0]))
  {
    var other := found[..k + 1] + later;
    assert forall j :: 0 <= j <= k ==> other[j] == found[j];
    assert FirstWhere(found, NonEmpty) == k;
    assert FirstWhere(other, NonEmpty) == k;
  }

  datatype Contact = Contact(email: Option<string>, phone: Option<string>)

  // ----- extract_keywords -----

  /** A meta value: stripped, then cut to 300 characters. */
  function Clip(s: string): (r: string)
    ensures |r| <= KeywordLimit
    ensures IsPrefix(r, Strip(s))
    ensures |r| == if |Strip(s)| <= KeywordLimit then |Strip(s)| else KeywordLimit
    ensures r == [] || !IsSpace(r[0])
    ensures |Strip(s)| <= KeywordLimit ==> r == Strip(s)
  {
    Take(Strip(s), KeywordLimit)
  }

  /** The keywords: from meta keywords, else meta description, else the
      Open Graph description; none when the page has none of them. */
  function PickKeywords(keywords: Option<string>, description: Option<string>, og: Option<string>): (r: Option<string>)
    ensures r.None? <==> keywords.None? && description.None? && og.None?
    ensures keywords.Some? ==> r == Some(Clip(keywords.value))
    ensures keywords.None? && description.Some? ==> r == Some(Clip(description.value))
    ensures keywords.None? && description.None? && og.Some? ==> r == Some(Clip(og.value))
    ensures r.Some? ==> |r.value| <= KeywordLimit
  {
    if keywords.Some? then Some(Clip(keywords.value))
    else if description.Some? then Some(Clip(description.value))
    else if og.Some? then Some(Clip(og.value))
    else None
  }

  // ----- scrape_and_extract -----

  predicate HasScheme(u: string) { IsPrefix("http://", u) || IsPrefix("https://", u) }

  /** A URL without `http://` or `https://` gets `https://` in front. */
  function Normalize(u: string): (r: string)
    ensures HasScheme(r)
    ensures |u| <= |r| && r[|r| - |u|..] == u
    ensures HasScheme(u) <==> r == u
  {
    if HasScheme(u) then u else "https://" + u
  }

  /** Normalising twice is normalising once. */
  lemma NormalizeIdempotent(u: string)
    ensures Normalize(Normalize(u)) == Normalize(u)
  {
  }

  /** The guard: no URL (missing, empty or blank), or the URL to open. */
  datatype Guarded = NoUrl | Open(url: string)

  function GuardUrl(url: Option<string>): (g: Guarded)
    ensures g.NoUrl? <==> url.None? || Visible(url.value) == []
    ensures g.Open? ==> g.url == Normalize(url.value)
  {
    if url.None? || Strip(url.value) == [] then NoUrl else Open(Normalize(url.value))
  }

  /** The recorded error of a navigation that raised. */
  function NavError(msg: string): (e: string)
    ensures |e| <= ErrorLimit
    ensures Contains(Lower(msg), "timeout") ==> e == "Timeout"
    ensures !Contains(Lower(msg), "timeout") ==>
      IsPrefix(e, msg) && |e| == (if |msg| <= ErrorLimit then |msg| else ErrorLimit)
  {
    if Contains(Lower(msg), "timeout") then "Timeout" else Take(msg, ErrorLimit)
  }

  /** The loaded page as the extractors see it: each pattern's matches and
      whether writing the HTML file succeeded. */
  datatype PageScan = PageScan(
    linkedin: seq<string>, facebook: seq<string>, instagram: seq<string>,
    emails: seq<string>, phones: seq<seq<string>>,
    keywords: Option<string>, description: Option<string>, og: Option<string>,
    size: nat, saved: bool)

  /** Opening the URL raised with a message, or the page loaded. */
  datatype Navigation = NavRaised(msg: string) | Loaded(page: PageScan)

  datatype Status = Success | Failed

  datatype SiteResult = SiteResult(
    uen: string, companyName: string, website: Option<string>,
    social: Social, contact: Contact, keywords: Option<string>,
    status: Status, htmlSaved: bool, htmlSize: nat, error: Option<string>)

  /** `scrape_and_extract`. */
  function ScrapeAndExtract(uen: string, name: string, url: Option<string>, nav: Navigation): (r: SiteResult)
    ensures r.uen == uen && r.companyName == name
    ensures r.status == Success <==> GuardUrl(url).Open? && nav.Loaded?
    ensures r.status == Failed <==> r.error.Some?
    ensures GuardUrl(url).NoUrl? ==> r.error == Some("No URL") && r.website == url
    ensures GuardUrl(url).Open? ==> r.website == Some(Normalize(url.value))
    ensures r.status == Failed ==> r.social == Social(None, None, None) && r.contact == Contact(None, None) &&
                                   r.keywords.None? && !r.htmlSaved && r.htmlSize == 0
    ensures r.htmlSaved <==> r.status == Success && nav.page.saved
    ensures GuardUrl(url).Open? && nav.NavRaised? ==> r.error == Some(NavError(nav.msg))
    ensures r.status == Success ==>
      && r.social == ExtractSocial(nav.page.linkedin, nav.page.facebook, nav.page.instagram)
      && r.contact == Contact(PickEmail(nav.page.emails), PickPhone(nav.page.phones))
      && r.keywords == PickKeywords(nav.page.keywords, nav.page.description, nav.page.og)
      && r.htmlSize == (if nav.page.saved then nav.page.size else 0)
  {
    var blank := SiteResult(uen, name, url, Social(None, None, None), Contact(None, None), None, Failed, false, 0, None);
    match GuardUrl(url)
    case NoUrl => blank.(error := Some("No URL"))
    case Open(u) =>
      match nav
      case NavRaised(msg) => blank.(website := Some(u), error := Some(NavError(msg)))
      case Loaded(p) =>
        SiteResult(uen, name, Some(u),
                   ExtractSocial(p.linkedin, p.facebook, p.instagram),
                   Contact(PickEmail(p.emails), PickPhone(p.phones)),
                   PickKeywords(p.keywords, p.description, p.og),
                   Success, p.saved, if p.saved then p.size else 0, None)
  }

  // ----- run_full_scrape -----

  datatype SiteRow = SiteRow(uen: string, companyName: string, website: Option<string>)

  /** `df['website'].notna() & (df['website'] != '')`. */
  predicate HasWebsite(r: SiteRow) { r.website.Some? && r.website.value != [] }

  datatype FailedSite = FailedSite(uen: string, companyName: string, website: Option<string>, error: Option<string>)

  datatype RunState<R, F> = RunState(results: seq<R>, failed: seq<F>, checkpoints: seq<Checkpoint<R>>)

  /** The loop over the first `n` rows: append the result, record it as
      failed when it failed, and save all results after every 100th. */
  function RunLoop<R, F>(res: nat -> R, failedAt: nat -> bool, fail: nat -> F, start: nat, n: nat): RunState<R, F> {
    if n == 0 then RunState([], [], [])
    else
      var st := RunLoop(res, failedAt, fail, start, n - 1);
      var results := st.results + [res(n - 1)];
      RunState(results,
               if failedAt(n - 1) then st.failed + [fail(n - 1)] else st.failed,
               if n % CheckpointEvery == 0 then st.checkpoints + [Checkpoint(start + n, results)] else st.checkpoints)
  }

  /** One result per row, in order. */
  lemma {:induction false} RunLoopResults<R, F>(res: nat -> R, failedAt: nat -> bool, fail: nat -> F, start: nat, n: nat)
    ensures var st := RunLoop(res, failedAt, fail, start, n);
      |st.results| == n && forall i :: 0 <= i < n ==> st.results[i] == res(i)
    decreases n
  {
    if n > 0 {
      RunLoopResults(res, failedAt, fail, start, n - 1);
    }
  }

  /** The failures are exactly the failed rows, in order. */
  lemma {:induction false} RunLoopFailed<R, F>(res: nat -> R, failedAt: nat -> bool, fail: nat -> F, start: nat, n: nat)
    ensures RunLoop(res, failedAt, fail, start, n).failed == MapSeq(Filter(Range(n), failedAt), fail)
    decreases n
  {
    if n > 0 {
      RunLoopFailed(res, failedAt, fail, start, n - 1);
      MapFilterRangeLast(n, failedAt, fail);
    }
  }

  /** The checkpoints are those of the shared cadence. */
  lemma {:induction false} RunLoopCheckpoints<R, F>(res: nat -> R, failedAt: nat -> bool, fail: nat -> F, start: nat, n: nat)
    ensures var st := RunLoop(res, failedAt, fail, start, n);
      st.checkpoints == Checkpoints(st.results, CheckpointEvery, start)
    decreases n
  {
    if n > 0 {
      var prev := RunLoop(res, failedAt, fail, start, n - 1);
      var st := RunLoop(res, failedAt, fail, start, n);
      var grown := prev.checkpoints + (if n % CheckpointEvery == 0 then [Checkpoint(start + n, st.results)] else []);
      assert st.checkpoints == grown;
      assert prev.checkpoints == Checkpoints(prev.results, CheckpointEvery, start) by {
        RunLoopCheckpoints(res, failedAt, fail, start, n - 1);
      }
      assert Checkpoints(st.results, CheckpointEvery, start) == grown by {
        RunLoopLength(res, failedAt, fail, start, n - 1);
        CheckpointsSnoc(prev.results, res(n - 1), CheckpointEvery, start);
      }
    }
  }

  lemma {:induction false} RunLoopLength<R, F>(res: nat -> R, failedAt: nat -> bool, fail: nat -> F, start: nat, n: nat)
    ensures |RunLoop(res, failedAt, fail, start, n).results| == n
    decreases n
  {
    if n > 0 {
      RunLoopLength(res, failedAt, fail, start, n - 1);
    }
  }

  function ResultAt(todo: seq<SiteRow>, nav: nat -> Navigation): nat -> SiteResult {
    (i: nat) => if i < |todo| then ScrapeAndExtract(todo[i].uen, todo[i].companyName, todo[i].website, nav(i))
                else ScrapeAndExtract("", "", None, nav(i))
  }

  function FailedAt(todo: seq<SiteRow>, nav: nat -> Navigation): nat -> bool {
    (i: nat) => ResultAt(todo, nav)(i).status == Failed
  }

  /** The failure entry keeps the row's own website, not the normalised one. */
  function FailureAt(todo: seq<SiteRow>, nav: nat -> Navigation): nat -> FailedSite {
    (i: nat) => if i < |todo| then FailedSite(todo[i].uen, todo[i].companyName, todo[i].website, ResultAt(todo, nav)(i).error)
                else FailedSite("", "", None, None)
  }

  /** The rows `run_full_scrape` processes. */
  function ToProcess(rows: seq<SiteRow>, start: nat, max: nat): (todo: seq<SiteRow>)
    ensures |todo| <= max
    ensures forall i :: 0 <= i < |todo| ==> HasWebsite(todo[i])
    ensures IsSubseq(todo, rows)
    ensures var sites := Filter(rows, HasWebsite);
      && |todo| == (if start >= |sites| then 0 else if start + max <= |sites| then max else |sites| - start)
      && forall i :: 0 <= i < |todo| ==> todo[i] == sites[start + i]
  {
    var withSites := Filter(rows, HasWebsite);
    FilterIsSubseq(rows, HasWebsite);
    var todo := Slice(withSites, start, start + max);
    SliceIsSubseq(withSites, start, start + max);
    SubseqTrans(todo, withSites, rows);
    todo
  }

  /** `run_full_scrape`: exactly one result per processed row, in order;
      `failed_sites` holds exactly the failed ones, in order; the `k`-th
      checkpoint, saved after the `100 * (k + 1)`-th row, is named
      `start_from + 100 * (k + 1)` and holds the results so far. */
  function RunFullScrape(rows: seq<SiteRow>, start: nat, max: nat, nav: nat -> Navigation): (st: RunState<SiteResult, FailedSite>)
    ensures var todo := ToProcess(rows, start, max);
      && |st.results| == |todo|
      && (forall i :: 0 <= i < |todo| ==>
            st.results[i] == ScrapeAndExtract(todo[i].uen, todo[i].companyName, todo[i].website, nav(i)))
      && st.failed == MapSeq(Filter(Range(|todo|), FailedAt(todo, nav)), FailureAt(todo, nav))
    ensures |st.checkpoints| == |st.results| / CheckpointEvery
    ensures forall k :: 0 <= k < |st.checkpoints| ==>
      st.checkpoints[k].name == start + (k + 1) * CheckpointEvery &&
      |st.checkpoints[k].rows| == (k + 1) * CheckpointEvery && Prefix(st.checkpoints[k].rows, st.results)
  {
    var todo := ToProcess(rows, start, max);
    RunLoopResults(ResultAt(todo, nav), FailedAt(todo, nav), FailureAt(todo, nav), start, |todo|);
    RunLoopFailed(ResultAt(todo, nav), FailedAt(todo, nav), FailureAt(todo, nav), start, |todo|);
    RunLoopClosed(ResultAt(todo, nav), FailedAt(todo, nav), FailureAt(todo, nav), start, |todo|);
    RunLoop(ResultAt(todo, nav), FailedAt(todo, nav), FailureAt(todo, nav), start, |todo|)
  }

  /** The loop's checkpoints in closed form. */
  lemma RunLoopClosed<R, F>(res: nat -> R, failedAt: nat -> bool, fail: nat -> F, start: nat, n: nat)
    ensures var st := RunLoop(res, failedAt, fail, start, n);
      |st.checkpoints| == |st.results| / CheckpointEvery &&
      forall k :: 0 <= k < |st.checkpoints| ==>
        st.checkpoints[k].name == start + (k + 1) * CheckpointEvery &&
        |st.checkpoints[k].rows| == (k + 1) * CheckpointEvery && Prefix(st.checkpoints[k].rows, st.results)
  {
    RunLoopCheckpoints(res, failedAt, fail, start, n);
    CheckpointsClosed(RunLoop(res, failedAt, fail, start, n).results, CheckpointEvery, start);
  }
}
