/** The rules the RecordOwl scrapers use to pick a company's own website
    among the links of its RecordOwl page: the first `href` that passes. */
module LinkRule {
  import opened Wrappers
  import opened Text

  /** Links to skip (tested on the lower-cased `href`). */
  const SkipParts: seq<string> := ["recordowl.com", "javascript", "facebook", "linkedin", "twitter", "instagram", "youtube"]

  /** A website must mention one of these (tested on the lower-cased `href`). */
  const DomainParts: seq<string> := [".com", ".sg", ".net", ".org"]

  /** The social sites of the older scraper's skip list. */
  const LegacySocialParts: seq<string> := ["facebook", "linkedin", "twitter", "instagram"]

  /** The rule of the parallel and single-worker scrapers. */
  predicate Plausible(h: string) {
    && Contains(h, "http")
    && !ContainsAny(Lower(h), SkipParts)
    && ContainsAny(Lower(h), DomainParts)
  }

  /** The rule of the older scraper: RecordOwl and `javascript` links are
      tested case-sensitively on the raw `href`, and YouTube is not skipped. */
  predicate LegacyPlausible(h: string) {
    && Contains(h, "http")
    && !Contains(h, "recordowl.com")
    && !Contains(h, "javascript")
    && ContainsAny(Lower(h), DomainParts)
    && !ContainsAny(Lower(h), LegacySocialParts)
  }

  /** The links of the company page (each `href`, if any), or a failure
      while reading them, which the scrapers swallow. */
  datatype LinkScan = ScanRaised | Scanned(hrefs: seq<Option<string>>)

  /** The website a scan yields under `rule`: none when the scan failed. */
  function ScanWebsite(scan: LinkScan, rule: string -> bool): (r: Option<string>)
    ensures scan.ScanRaised? ==> r.None?
    ensures r.Some? ==> rule(r.value)
    ensures scan.Scanned? ==> r == FirstWebsite(scan.hrefs, rule)
  {
    match scan
    case ScanRaised => None
    case Scanned(hrefs) => FirstWebsite(hrefs, rule)
  }

  /** `if href and ...`: a link without an `href` never passes. */
  predicate Passes(rule: string -> bool, href: Option<string>) {
    href.Some? && rule(href.value)
  }

  /** `i` is the first position whose link passes `rule`. */
  predicate FirstPassingAt(hrefs: seq<Option<string>>, rule: string -> bool, i: int) {
    0 <= i < |hrefs| && Passes(rule, hrefs[i]) && forall j :: 0 <= j < i ==> !Passes(rule, hrefs[j])
  }

  /** The position the loop stops at: the first passing link, or the end. */
  function FirstPassing(hrefs: seq<Option<string>>, rule: string -> bool): (i: nat)
    ensures i <= |hrefs|
    ensures forall j :: 0 <= j < i ==> !Passes(rule, hrefs[j])
    ensures i < |hrefs| ==> Passes(rule, hrefs[i])
  {
    if hrefs == [] then 0
    else if Passes(rule, hrefs[0]) then 0
    else 1 + FirstPassing(hrefs[1..], rule)
  }

  /** The `for link in links: ... website = href; break` loop. */
  function FirstWebsite(hrefs: seq<Option<string>>, rule: string -> bool): (r: Option<string>)
    ensures r.None? <==> forall i :: 0 <= i < |hrefs| ==> !Passes(rule, hrefs[i])
    ensures r.Some? ==> exists i :: FirstPassingAt(hrefs, rule, i) && hrefs[i] == r
  {
    var i := FirstPassing(hrefs, rule);
    if i < |hrefs| then
      assert FirstPassingAt(hrefs, rule, i);
      hrefs[i]
    else None
  }

  lemma LowerLiteral(t: string)
    requires forall i :: 0 <= i < |t| ==> !IsUpperAscii(t[i])
    ensures Lower(t) == t
  {
  }

  /** Every link the parallel rule accepts, the older rule accepts too. */
  lemma PlausibleIsLegacy(h: string)
    requires Plausible(h)
    ensures LegacyPlausible(h)
  {
    ContainsLowerImplies(h, "recordowl.com");
    ContainsLowerImplies(h, "javascript");
    LowerLiteral("recordowl.com");
    LowerLiteral("javascript");
    assert !Contains(Lower(h), SkipParts[0]) && !Contains(Lower(h), SkipParts[1]);
    forall i | 0 <= i < |LegacySocialParts|
      ensures !Contains(Lower(h), LegacySocialParts[i])
    {
      assert LegacySocialParts[i] == SkipParts[i + 2];
    }
  }

  lemma ContainsLowerImplies(s: string, t: string)
    ensures Contains(s, t) ==> Contains(Lower(s), Lower(t))
  {
    if Contains(s, t) {
      ContainsLower(s, t);
    }
  }

  /** A character of `t` missing from `s` rules out `t in s`. */
  lemma NotContainsByChar(s: string, t: string, k: nat)
    requires k < |t| && t[k] !in s
    ensures !Contains(s, t)
  {
    if Contains(s, t) {
      ContainsChar(s, t, k);
    }
  }

  /** A YouTube link passes the older rule but not the parallel one. */
  lemma YouTubeOnlyLegacy(h: string)
    requires h == "https://youtube.com/"
    ensures LegacyPlausible(h) && !Plausible(h)
  {
    YouTubeFacts(h);
    LegacyOfLowerCase(h);
    SkippedNotPlausible(h);
  }

  lemma YouTubeFacts(h: string)
    requires h == "https://youtube.com/"
    ensures Lower(h) == h && ContainsAny(h, DomainParts) && ContainsAny(h, SkipParts)
    ensures !ContainsAny(h, LegacySocialParts)
    ensures Contains(h, "http") && !Contains(h, "recordowl.com") && !Contains(h, "javascript")
  {
    YouTubeLower(h);
    YouTubeLists(h);
    YouTubeRaw(h);
  }

  lemma YouTubeLists(h: string)
    requires h == "https://youtube.com/"
    ensures ContainsAny(h, DomainParts) && ContainsAny(h, SkipParts) && !ContainsAny(h, LegacySocialParts)
  {
    YouTubeHasDomain(h);
    YouTubeSkipped(h);
    YouTubeNotSocial(h);
  }

  lemma YouTubeRaw(h: string)
    requires h == "https://youtube.com/"
    ensures Contains(h, "http") && !Contains(h, "recordowl.com") && !Contains(h, "javascript")
  {
    SampleRawLacks(h, "recordowl.com");
    SampleRawLacks(h, "javascript");
    ContainsWitness(h, "http", 0);
  }

  /** Neither sample link has an `r` or a `j`, so the case-sensitive tests fail. */
  lemma SampleRawLacks(h: string, t: string)
    requires h == "https://youtube.com/" || h == "https://RECORDOWL.COM/"
    requires t == "recordowl.com" || t == "javascript"
    ensures !Contains(h, t)
  {
    AbsentChar(h, t, 0);
  }


  /** For a link already in lower case, the older rule reads off the raw text. */
  lemma LegacyOfLowerCase(h: string)
    requires Lower(h) == h && Contains(h, "http") && !Contains(h, "recordowl.com") && !Contains(h, "javascript")
    requires ContainsAny(h, DomainParts) && !ContainsAny(h, LegacySocialParts)
    ensures LegacyPlausible(h)
  {
  }

  /** A link that mentions a skipped site never passes the newer rule. */
  lemma SkippedNotPlausible(h: string)
    requires ContainsAny(Lower(h), SkipParts)
    ensures !Plausible(h)
  {
  }

  lemma YouTubeLower(h: string)
    requires h == "https://youtube.com/"
    ensures Lower(h) == h
  {
    LowerLiteral(h);
  }

  lemma YouTubeHasDomain(h: string)
    requires h == "https://youtube.com/"
    ensures Contains(h, DomainParts[0])
  {
    assert h[15..19] == ".com";
    ContainsWitness(h, ".com", 15);
  }

  lemma YouTubeSkipped(h: string)
    requires h == "https://youtube.com/"
    ensures Contains(h, SkipParts[6])
  {
    assert h[8..15] == "youtube";
    ContainsWitness(h, "youtube", 8);
  }

  lemma YouTubeNotSocial(h: string)
    requires h == "https://youtube.com/"
    ensures forall i :: 0 <= i < |LegacySocialParts| ==> !Contains(h, LegacySocialParts[i])
  {
    YouTubeLacks(h, "facebook", 0);
    YouTubeLacks(h, "linkedin", 3);
    YouTubeLacks(h, "twitter", 1);
    YouTubeLacks(h, "instagram", 5);
  }

  lemma YouTubeLacks(h: string, t: string, k: nat)
    requires h == "https://youtube.com/"
    requires (t == "facebook" && k == 0) || (t == "linkedin" && k == 3) || (t == "twitter" && k == 1) || (t == "instagram" && k == 5)
    ensures !Contains(h, t)
  {
    AbsentChar(h, t, k);
  }

  /** A character absent from `h` rules out `t in h`. */
  lemma AbsentChar(h: string, t: string, k: nat)
    requires k < |t| && forall i :: 0 <= i < |h| ==> h[i] != t[k]
    ensures !Contains(h, t)
  {
    NotContainsByChar(h, t, k);
  }

  /** An upper-case RecordOwl link passes the older rule's case-sensitive
      test, while the parallel rule skips it. */
  lemma UpperRecordOwlOnlyLegacy(h: string)
    requires h == "https://RECORDOWL.COM/"
    ensures LegacyPlausible(h) && !Plausible(h)
  {
    var l := Lower(h);
    UpperRecordOwlLower(h, l);
    UpperRecordOwlFacts(l);
    UpperRecordOwlNotSocial(l);
    UpperRecordOwlRaw(h);
  }

  lemma UpperRecordOwlRaw(h: string)
    requires h == "https://RECORDOWL.COM/"
    ensures Contains(h, "http") && !Contains(h, "recordowl.com") && !Contains(h, "javascript")
  {
    ContainsWitness(h, "http", 0);
    SampleRawLacks(h, "recordowl.com");
    SampleRawLacks(h, "javascript");
  }

  lemma UpperRecordOwlLower(h: string, l: string)
    requires h == "https://RECORDOWL.COM/" && l == Lower(h)
    ensures l == "https://recordowl.com/"
  {
  }

  lemma UpperRecordOwlFacts(l: string)
    requires l == "https://recordowl.com/"
    ensures Contains(l, DomainParts[0]) && Contains(l, SkipParts[0])
  {
    assert l[17..21] == ".com";
    ContainsWitness(l, ".com", 17);
    assert l[8..21] == "recordowl.com";
    ContainsWitness(l, "recordowl.com", 8);
  }

  lemma UpperRecordOwlNotSocial(l: string)
    requires l == "https://recordowl.com/"
    ensures forall i :: 0 <= i < |LegacySocialParts| ==> !Contains(l, LegacySocialParts[i])
  {
    RecordOwlLacks(l, "facebook", 0);
    RecordOwlLacks(l, "linkedin", 1);
    RecordOwlLacks(l, "twitter", 2);
    RecordOwlLacks(l, "instagram", 0);
  }

  lemma RecordOwlLacks(l: string, t: string, k: nat)
    requires l == "https://recordowl.com/"
    requires (t == "facebook" && k == 0) || (t == "linkedin" && k == 1) || (t == "twitter" && k == 2) || (t == "instagram" && k == 0)
    ensures !Contains(l, t)
  {
    AbsentChar(l, t, k);
  }
}
