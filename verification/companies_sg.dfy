/** The companies.sg scraper: for each of the first 10000 ACRA rows with a
    UEN and a name, build the company's companies.sg URL, load the page and
    read six labelled fields, recording an error row when loading fails; the
    results are saved after every 500th input row.  The browser is an input:
    for the row at position `i`, `fetch(i)` is the parsed page or a failure. */
module CompaniesSg {
  import opened Wrappers
  import opened Text
  import opened Seqs

  const MaxRows: nat := 10000
  const SaveInterval: nat := 500
  const BaseUrl: string := "https://www.companies.sg/business/"

  /** An element of the parsed page, in document order: a `span` with its
      `.string` (absent when the span has several children), a `label` with
      its text pieces, or any other tag. */
  datatype Elem = Span(str: Option<string>) | Label(pieces: seq<string>) | OtherTag

  /** `soup.find("span", string=re.compile(key, re.I))` accepts this span. */
  predicate SpanMatches(e: Elem, key: string) {
    e.Span? && e.str.Some? && ContainsCI(e.str.value, key)
  }

  /** Index of the first matching span at or after `from`. */
  function FirstSpan(doc: seq<Elem>, key: string, from: nat): (r: Option<nat>)
    ensures r.Some? ==> from <= r.value < |doc| && SpanMatches(doc[r.value], key)
    ensures r.Some? ==> forall j :: from <= j < r.value ==> !SpanMatches(doc[j], key)
    ensures r.None? ==> forall j :: from <= j < |doc| ==> !SpanMatches(doc[j], key)
    decreases |doc| - from
  {
    if from >= |doc| then None
    else if SpanMatches(doc[from], key) then Some(from)
    else FirstSpan(doc, key, from + 1)
  }

  /** `find_next("label")`: index of the first label at or after `from`. */
  function FirstLabel(doc: seq<Elem>, from: nat): (r: Option<nat>)
    ensures r.Some? ==> from <= r.value < |doc| && doc[r.value].Label?
    ensures r.Some? ==> forall j :: from <= j < r.value ==> !doc[j].Label?
    ensures r.None? ==> forall j :: from <= j < |doc| ==> !doc[j].Label?
    decreases |doc| - from
  {
    if from >= |doc| then None
    else if doc[from].Label? then Some(from)
    else FirstLabel(doc, from + 1)
  }

  /** `get_text(strip=True)`: the stripped pieces, concatenated. */
  function TextStripped(pieces: seq<string>): string {
    Flatten(MapSeq(pieces, Strip))
  }

  /** `extract_text`: the stripped text of the first label after the first
      span matching `label`; `None` when either is missing. */
  function ExtractText(doc: seq<Elem>, key: string): (r: Option<string>)
    ensures r.Some? ==> exists i, j :: 0 <= i < j < |doc| && SpanMatches(doc[i], key) && doc[j].Label? &&
                                       (forall k :: 0 <= k < i ==> !SpanMatches(doc[k], key)) &&
                                       (forall k :: i < k < j ==> !doc[k].Label?) &&
                                       r.value == TextStripped(doc[j].pieces)
  {
    match FirstSpan(doc, key, 0)
    case None => None
    case Some(i) =>
      match FirstLabel(doc, i + 1)
      case None => None
      case Some(j) => Some(TextStripped(doc[j].pieces))
  }

  /** A value is found exactly when some matching span has a label somewhere
      after it: later spans add nothing, since the first span already sees
      every label after them. */
  lemma ExtractTextFound(doc: seq<Elem>, key: string)
    ensures ExtractText(doc, key).Some? <==>
      exists i, j :: 0 <= i < j < |doc| && SpanMatches(doc[i], key) && doc[j].Label?
  {
    if exists i, j :: 0 <= i < j < |doc| && SpanMatches(doc[i], key) && doc[j].Label? {
      var i, j :| 0 <= i < j < |doc| && SpanMatches(doc[i], key) && doc[j].Label?;
      var i0 := FirstSpan(doc, key, 0);
      assert i0.Some? && i0.value <= i;
      assert FirstLabel(doc, i0.value + 1).Some?;
    }
  }

  /** One input row: the `uen` and `entity_name` cells ("" when the column is missing). */
  datatype Input = Input(uen: string, entityName: string)

  /** `if not uen or not name: continue`, after stripping both. */
  predicate Skipped(r: Input) { Strip(r.uen) == [] || Strip(r.entityName) == [] }

  /** `name.replace(".", "").replace(" ", "-")`. */
  function Slug(name: string): (s: string)
    ensures '.' !in s && ' ' !in s
    ensures |s| <= |name|
    ensures s == MapSeq(Filter(name, NotDot), SpaceToDash)
  {
    if name == [] then []
    else if name[0] == '.' then Slug(name[1..])
    else
      assert Filter(name, NotDot) == [name[0]] + Filter(name[1..], NotDot);
      [SpaceToDash(name[0])] + Slug(name[1..])
  }

  predicate NotDot(c: char) { c != '.' }

  function SpaceToDash(c: char): char { if c == ' ' then '-' else c }

  /** The page URL of a row: base, UEN, slug of the name, and a trailing '-'. */
  function CompanyUrl(uen: string, name: string): (url: string)
    ensures IsPrefix(BaseUrl + uen + "/", url)
    ensures url == BaseUrl + uen + "/" + Slug(name) + "-"
    ensures url[|url| - 1] == '-'
  {
    BaseUrl + uen + "/" + Slug(name) + "-"
  }

  /** Slugging is the identity on names without dots or spaces. */
  lemma SlugPlain(name: string)
    requires '.' !in name && ' ' !in name
    ensures Slug(name) == name
  {
    if name != [] {
      assert '.' !in name[1..] && ' ' !in name[1..];
      SlugPlain(name[1..]);
    }
  }

  /** What loading the page gave. */
  datatype Fetch = FetchRaised | Fetched(doc: seq<Elem>)

  datatype SgRecord = SgRecord(entityName: Option<string>, uen: Option<string>, incorporationDate: Option<string>,
                               companyType: Option<string>, entityStatus: Option<string>, entityType: Option<string>,
                               url: string)

  /** The result row for a non-skipped input row: the six labelled fields of
      the page, or the error row keeping only the UEN and the URL. */
  function RecordFor(r: Input, f: Fetch): (rec: SgRecord)
    ensures rec.url == CompanyUrl(Strip(r.uen), Strip(r.entityName))
    ensures f.FetchRaised? ==> rec == SgRecord(None, Some(Strip(r.uen)), None, None, None, None, rec.url)
    ensures f.Fetched? ==> rec.entityName == ExtractText(f.doc, "Entity Name") && rec.uen == ExtractText(f.doc, "UEN")
    ensures f.Fetched? ==> rec.incorporationDate == ExtractText(f.doc, "Registration Incorporation Date")
    ensures f.Fetched? ==> rec.companyType == ExtractText(f.doc, "Company Type Description")
    ensures f.Fetched? ==> rec.entityStatus == ExtractText(f.doc, "Entity Status Description")
    ensures f.Fetched? ==> rec.entityType == ExtractText(f.doc, "Entity Type Description")
  {
    var uen := Strip(r.uen);
    var url := CompanyUrl(uen, Strip(r.entityName));
    match f
    case FetchRaised => SgRecord(None, Some(uen), None, None, None, None, url)
    case Fetched(doc) =>
      SgRecord(ExtractText(doc, "Entity Name"), ExtractText(doc, "UEN"),
               ExtractText(doc, "Registration Incorporation Date"), ExtractText(doc, "Company Type Description"),
               ExtractText(doc, "Entity Status Description"), ExtractText(doc, "Entity Type Description"), url)
  }

  /** A periodic save: the input position that triggered it (`i + 1`) and the
      results written. */
  datatype Save = Save(tag: nat, rows: seq<SgRecord>)

  datatype SgState = SgState(results: seq<SgRecord>, saves: seq<Save>)

  /** The loop over the rows, given which positions go on (`kept`) and the
      result row of each position (`rec`): a skipped row `continue`s past the
      save check as well, and a kept row at position `i` triggers a save of
      the results so far when `i + 1` is a multiple of 500. */
  function Run(kept: nat -> bool, rec: nat -> SgRecord, n: nat): SgState {
    if n == 0 then SgState([], [])
    else
      var st := Run(kept, rec, n - 1);
      if !kept(n - 1) then st
      else
        var res := st.results + [rec(n - 1)];
        SgState(res, if n % SaveInterval == 0 then st.saves + [Save(n, res)] else st.saves)
  }

  predicate KeptAt(rows: seq<Input>, i: nat) { i < |rows| && !Skipped(rows[i]) }

  function RecordAt(rows: seq<Input>, fetch: nat -> Fetch, i: nat): SgRecord {
    if i < |rows| then RecordFor(rows[i], fetch(i)) else RecordFor(Input("", ""), FetchRaised)
  }

  /** The positions that produce a result. */
  function Kept(rows: seq<Input>): nat -> bool { (i: nat) => KeptAt(rows, i) }

  /** The positions that trigger a save. */
  function Saving(kept: nat -> bool): nat -> bool { (i: nat) => kept(i) && (i + 1) % SaveInterval == 0 }

  /** The result row each position would produce. */
  function Recorded(rows: seq<Input>, fetch: nat -> Fetch): nat -> SgRecord { (i: nat) => RecordAt(rows, fetch, i) }

  function TagOf(i: nat): nat { i + 1 }

  function SaveTag(s: Save): nat { s.tag }

  /** One result per kept position, in position order. */
  lemma {:induction false} RunResults(kept: nat -> bool, rec: nat -> SgRecord, n: nat)
    ensures Run(kept, rec, n).results == MapSeq(Filter(Range(n), kept), rec)
    decreases n
  {
    if n > 0 {
      RunResults(kept, rec, n - 1);
      MapFilterRangeLast(n, kept, rec);
    }
  }

  /** A save exactly at the kept positions `i` with `i + 1` a multiple of
      500, tagged `i + 1`. */
  lemma {:induction false} RunSaveTags(kept: nat -> bool, rec: nat -> SgRecord, n: nat)
    ensures MapSeq(Run(kept, rec, n).saves, SaveTag) == MapSeq(Filter(Range(n), Saving(kept)), TagOf)
    decreases n
  {
    if n > 0 {
      var prev := Run(kept, rec, n - 1);
      var st := Run(kept, rec, n);
      RunSaveTags(kept, rec, n - 1);
      MapFilterRangeLast(n, Saving(kept), TagOf);
      if Saving(kept)(n - 1) {
        assert st.saves == prev.saves + [Save(n, st.results)];
        MapAppend(prev.saves, [Save(n, st.results)], SaveTag);
      } else {
        assert st.saves == prev.saves;
      }
    }
  }

  /** Every save holds the results as they stood: a prefix of the final results. */
  lemma {:induction false} RunSavesArePrefixes(kept: nat -> bool, rec: nat -> SgRecord, n: nat)
    ensures forall k :: 0 <= k < |Run(kept, rec, n).saves| ==>
      var s := Run(kept, rec, n).saves[k];
      |s.rows| <= |Run(kept, rec, n).results| && s.rows == Run(kept, rec, n).results[..|s.rows|]
    decreases n
  {
    if n > 0 {
      RunSavesArePrefixes(kept, rec, n - 1);
      var prev := Run(kept, rec, n - 1);
      var st := Run(kept, rec, n);
      assert prev.results == st.results[..|prev.results|];
      forall k | 0 <= k < |st.saves|
        ensures |st.saves[k].rows| <= |st.results| && st.saves[k].rows == st.results[..|st.saves[k].rows|]
      {
        if k < |prev.saves| {
          assert st.saves[k] == prev.saves[k];
        }
      }
    }
  }

  /** The whole script: the first `MaxRows` rows through the loop, one result
      per non-skipped row in row order. */
  function Scrape(allRows: seq<Input>, fetch: nat -> Fetch): (st: SgState)
    ensures |st.results| <= MaxRows
    ensures st.results == MapSeq(Filter(Range(|Take(allRows, MaxRows)|), Kept(Take(allRows, MaxRows))),
                                 Recorded(Take(allRows, MaxRows), fetch))
  {
    var rows := Take(allRows, MaxRows);
    RunResults(Kept(rows), Recorded(rows, fetch), |rows|);
    Run(Kept(rows), Recorded(rows, fetch), |rows|)
  }

  /** Saves carry tags that are multiples of 500 no greater than 10000. */
  lemma ScrapeSaveTags(allRows: seq<Input>, fetch: nat -> Fetch)
    ensures forall k :: 0 <= k < |Scrape(allRows, fetch).saves| ==>
      Scrape(allRows, fetch).saves[k].tag % SaveInterval == 0 && Scrape(allRows, fetch).saves[k].tag <= MaxRows
  {
    var rows := Take(allRows, MaxRows);
    var st := Scrape(allRows, fetch);
    RunSaveTags(Kept(rows), Recorded(rows, fetch), |rows|);
    var idx := Filter(Range(|rows|), Saving(Kept(rows)));
    forall k | 0 <= k < |st.saves|
      ensures st.saves[k].tag % SaveInterval == 0 && st.saves[k].tag <= MaxRows
    {
      assert SaveTag(st.saves[k]) == MapSeq(idx, TagOf)[k];
      assert Saving(Kept(rows))(idx[k]);
    }
  }
}
