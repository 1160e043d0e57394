/** The fast website finder: turn a company name into a domain stem, guess
    six Singapore-style domains from it, keep the first one that answers,
    and run the companies through in batches of 5000, keeping one hit per UEN
    at the end.  The reachability probe (`check_domain_exists`, HTTP HEAD
    requests) is the oracle `reach`. */
module DomainGuess {
  import opened Wrappers
  import opened Text
  import opened Seqs
  import Dedup

  /** The words of the legal-form suffix rule, in the regex's alternation
      order (`PTE\.?` tries `PTE.` before `PTE`). */
  const LegalSuffixes: seq<string> := ["PTE.", "PTE", "LTD.", "LTD", "LIMITED", "PRIVATE", "LLP", "SINGAPORE"]

  /** Does `s` end, case-insensitively, with the word `w` preceded by whitespace? */
  predicate EndsWithWord(s: string, w: string) {
    |w| < |s| && IsSpace(s[|s| - |w| - 1]) && Upper(s[|s| - |w|..]) == w
  }

  /** Length of the first word of `words` that `s` ends with after whitespace. */
  function SuffixMatch(s: string, words: seq<string>): (r: Option<nat>)
    ensures r.Some? ==> exists i :: 0 <= i < |words| && r.value == |words[i]| && EndsWithWord(s, words[i])
    ensures r.None? ==> forall i :: 0 <= i < |words| ==> !EndsWithWord(s, words[i])
  {
    if words == [] then None
    else if EndsWithWord(s, words[0]) then Some(|words[0]|)
    else
      var r := SuffixMatch(s, words[1..]);
      assert forall i :: 1 <= i < |words| ==> words[i] == words[1..][i - 1];
      r
  }

  /** `re.sub(r'\s+(PTE\.?|LTD\.?|LIMITED|PRIVATE|LLP|SINGAPORE)$', '', s, flags=re.IGNORECASE)`:
      the leftmost match starts at the whitespace run before the suffix word,
      so the word and that whole run go. */
  function DropLegalSuffix(s: string): (r: string)
    ensures SuffixMatch(s, LegalSuffixes).None? ==> r == s
    ensures SuffixMatch(s, LegalSuffixes).Some? ==>
      var n := SuffixMatch(s, LegalSuffixes).value;
      n < |s| && r == TrimEnd(s[..|s| - n]) && IsSpace(s[|s| - n - 1])
  {
    match SuffixMatch(s, LegalSuffixes)
    case None => s
    case Some(n) => TrimEnd(s[..|s| - n])
  }

  /** The regex class `[a-zA-Z0-9\s]` that survives the special-character pass. */
  predicate IsNameChar(c: char) { IsAlnumAscii(c) || IsSpace(c) }

  predicate IsStemChar(c: char) { IsLowerAscii(c) || IsDigit(c) }

  /** `clean_company_name`: NaN gives the empty stem; otherwise strip, drop
      one legal suffix, drop special characters, lower-case and remove all
      whitespace. */
  function CleanCompanyName(name: Option<string>): (r: string)
    ensures name.None? ==> r == ""
    ensures forall i :: 0 <= i < |r| ==> IsStemChar(r[i])
  {
    match name
    case None => ""
    case Some(v) =>
      StemPipeline(DropLegalSuffix(Strip(v)));
      Visible(Lower(Filter(DropLegalSuffix(Strip(v)), IsNameChar)))
  }

  /** The stem is exactly the ASCII letters and digits left once the suffix
      is gone, lower-cased. */
  lemma CleanIsAlnumLower(v: string)
    ensures CleanCompanyName(Some(v)) == Lower(Filter(DropLegalSuffix(Strip(v)), IsAlnumAscii))
  {
    StemPipeline(DropLegalSuffix(Strip(v)));
  }

  /** The three regex passes agree with "the ASCII letters and digits, lower-cased". */
  lemma {:induction false} StemPipeline(s: string)
    ensures Visible(Lower(Filter(s, IsNameChar))) == Lower(Filter(s, IsAlnumAscii))
    decreases |s|
  {
    if s != [] {
      StemPipeline(s[1..]);
      NameCharStep(s);
      AlnumStep(s);
    }
  }

  /** One character through the special-character, lower-case and
      whitespace passes: only an ASCII letter or digit survives, lower-cased. */
  lemma NameCharStep(s: string)
    requires s != []
    ensures Visible(Lower(Filter(s, IsNameChar))) ==
      (if IsAlnumAscii(s[0]) then [LowerChar(s[0])] else []) + Visible(Lower(Filter(s[1..], IsNameChar)))
  {
    var rest := Filter(s[1..], IsNameChar);
    if IsNameChar(s[0]) {
      var d := LowerChar(s[0]);
      assert Filter(s, IsNameChar) == [s[0]] + rest;
      LowerCons(s[0], rest);
      VisibleAppend([d], Lower(rest));
      assert Visible([d]) == (if IsSpace(d) then [] else [d]) + Visible([]);
      assert IsSpace(d) <==> !IsAlnumAscii(s[0]);
    } else {
      assert Filter(s, IsNameChar) == rest;
    }
  }

  lemma AlnumStep(s: string)
    requires s != []
    ensures Lower(Filter(s, IsAlnumAscii)) ==
      (if IsAlnumAscii(s[0]) then [LowerChar(s[0])] else []) + Lower(Filter(s[1..], IsAlnumAscii))
  {
    var rest := Filter(s[1..], IsAlnumAscii);
    if IsAlnumAscii(s[0]) {
      assert Filter(s, IsAlnumAscii) == [s[0]] + rest;
      LowerCons(s[0], rest);
    } else {
      assert Filter(s, IsAlnumAscii) == rest;
    }
  }

  /** Whitespace never reaches the stem, so stripping cannot change it. */
  lemma {:induction false} AlnumIgnoresSpace(s: string)
    ensures Filter(s, IsAlnumAscii) == Filter(Visible(s), IsAlnumAscii)
    decreases |s|
  {
    if s != [] {
      AlnumIgnoresSpace(s[1..]);
      if IsSpace(s[0]) {
        assert Visible(s) == Visible(s[1..]);
      } else {
        assert Visible(s) == [s[0]] + Visible(s[1..]);
        assert Visible(s)[1..] == Visible(s[1..]);
      }
    }
  }

  /** A name without a legal suffix keeps exactly its ASCII letters and
      digits, lower-cased. */
  lemma CleanWithoutSuffix(v: string)
    requires SuffixMatch(Strip(v), LegalSuffixes).None?
    ensures CleanCompanyName(Some(v)) == Lower(Filter(v, IsAlnumAscii))
  {
    CleanIsAlnumLower(v);
    AlnumIgnoresSpace(v);
    AlnumIgnoresSpace(Strip(v));
  }

  lemma {:induction false} LowerOfStem(s: string)
    requires forall i :: 0 <= i < |s| ==> IsStemChar(s[i])
    ensures Lower(s) == s
  {
  }

  /** A stem is its own stem: it has no whitespace for the suffix rule and
      nothing to strip, drop or lower-case. */
  lemma CleanIdempotent(name: Option<string>)
    ensures CleanCompanyName(Some(CleanCompanyName(name))) == CleanCompanyName(name)
  {
    StemIsFixed(CleanCompanyName(name));
  }

  /** Any string of lower-case letters and digits is its own stem. */
  lemma StemIsFixed(r: string)
    requires forall i :: 0 <= i < |r| ==> IsStemChar(r[i])
    ensures CleanCompanyName(Some(r)) == r
  {
    assert NoSpace(r);
    StripOfNoSpace(r);
    NoSuffixWithoutSpace(r, LegalSuffixes);
    CleanIsAlnumLower(r);
    FilterAll(r, IsAlnumAscii);
    LowerOfStem(r);
  }

  /** The suffix rule needs whitespace before the word. */
  lemma NoSuffixWithoutSpace(s: string, words: seq<string>)
    requires NoSpace(s)
    ensures SuffixMatch(s, words).None?
  {
  }

  /** Only one suffix goes: "ABC PTE LTD" loses "LTD" and keeps "PTE". */
  lemma OneSuffixOnly(name: string)
    requires name == "ABC PTE LTD"
    ensures CleanCompanyName(Some(name)) == "abcpte"
  {
    CleanIsAlnumLower(name);
    ExampleDrop(name);
    ExampleFilter();
    ExampleLower();
  }

  lemma ExampleLower()
    ensures Lower("ABCPTE") == "abcpte"
  {
  }

  lemma ExampleDrop(s: string)
    requires s == "ABC PTE LTD"
    ensures DropLegalSuffix(Strip(s)) == "ABC PTE"
  {
    ExampleStripped(s);
    ExampleDropped(s);
  }

  lemma ExampleStripped(s: string)
    requires s == "ABC PTE LTD"
    ensures Strip(s) == s
  {
    assert s[0] == 'A' && s[|s| - 1] == 'D';
    StripOfTrimmed(s);
  }

  lemma ExampleDropped(s: string)
    requires s == "ABC PTE LTD"
    ensures DropLegalSuffix(s) == "ABC PTE"
  {
    ExampleCut();
    assert "ABC PTE "[..7] == "ABC PTE";
    assert "ABC PTE"[0] == 'A' && "ABC PTE"[6] == 'E';
    StripOfTrimmed("ABC PTE");
  }

  lemma ExampleCut()
    ensures DropLegalSuffix("ABC PTE LTD") == TrimEnd("ABC PTE ")
  {
    ExampleSuffix();
    assert "ABC PTE LTD"[..8] == "ABC PTE ";
  }

  lemma ExampleSuffix()
    ensures SuffixMatch("ABC PTE LTD", LegalSuffixes) == Some(3)
  {
    var s := "ABC PTE LTD";
    assert !EndsWithWord(s, "PTE.") by { assert Upper(s[7..])[0] == ' '; }
    assert !EndsWithWord(s, "PTE") by { assert Upper(s[8..])[0] == 'L'; }
    assert !EndsWithWord(s, "LTD.") by { assert Upper(s[7..])[0] == ' '; }
    assert EndsWithWord(s, "LTD") by { assert Upper(s[8..]) == "LTD"; }
    assert LegalSuffixes[1..][1..][1..][0] == "LTD";
  }

  lemma ExampleFilter()
    ensures Filter("ABC PTE", IsAlnumAscii) == "ABCPTE"
  {
    WordsFilter("ABC", " ", "PTE");
  }

  /** Filtering two alphanumeric words around a separator joins them. */
  lemma WordsFilter(a: string, b: string, c: string)
    requires forall i :: 0 <= i < |a| ==> IsAlnumAscii(a[i])
    requires forall i :: 0 <= i < |c| ==> IsAlnumAscii(c[i])
    requires |b| == 1 && !IsAlnumAscii(b[0])
    ensures Filter(a + b + c, IsAlnumAscii) == a + c
  {
    FilterAppend(a + b, c, IsAlnumAscii);
    FilterAppend(a, b, IsAlnumAscii);
    FilterAll(a, IsAlnumAscii);
    FilterAll(c, IsAlnumAscii);
    assert b[1..] == [];
    assert Filter(b, IsAlnumAscii) == [] + Filter(b[1..], IsAlnumAscii);
    assert Filter(a, IsAlnumAscii) + Filter(b, IsAlnumAscii) == a;
  }

  /** The top-level domains tried, in order. */
  const Tlds: seq<string> := [".com.sg", ".sg", ".com"]

  /** `generate_domain_variations`: nothing for stems shorter than three
      characters, otherwise the three bare domains then their `www.` forms. */
  function DomainVariations(name: Option<string>): (r: seq<string>)
    ensures |CleanCompanyName(name)| < 3 <==> r == []
    ensures r != [] ==> |r| == 6
    ensures r != [] ==> forall i :: 0 <= i < 3 ==> r[i] == CleanCompanyName(name) + Tlds[i]
    ensures r != [] ==> forall i :: 0 <= i < 3 ==> r[i + 3] == "www." + r[i]
  {
    var c := CleanCompanyName(name);
    if |c| < 3 then [] else Guesses(c)
  }

  function Guesses(c: string): (r: seq<string>)
    ensures |r| == 6
    ensures forall i :: 0 <= i < 3 ==> r[i] == c + Tlds[i] && r[i + 3] == "www." + r[i]
  {
    var bare := [c + ".com.sg", c + ".sg", c + ".com"];
    assert forall i :: 0 <= i < 3 ==> bare[i] == c + Tlds[i];
    bare + ["www." + bare[0], "www." + bare[1], "www." + bare[2]]
  }

  /** The six guesses are pairwise different, so none is probed twice. */
  lemma DomainsDistinct(name: Option<string>)
    ensures forall i, j :: 0 <= i < j < |DomainVariations(name)| ==>
      DomainVariations(name)[i] != DomainVariations(name)[j]
  {
    var c := CleanCompanyName(name);
    if |c| >= 3 {
      GuessesDistinct(c);
    }
  }

  /** The guesses for one stem differ pairwise: all lengths differ except
      for `c.com.sg` and `www.c.sg`, which differ in their characters. */
  lemma GuessesDistinct(c: string)
    requires |c| >= 3 && forall i :: 0 <= i < |c| ==> IsStemChar(c[i])
    ensures forall i, j :: 0 <= i < j < 6 ==> Guesses(c)[i] != Guesses(c)[j]
  {
    var r := Guesses(c);
    assert r[0] == c + ".com.sg" && r[1] == c + ".sg" && r[2] == c + ".com";
    assert r[3] == "www." + r[0] && r[4] == "www." + r[1] && r[5] == "www." + r[2];
    var lens := [|c| + 7, |c| + 3, |c| + 4, |c| + 11, |c| + 7, |c| + 8];
    assert forall k :: 0 <= k < 6 ==> |r[k]| == lens[k];
    EqualLengthPair(c, r[0], r[4]);
  }

  lemma EqualLengthPair(c: string, a: string, b: string)
    requires |c| >= 3 && forall i :: 0 <= i < |c| ==> IsStemChar(c[i])
    requires a == c + ".com.sg" && b == "www." + c + ".sg"
    ensures a != b
  {
    if |c| >= 4 {
      assert a[3] == c[3] && b[3] == '.';
    } else {
      assert a[4..7] == "com" && b[4..7] == c;
      assert a[..3] == c && b[..3] == "www";
    }
  }

  /** `if website:` — a probe counts only when it returned a non-empty URL. */
  predicate Answered(o: Option<string>) { o.Some? && o.value != "" }

  /** Index of the first domain whose probe answered. */
  function FirstAnswered(ds: seq<string>, reach: string -> Option<string>): (r: Option<nat>)
    ensures r.Some? ==> r.value < |ds| && Answered(reach(ds[r.value]))
    ensures r.Some? ==> forall j :: 0 <= j < r.value ==> !Answered(reach(ds[j]))
    ensures r.None? ==> forall j :: 0 <= j < |ds| ==> !Answered(reach(ds[j]))
  {
    if ds == [] then None
    else if Answered(reach(ds[0])) then Some(0)
    else match FirstAnswered(ds[1..], reach)
      case None => None
      case Some(k) => Some(k + 1)
  }

  /** Domain `i` is the first of `ds` whose probe answered. */
  predicate FirstAnswerAt(ds: seq<string>, reach: string -> Option<string>, i: int) {
    0 <= i < |ds| && Answered(reach(ds[i])) && forall j :: 0 <= j < i ==> !Answered(reach(ds[j]))
  }

  /** One input row: UEN and entity name, either possibly NaN. */
  datatype Company = Company(uen: Option<string>, entityName: Option<string>)

  /** One found website. */
  datatype Hit = Hit(uen: Option<string>, entityName: Option<string>, website: string, source: string)

  /** `process_company`: the first guessed domain, in generation order, whose
      probe answers; no hit when none does. */
  function ProcessCompany(row: Company, reach: string -> Option<string>): (r: Option<Hit>)
    ensures r.Some? <==> exists i :: 0 <= i < |DomainVariations(row.entityName)| && Answered(reach(DomainVariations(row.entityName)[i]))
    ensures r.Some? ==> r.value.uen == row.uen && r.value.entityName == row.entityName && r.value.source == "domain_guess"
    ensures r.Some? ==> exists i :: FirstAnswerAt(DomainVariations(row.entityName), reach, i) &&
                                   r.value.website == reach(DomainVariations(row.entityName)[i]).value
  {
    FirstHit(row, DomainVariations(row.entityName), reach)
  }

  function FirstHit(row: Company, ds: seq<string>, reach: string -> Option<string>): (r: Option<Hit>)
    ensures r.Some? <==> exists i :: 0 <= i < |ds| && Answered(reach(ds[i]))
    ensures r.Some? ==> r.value.uen == row.uen && r.value.entityName == row.entityName && r.value.source == "domain_guess"
    ensures r.Some? ==> exists i :: FirstAnswerAt(ds, reach, i) && r.value.website == reach(ds[i]).value
  {
    match FirstAnswered(ds, reach)
    case None => None
    case Some(i) =>
      assert FirstAnswerAt(ds, reach, i);
      Some(Hit(row.uen, row.entityName, reach(ds[i]).value, "domain_guess"))
  }

  /** A stem shorter than three characters is never probed, whatever answers. */
  lemma ShortStemNeverFound(row: Company, reach: string -> Option<string>)
    requires |CleanCompanyName(row.entityName)| < 3
    ensures ProcessCompany(row, reach).None?
  {
  }

  const BatchSize: nat := 5000

  /** `for i in range(lo, len(xs), size): xs.iloc[i:i+size]`. */
  function BatchesFrom<T>(xs: seq<T>, lo: nat, size: nat): (bs: seq<seq<T>>)
    requires size > 0
    ensures lo <= |xs| ==> Flatten(bs) == xs[lo..]
    ensures lo >= |xs| ==> bs == []
    ensures forall k :: 0 <= k < |bs| ==> 0 < |bs[k]| <= size
    ensures forall k :: 0 <= k < |bs| - 1 ==> |bs[k]| == size
    decreases |xs| - lo
  {
    if lo >= |xs| then []
    else
      var rest := BatchesFrom(xs, lo + size, size);
      var b := Slice(xs, lo, lo + size);
      assert lo + size < |xs| ==> b + xs[lo + size..] == xs[lo..];
      assert lo + size >= |xs| ==> b == xs[lo..];
      [b] + rest
  }

  /** The present results of `f` over `rows`, in order. */
  function Found<A, B>(rows: seq<A>, f: A -> Option<B>): (hs: seq<B>)
    ensures |hs| <= |rows|
  {
    if rows == [] then []
    else (match f(rows[0]) case Some(h) => [h] case None => []) + Found(rows[1..], f)
  }

  lemma {:induction false} FoundAppend<A, B>(a: seq<A>, b: seq<A>, f: A -> Option<B>)
    ensures Found(a + b, f) == Found(a, f) + Found(b, f)
    decreases |a|
  {
    if a == [] {
      assert a + b == b;
    } else {
      assert (a + b)[1..] == a[1..] + b;
      FoundAppend(a[1..], b, f);
    }
  }

  lemma {:induction false} FoundNone<A, B>(rows: seq<A>, f: A -> Option<B>)
    ensures Found(rows, f) == [] <==> forall i :: 0 <= i < |rows| ==> f(rows[i]).None?
    decreases |rows|
  {
    if rows != [] {
      FoundNone(rows[1..], f);
      assert forall i :: 1 <= i < |rows| ==> rows[i] == rows[1..][i - 1];
    }
  }

  function FoundPerBatch<A, B>(bs: seq<seq<A>>, f: A -> Option<B>): seq<seq<B>> {
    if bs == [] then [] else [Found(bs[0], f)] + FoundPerBatch(bs[1..], f)
  }

  /** Collecting results batch by batch is collecting them over the whole list. */
  lemma {:induction false} BatchingIsTransparent<A, B>(bs: seq<seq<A>>, f: A -> Option<B>)
    ensures Flatten(FoundPerBatch(bs, f)) == Found(Flatten(bs), f)
    decreases |bs|
  {
    if bs != [] {
      BatchingIsTransparent(bs[1..], f);
      FoundAppend(bs[0], Flatten(bs[1..]), f);
    }
  }

  /** Collecting in batches from the start covers the whole list. */
  lemma BatchedFound<A, B>(xs: seq<A>, size: nat, f: A -> Option<B>)
    requires size > 0
    ensures Flatten(FoundPerBatch(BatchesFrom(xs, 0, size), f)) == Found(xs, f)
  {
    BatchingIsTransparent(BatchesFrom(xs, 0, size), f);
    assert xs[0..] == xs;
  }

  /** `process_company` against a fixed network. */
  function Probe(reach: string -> Option<string>): Company -> Option<Hit> {
    (c: Company) => ProcessCompany(c, reach)
  }

  /** The hits over some rows (in input order; the original collects a
      batch's hits in completion order). */
  function HitsOf(rows: seq<Company>, reach: string -> Option<string>): seq<Hit> {
    Found(rows, Probe(reach))
  }

  /** No hits exactly when no company is found. */
  lemma HitsOfNone(rows: seq<Company>, reach: string -> Option<string>)
    ensures HitsOf(rows, reach) == [] <==> forall i :: 0 <= i < |rows| ==> ProcessCompany(rows[i], reach).None?
  {
    FoundNone(rows, Probe(reach));
  }

  function HitUen(h: Hit): Option<string> { h.uen }

  /** Results over `subset` collected in batches of 5000, then one per key;
      nothing when no row gave a result. */
  function CollectUnique<A, B, K(==)>(subset: seq<A>, f: A -> Option<B>, key: B -> K): (r: Option<seq<B>>)
    ensures r.None? <==> forall i :: 0 <= i < |subset| ==> f(subset[i]).None?
    ensures r.Some? ==> Dedup.UniqueKeys(r.value, key)
    ensures r.Some? ==> Dedup.KeySet(r.value, key) == Dedup.KeySet(Found(subset, f), key)
    ensures r.Some? ==> IsSubseq(r.value, Found(subset, f))
    ensures r.Some? ==> forall i :: 0 <= i < |r.value| ==> key(r.value[i]) in Dedup.KeySet(Found(subset, f), key)
    ensures r.Some? ==> forall i :: 0 <= i < |r.value| ==>
      r.value[i] == Found(subset, f)[Dedup.FirstIndex(Found(subset, f), key, key(r.value[i]))]
  {
    var found := Flatten(FoundPerBatch(BatchesFrom(subset, 0, BatchSize), f));
    BatchedFound(subset, BatchSize, f);
    FoundNone(subset, f);
    if found == [] then None else Some(Dedup.DropDuplicates(found, key))
  }

  /** `main`: the first `count` rows in batches of 5000, every hit collected,
      then one row per UEN (`drop_duplicates(subset=['uen'])`); no output at
      all when nothing was found. */
  function FindWebsites(rows: seq<Company>, count: nat, reach: string -> Option<string>): (r: Option<seq<Hit>>)
    ensures r.None? <==> forall i :: 0 <= i < |Slice(rows, 0, count)| ==> ProcessCompany(Slice(rows, 0, count)[i], reach).None?
    ensures r.Some? ==> Dedup.UniqueKeys(r.value, HitUen)
    ensures r.Some? ==> Dedup.KeySet(r.value, HitUen) == Dedup.KeySet(HitsOf(Slice(rows, 0, count), reach), HitUen)
    ensures r.Some? ==> IsSubseq(r.value, HitsOf(Slice(rows, 0, count), reach))
    ensures r.Some? ==> forall i :: 0 <= i < |r.value| ==>
      r.value[i].uen in Dedup.KeySet(HitsOf(Slice(rows, 0, count), reach), HitUen) &&
      r.value[i] == HitsOf(Slice(rows, 0, count), reach)[Dedup.FirstIndex(HitsOf(Slice(rows, 0, count), reach), HitUen, r.value[i].uen)]
  {
    var subset := Slice(rows, 0, count);
    var r := CollectUnique(subset, Probe(reach), HitUen);
    assert HitsOf(subset, reach) == Found(subset, Probe(reach));
    assert forall h :: HitUen(h) == h.uen;
    r
  }
}
