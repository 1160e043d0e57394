/** The ACRA extractor: for every letter of the dataset-id map, ask the
    data.gov.sg API for a download URL, download and load the CSV, and stop
    once 800000 rows are collected; the rows are then concatenated and cut to
    800000.  Also the row filter the extractor defines (and the RecordOwl
    multithread scraper copies verbatim). */
module AcraExtract {
  import opened Wrappers
  import opened Text
  import opened Seqs

  const TargetRecords: nat := 800000

  /** The `initiate-download` call: the request (or JSON decoding) raised, or
      a reply with its status, its JSON `code` and its `data.url`. */
  datatype InitiateReply = RequestRaised | Reply(status: int, code: Option<int>, url: Option<string>)

  /** `get_download_url`: the URL only for status 200 or 201 with code 0; a
      missing `data.url` raises inside the `try` and also gives `None`. */
  function DownloadUrl(reply: InitiateReply): (r: Option<string>)
    ensures r.Some? <==> reply.Reply? && (reply.status == 200 || reply.status == 201) && reply.code == Some(0) && reply.url.Some?
    ensures r.Some? ==> r == reply.url
  {
    match reply
    case RequestRaised => None
    case Reply(status, code, url) =>
      if status == 200 || status == 201 then
        if code == Some(0) then url else None
      else None
  }

  /** One letter's dataset: the API reply and what downloading and reading the
      CSV gave (`None` when either raised). */
  datatype Dataset<R> = Dataset(reply: InitiateReply, content: Option<seq<R>>)

  /** The rows the loop obtains for one dataset: nothing unless the URL is
      present and non-empty (`if not download_url`) and the CSV loaded. */
  function Loaded<R>(d: Dataset<R>): (r: Option<seq<R>>)
    ensures r.Some? ==> DownloadUrl(d.reply).Some? && DownloadUrl(d.reply).value != "" && r == d.content
    ensures DownloadUrl(d.reply).Some? && DownloadUrl(d.reply).value != "" ==> r == d.content
  {
    match DownloadUrl(d.reply)
    case Some(u) => if u != "" then d.content else None
    case None => None
  }

  /** The non-empty frames among the datasets, in dataset order: what the loop
      would accumulate with no target. */
  function Contents<R>(ds: seq<Dataset<R>>): (fs: seq<seq<R>>)
    ensures forall i :: 0 <= i < |fs| ==> fs[i] != []
  {
    if ds == [] then []
    else
      match Loaded(ds[0])
      case Some(rows) => if rows != [] then [rows] + Contents(ds[1..]) else Contents(ds[1..])
      case None => Contents(ds[1..])
  }

  /** The `for letter, dataset_id in DATASET_IDS.items()` loop: failed and
      empty datasets are skipped; after appending a frame the loop breaks once
      the running `total` reaches the target. */
  function Collect<R>(ds: seq<Dataset<R>>, total: nat): seq<seq<R>>
    decreases |ds|
  {
    if ds == [] then []
    else
      match Loaded(ds[0])
      case Some(rows) =>
        if rows == [] then Collect(ds[1..], total)
        else if total + |rows| >= TargetRecords then [rows]
        else [rows] + Collect(ds[1..], total + |rows|)
      case None => Collect(ds[1..], total)
  }

  /** The loop accumulates a prefix of the frames available, stops only once
      the total reached the target, and never processes a dataset after that. */
  lemma CollectSound<R>(ds: seq<Dataset<R>>, total: nat)
    ensures var c := Collect(ds, total);
      |c| <= |Contents(ds)| && c == Contents(ds)[..|c|]
    ensures var c := Collect(ds, total);
      c != Contents(ds) ==> total + TotalLength(c) >= TargetRecords
    ensures var c := Collect(ds, total);
      c != [] ==> total + TotalLength(c[..|c| - 1]) < TargetRecords || total >= TargetRecords
  {
    CollectPrefix(ds, total);
    CollectStops(ds, total);
    CollectLastFits(ds, total);
  }

  lemma {:induction false} CollectPrefix<R>(ds: seq<Dataset<R>>, total: nat)
    ensures var c := Collect(ds, total);
      |c| <= |Contents(ds)| && c == Contents(ds)[..|c|]
    decreases |ds|
  {
    if ds != [] {
      match Loaded(ds[0])
      case Some(rows) =>
        if rows == [] {
          CollectPrefix(ds[1..], total);
        } else if total + |rows| < TargetRecords {
          CollectPrefix(ds[1..], total + |rows|);
        } else {
          assert Contents(ds)[..1] == [rows];
        }
      case None =>
        CollectPrefix(ds[1..], total);
    }
  }

  lemma {:induction false} CollectStops<R>(ds: seq<Dataset<R>>, total: nat)
    ensures var c := Collect(ds, total);
      c != Contents(ds) ==> total + TotalLength(c) >= TargetRecords
    decreases |ds|
  {
    if ds != [] {
      match Loaded(ds[0])
      case Some(rows) =>
        if rows == [] {
          CollectStops(ds[1..], total);
        } else if total + |rows| < TargetRecords {
          CollectStops(ds[1..], total + |rows|);
          var rest := Collect(ds[1..], total + |rows|);
          assert ([rows] + rest)[1..] == rest;
        } else {
          assert [rows][1..] == [];
        }
      case None =>
        CollectStops(ds[1..], total);
    }
  }

  lemma {:induction false} CollectLastFits<R>(ds: seq<Dataset<R>>, total: nat)
    ensures var c := Collect(ds, total);
      c != [] ==> total + TotalLength(c[..|c| - 1]) < TargetRecords || total >= TargetRecords
    decreases |ds|
  {
    if ds != [] {
      match Loaded(ds[0])
      case Some(rows) =>
        if rows == [] {
          CollectLastFits(ds[1..], total);
        } else if total + |rows| < TargetRecords {
          var rest := Collect(ds[1..], total + |rows|);
          var c := [rows] + rest;
          if rest != [] {
            CollectLastFits(ds[1..], total + |rows|);
            assert c[..|c| - 1] == [rows] + rest[..|rest| - 1];
            assert c[..|c| - 1][1..] == rest[..|rest| - 1];
          } else {
            assert c[..|c| - 1] == [];
          }
        } else {
          assert [rows][..0] == [];
        }
      case None =>
        CollectLastFits(ds[1..], total);
    }
  }

  /** The first `n` rows of a longer concatenation are those of any prefix of
      the frames that already holds `n` rows. */
  lemma TakeOfPrefixFrames<R>(fs: seq<seq<R>>, k: nat, n: nat)
    requires k <= |fs| && (TotalLength(fs[..k]) >= n || k == |fs|)
    ensures Take(Flatten(fs[..k]), n) == Take(Flatten(fs), n)
  {
    assert fs == fs[..k] + fs[k..];
    FlattenConcat(fs[..k], fs[k..]);
  }

  /** `main`: `None` when nothing was collected ("No data extracted!"),
      otherwise the concatenation cut to the target.  `ds` holds one dataset
      per item of `AcraIds.DatasetItems`, in that order. */
  function ExtractAcra<R>(ds: seq<Dataset<R>>): (r: Option<seq<R>>)
    ensures r.None? <==> Contents(ds) == []
    ensures r.Some? ==> r.value == Take(Flatten(Contents(ds)), TargetRecords)
    ensures r.Some? ==> |r.value| <= TargetRecords
  {
    var frames := Collect(ds, 0);
    CollectSound(ds, 0);
    if frames == [] then
      None
    else
      var all := Flatten(frames);
      var out := if |all| > TargetRecords then Take(all, TargetRecords) else all;
      assert out == Take(all, TargetRecords);
      TakeOfPrefixFrames(Contents(ds), |frames|, TargetRecords);
      Some(out)
  }

  /** A CSV cell: NaN, a string, or the year that `pd.to_datetime(...).dt.year`
      produced. */
  datatype Cell = NaN | Text(s: string) | Year(y: int)

  /** A frame: column names and rows of cells, one cell per column. */
  datatype Frame = Frame(columns: seq<string>, rows: seq<seq<Cell>>)

  predicate Rectangular(f: Frame) {
    forall i :: 0 <= i < |f.rows| ==> |f.rows[i]| == |f.columns|
  }

  /** `next((c for c in df.columns if keyword in c.lower()), None)`. */
  function FirstColumn(columns: seq<string>, keyword: string): (r: Option<nat>)
    ensures r.Some? ==> r.value < |columns| && Contains(Lower(columns[r.value]), keyword)
    ensures r.Some? ==> forall j :: 0 <= j < r.value ==> !Contains(Lower(columns[j]), keyword)
    ensures r.None? ==> forall j :: 0 <= j < |columns| ==> !Contains(Lower(columns[j]), keyword)
  {
    if columns == [] then None
    else if Contains(Lower(columns[0]), keyword) then Some(0)
    else match FirstColumn(columns[1..], keyword)
      case None => None
      case Some(k) => Some(k + 1)
  }

  /** The cell of column `k` (NaN past the row's end, which a rectangular
      frame never reaches). */
  function CellAt(r: seq<Cell>, k: nat): Cell {
    if k < |r| then r[k] else NaN
  }

  /** `.str.contains(t, case=False, na=False)` for one cell: only strings can match. */
  predicate CellContainsCI(c: Cell, t: string) { c.Text? && ContainsCI(c.s, t) }

  predicate StatusOk(k: Option<nat>, r: seq<Cell>) {
    k.None? || CellContainsCI(CellAt(r, k.value), "Live")
  }

  /** The pattern `Company|Partnership`. */
  predicate TypeOk(k: Option<nat>, r: seq<Cell>) {
    k.None? || CellContainsCI(CellAt(r, k.value), "Company") || CellContainsCI(CellAt(r, k.value), "Partnership")
  }

  /** `reg_year >= 2005`; a NaN year compares false. */
  predicate YearOk(c: Cell) { c.Year? && c.y >= 2005 }

  predicate SsicOk(k: Option<nat>, r: seq<Cell>) {
    k.None? || CellAt(r, k.value) != NaN
  }

  /** The parsed year of a date cell, NaN when parsing fails (`errors='coerce'`). */
  function YearCell(parse: Cell -> Option<int>, c: Cell): Cell {
    match parse(c)
    case Some(y) => Year(y)
    case None => NaN
  }

  /** Where `df['reg_year'] = ...` writes: the existing `reg_year` column, or
      a new last column. */
  function YearSlot(columns: seq<string>): (k: nat)
    ensures k <= |columns|
    ensures k < |columns| ==> columns[k] == "reg_year"
    ensures k == |columns| <==> "reg_year" !in columns
  {
    if columns == [] then 0
    else if columns[0] == "reg_year" then 0
    else 1 + YearSlot(columns[1..])
  }

  /** The columns after the date stage. */
  function YearColumns(columns: seq<string>): seq<string> {
    if "reg_year" in columns then columns else columns + ["reg_year"]
  }

  function SetCell(r: seq<Cell>, k: nat, c: Cell): (r': seq<Cell>)
    ensures k < |r| ==> |r'| == |r| && r'[k] == c
    ensures k >= |r| ==> r' == r + [c]
  {
    if k < |r| then r[k := c] else r + [c]
  }

  function StatusStage(f: Frame): Frame {
    var k := FirstColumn(f.columns, "status");
    if k.None? then f else Frame(f.columns, Filter(f.rows, r => StatusOk(k, r)))
  }

  function TypeStage(f: Frame): Frame {
    var k := FirstColumn(f.columns, "entity_type");
    if k.None? then f else Frame(f.columns, Filter(f.rows, r => TypeOk(k, r)))
  }

  /** The year cell the date stage writes into row `r`. */
  function WithYear(columns: seq<string>, d: nat, parse: Cell -> Option<int>, r: seq<Cell>): seq<Cell> {
    SetCell(r, YearSlot(columns), YearCell(parse, CellAt(r, d)))
  }

  /** Adds (or overwrites) the `reg_year` column for every row, then keeps
      the rows whose year is at least 2005. */
  function DateStage(f: Frame, parse: Cell -> Option<int>): Frame {
    match FirstColumn(f.columns, "incorporation")
    case None => f
    case Some(d) =>
      var slot := YearSlot(f.columns);
      var withYear := MapSeq(f.rows, r => WithYear(f.columns, d, parse, r));
      Frame(YearColumns(f.columns), Filter(withYear, r => YearOk(CellAt(r, slot))))
  }

  function SsicStage(f: Frame): Frame {
    var k := FirstColumn(f.columns, "ssic");
    if k.None? then f else Frame(f.columns, Filter(f.rows, r => SsicOk(k, r)))
  }

  /** The status and entity-type tests together. */
  predicate EarlyOk(columns: seq<string>, r: seq<Cell>) {
    StatusOk(FirstColumn(columns, "status"), r) && TypeOk(FirstColumn(columns, "entity_type"), r)
  }

  /** The year and SSIC tests together, on an input row. */
  predicate LateOk(columns: seq<string>, parse: Cell -> Option<int>, r: seq<Cell>) {
    && (match FirstColumn(columns, "incorporation")
        case None => true
        case Some(d) => YearOk(YearCell(parse, CellAt(r, d))))
    && SsicOk(FirstColumn(columns, "ssic"), r)
  }

  /** The four filters as one test on an input row. */
  predicate Keeps(columns: seq<string>, parse: Cell -> Option<int>, r: seq<Cell>) {
    EarlyOk(columns, r) && LateOk(columns, parse, r)
  }

  /** What a kept row looks like in the output: with its `reg_year` cell when
      there is a date column. */
  function AddYear(columns: seq<string>, parse: Cell -> Option<int>, r: seq<Cell>): seq<Cell> {
    match FirstColumn(columns, "incorporation")
    case None => r
    case Some(d) => WithYear(columns, d, parse, r)
  }

  /** `filter_data`: the four stages in the source's order.  Its meaning: the
      input rows passing all four tests, in input order, each given its
      `reg_year` cell when there is a date column. */
  function FilterData(f: Frame, parse: Cell -> Option<int>): (out: Frame)
    requires Rectangular(f)
    ensures |out.rows| <= |f.rows|
    ensures out.rows == MapSeq(Filter(f.rows, r => Keeps(f.columns, parse, r)), r => AddYear(f.columns, parse, r))
    ensures FirstColumn(f.columns, "incorporation").None? ==> out.columns == f.columns
    ensures FirstColumn(f.columns, "incorporation").Some? ==> out.columns == YearColumns(f.columns)
  {
    var early := TypeStage(StatusStage(f));
    EarlyStages(f);
    FilterPreserves(f.rows, r => EarlyOk(f.columns, r), r => |r| == |f.columns|);
    LateStages(f.columns, Filter(f.rows, r => EarlyOk(f.columns, r)), parse);
    FilterFilter(f.rows, r => EarlyOk(f.columns, r), r => LateOk(f.columns, parse, r), r => Keeps(f.columns, parse, r));
    SsicStage(DateStage(early, parse))
  }

  /** Without a date column the filter returns a subsequence of the input
      rows themselves; with one, the rows it extends are such a subsequence. */
  lemma FilterDataSubsequence(f: Frame, parse: Cell -> Option<int>)
    requires Rectangular(f)
    ensures FirstColumn(f.columns, "incorporation").None? ==> IsSubseq(FilterData(f, parse).rows, f.rows)
    ensures IsSubseq(Filter(f.rows, r => Keeps(f.columns, parse, r)), f.rows)
  {
    var kept := Filter(f.rows, r => Keeps(f.columns, parse, r));
    FilterIsSubseq(f.rows, r => Keeps(f.columns, parse, r));
    if FirstColumn(f.columns, "incorporation").None? {
      assert MapSeq(kept, r => AddYear(f.columns, parse, r)) == kept;
    }
  }

  /** The first two stages keep the columns and filter by both tests. */
  lemma EarlyStages(f: Frame)
    ensures TypeStage(StatusStage(f)).columns == f.columns
    ensures TypeStage(StatusStage(f)).rows == Filter(f.rows, r => EarlyOk(f.columns, r))
  {
    var ks := FirstColumn(f.columns, "status");
    var kt := FirstColumn(f.columns, "entity_type");
    var p1 := r => StatusOk(ks, r);
    var p2 := r => TypeOk(kt, r);
    var s1 := StatusStage(f);
    assert s1.rows == Filter(f.rows, p1) by {
      if ks.None? { FilterAll(f.rows, p1); }
    }
    assert TypeStage(s1).rows == Filter(s1.rows, p2) by {
      if kt.None? { FilterAll(s1.rows, p2); }
    }
    FilterFilter(f.rows, p1, p2, r => EarlyOk(f.columns, r));
  }

  /** The last two stages, applied to rows of the input's width, filter by
      the year and SSIC tests and then add the year cell. */
  lemma LateStages(columns: seq<string>, x: seq<seq<Cell>>, parse: Cell -> Option<int>)
    requires forall i :: 0 <= i < |x| ==> |x[i]| == |columns|
    ensures SsicStage(DateStage(Frame(columns, x), parse)).rows ==
      MapSeq(Filter(x, r => LateOk(columns, parse, r)), r => AddYear(columns, parse, r))
    ensures SsicStage(DateStage(Frame(columns, x), parse)).columns == DateStage(Frame(columns, x), parse).columns
  {
    var kc := FirstColumn(columns, "ssic");
    var late := r => LateOk(columns, parse, r);
    var add := r => AddYear(columns, parse, r);
    match FirstColumn(columns, "incorporation")
    case None =>
      var p4 := r => SsicOk(kc, r);
      assert SsicStage(Frame(columns, x)).rows == Filter(x, p4) by {
        if kc.None? { FilterAll(x, p4); }
      }
      FilterCongruent(x, p4, late);
      assert MapSeq(Filter(x, late), add) == Filter(x, late);
    case Some(d) =>
      var slot := YearSlot(columns);
      var g := r => WithYear(columns, d, parse, r);
      var p3' := r => YearOk(CellAt(r, slot));
      var p4' := r => SsicOk(kc, r);
      var p34' := r => YearOk(CellAt(r, slot)) && SsicOk(kc, r);
      var s3 := DateStage(Frame(columns, x), parse);
      assert s3.rows == Filter(MapSeq(x, g), p3');
      SsicAfterYear(columns);
      assert SsicStage(s3).rows == Filter(Filter(MapSeq(x, g), p3'), p4') by {
        if kc.None? { FilterAll(Filter(MapSeq(x, g), p3'), p4'); }
      }
      FilterFilter(MapSeq(x, g), p3', p4', p34');
      forall i | 0 <= i < |x|
        ensures p34'(g(x[i])) == late(x[i])
      {
        YearCellRead(columns, d, parse, x[i]);
      }
      FilterMap(x, g, late, p34');
      assert MapSeq(Filter(x, late), g) == MapSeq(Filter(x, late), add);
  }

  /** In the year-extended row, the year slot holds the parsed year and the
      SSIC column is untouched. */
  lemma YearCellRead(columns: seq<string>, d: nat, parse: Cell -> Option<int>, r: seq<Cell>)
    requires |r| == |columns|
    ensures CellAt(WithYear(columns, d, parse, r), YearSlot(columns)) == YearCell(parse, CellAt(r, d))
    ensures SsicOk(FirstColumn(YearColumns(columns), "ssic"), WithYear(columns, d, parse, r)) ==
      SsicOk(FirstColumn(columns, "ssic"), r)
  {
    SsicAfterYear(columns);
  }

  /** "reg_year" has no 's', so the SSIC search never picks it. */
  lemma RegYearNotSsic()
    ensures !Contains(Lower("reg_year"), "ssic")
  {
    assert Lower("reg_year") == "reg_year";
    if Contains("reg_year", "ssic") {
      ContainsChar("reg_year", "ssic", 0);
      assert false;
    }
  }

  /** Adding the year column does not move the SSIC column. */
  lemma SsicAfterYear(columns: seq<string>)
    ensures FirstColumn(YearColumns(columns), "ssic") == FirstColumn(columns, "ssic")
    ensures FirstColumn(columns, "ssic").Some? ==> FirstColumn(columns, "ssic").value != YearSlot(columns)
  {
    RegYearNotSsic();
    if "reg_year" !in columns {
      AppendNoMatch(columns, "reg_year", "ssic");
    }
  }

  lemma {:induction false} AppendNoMatch(columns: seq<string>, extra: string, keyword: string)
    requires !Contains(Lower(extra), keyword)
    ensures FirstColumn(columns + [extra], keyword) == FirstColumn(columns, keyword)
    decreases |columns|
  {
    if columns == [] {
      assert [] + [extra] == [extra];
    } else {
      assert (columns + [extra])[1..] == columns[1..] + [extra];
      AppendNoMatch(columns[1..], extra, keyword);
    }
  }
}
