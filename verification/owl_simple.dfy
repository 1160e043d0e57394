/** The single-worker RecordOwl scraper: for each company of a slice of the
    input, search RecordOwl by UEN, open the company page and pick the first
    plausible website link, retrying on timeouts; one result row per
    company, and a checkpoint after every 500th row. */
module OwlSimple {
  import opened Wrappers
  import opened Seqs
  import opened Retry
  import opened LinkRule
  import opened Batch

  /** The `(company_url, website)` pair of `scrape_company`. */
  datatype Found = Found(link: Option<string>, website: Option<string>)

  /** What the decisive attempt gives. */
  function Outcome(a: Attempt<LinkScan>): Found {
    match a
    case SearchRaised => Found(None, None)
    case NoLink => Found(None, None)
    case PageRaised(link) => Found(Some(link), None)
    case Crashed(_) => Found(None, None)
    case Loaded(link, ScanRaised) => Found(Some(link), None)
    case Loaded(link, Scanned(hrefs)) => Found(Some(link), FirstWebsite(hrefs, Plausible))
  }

  /** `scrape_company(uen, name)`, given the outcome of every attempt. */
  function ScrapeCompany(attempts: nat -> Attempt<LinkScan>): (r: Found)
    ensures r.website.Some? ==> r.link.Some? && Plausible(r.website.value)
    ensures attempts(0).NoLink? ==> r == Found(None, None)
    ensures (forall j :: 0 <= j <= MaxRetries ==> attempts(j).SearchRaised?) ==> r == Found(None, None)
    ensures (forall j :: 0 <= j <= MaxRetries ==> attempts(j).PageRaised?) ==>
      r == Found(Some(attempts(MaxRetries).link), None)
    ensures attempts(0).Loaded? && attempts(0).page.Scanned? ==>
      r == Found(Some(attempts(0).link), FirstWebsite(attempts(0).page.hrefs, Plausible))
    ensures r == Outcome(attempts(Decisive(attempts, 0)))
  {
    var k := Decisive(attempts, 0);
    var r := Outcome(attempts(k));
    assert r.website.Some? ==> Plausible(r.website.value) by {
      if r.website.Some? {
        var h := attempts(k).page.hrefs;
        var i :| FirstPassingAt(h, Plausible, i) && h[i] == r.website;
      }
    }
    r
  }

  /** One input row. */
  datatype Input = Input(uen: string, entityName: string)

  /** One result row. */
  datatype Row = Row(uen: string, companyName: string, companyLink: Option<string>, website: Option<string>)

  const CheckpointEvery: nat := 500

  datatype SimpleState = SimpleState(results: seq<Row>, checkpoints: seq<Checkpoint<Row>>)

  function RowFor(r: Input, attempts: nat -> Attempt<LinkScan>): Row {
    var f := ScrapeCompany(attempts);
    Row(r.uen, r.entityName, f.link, f.website)
  }

  /** The loop of `process_batch` over the first `n` companies, given the
      row each company gets, for a scraper that names its checkpoints from
      `start`: `record_num` is one more than the rows so far, the row is
      appended, and a checkpoint is written when `record_num` is a multiple
      of 500. */
  function Loop(row: nat -> Row, start: nat, n: nat): SimpleState {
    if n == 0 then SimpleState([], [])
    else
      var st := Loop(row, start, n - 1);
      var recordNum := |st.results| + 1;
      var results := st.results + [row(n - 1)];
      SimpleState(results, if recordNum % CheckpointEvery == 0
                           then st.checkpoints + [Checkpoint(start + recordNum, results)]
                           else st.checkpoints)
  }

  /** The loop appends exactly one row per company, in order, so `record_num`
      always counts the rows including the current one, and its checkpoints
      are the ones of the shared cadence. */
  lemma {:induction false} LoopAccounts(row: nat -> Row, start: nat, n: nat)
    ensures |Loop(row, start, n).results| == n
    ensures forall i :: 0 <= i < n ==> Loop(row, start, n).results[i] == row(i)
    ensures Loop(row, start, n).checkpoints == Checkpoints(Loop(row, start, n).results, CheckpointEvery, start)
  {
    LoopRows(row, start, n);
    LoopCheckpoints(row, start, n);
  }

  lemma {:induction false} LoopRows(row: nat -> Row, start: nat, n: nat)
    ensures |Loop(row, start, n).results| == n
    ensures forall i :: 0 <= i < n ==> Loop(row, start, n).results[i] == row(i)
    decreases n
  {
    if n > 0 {
      LoopRows(row, start, n - 1);
    }
  }

  lemma {:induction false} LoopCheckpoints(row: nat -> Row, start: nat, n: nat)
    ensures Loop(row, start, n).checkpoints == Checkpoints(Loop(row, start, n).results, CheckpointEvery, start)
    decreases n
  {
    if n > 0 {
      var prev := Loop(row, start, n - 1);
      var st := Loop(row, start, n);
      assert |prev.results| == n - 1 by {
        LoopRows(row, start, n - 1);
      }
      var grown := prev.checkpoints + (if n % CheckpointEvery == 0 then [Checkpoint(start + n, st.results)] else []);
      assert st.checkpoints == grown;
      assert prev.checkpoints == Checkpoints(prev.results, CheckpointEvery, start) by {
        LoopCheckpoints(row, start, n - 1);
      }
      assert Checkpoints(st.results, CheckpointEvery, start) == grown by {
        CheckpointsSnoc(prev.results, row(n - 1), CheckpointEvery, start);
      }
    }
  }

  /** The row of the `i`-th company of the slice. */
  function RowAt(subset: seq<Input>, attempts: nat -> nat -> Attempt<LinkScan>): nat -> Row {
    (i: nat) => if i < |subset| then RowFor(subset[i], attempts(i)) else RowFor(Input("", ""), attempts(i))
  }

  /** `process_batch(df, num_companies, start_from)`: the rows
      `start_from .. start_from + num_companies` of the input (fewer at
      the end of the input), the final result rows and the checkpoints. */
  function ProcessBatch(rows: seq<Input>, num: nat, start: nat, attempts: nat -> nat -> Attempt<LinkScan>): (st: SimpleState)
    ensures |st.results| == |Slice(rows, start, start + num)| && |st.results| <= num
    ensures forall i :: 0 <= i < |st.results| ==> start + i < |rows| && st.results[i] == RowFor(rows[start + i], attempts(i))
    ensures st.checkpoints == Checkpoints(st.results, CheckpointEvery, start)
  {
    var subset := Slice(rows, start, start + num);
    LoopAccounts(RowAt(subset, attempts), start, |subset|);
    Loop(RowAt(subset, attempts), start, |subset|)
  }

  /** Checkpoint `k` is named `start_from + 500 * (k + 1)` and holds the
      first `500 * (k + 1)` rows; there is one per 500 rows. */
  lemma ProcessBatchCheckpoints(rows: seq<Input>, num: nat, start: nat, attempts: nat -> nat -> Attempt<LinkScan>)
    ensures var st := ProcessBatch(rows, num, start, attempts);
      |st.checkpoints| == |st.results| / CheckpointEvery &&
      forall k :: 0 <= k < |st.checkpoints| ==>
        st.checkpoints[k].name == start + (k + 1) * CheckpointEvery &&
        |st.checkpoints[k].rows| == (k + 1) * CheckpointEvery && Prefix(st.checkpoints[k].rows, st.results)
  {
    var st := ProcessBatch(rows, num, start, attempts);
    CheckpointsClosed(st.results, CheckpointEvery, start);
  }
}
