/** The batch-runner skeleton shared by the scrapers: contiguous chunks for
    parallel workers, the periodic browser restart, checkpoints every so many
    results, and the watermark of the checkpoint monitor. */
module Batch {
  import opened Seqs

  /** A browser restart follows every 50th item of a worker. */
  const RestartEvery: nat := 50

  /** The monitor writes a checkpoint once 500 more items are done. */
  const CheckpointGap: nat := 500

  /** One more factor adds at least one more `e`. */
  lemma {:induction false} MulMono(a: nat, b: nat, e: nat)
    requires a < b
    ensures a * e + e <= b * e
    decreases b - a
  {
    assert (a + 1) * e == a * e + e;
    if a + 1 < b {
      MulMono(a + 1, b, e);
    }
  }

  /** Division is determined by quotient and remainder. */
  lemma DivRem(n: nat, q: nat, r: nat, e: nat)
    requires e > 0 && r < e && n == q * e + r
    ensures n / e == q && n % e == r
  {
    var q', r' := n / e, n % e;
    assert n == q' * e + r';
    if q' < q {
      MulMono(q', q, e);
    } else if q' > q {
      MulMono(q, q', e);
    }
  }

  lemma MulDivLe(n: nat, e: nat, k: nat)
    requires e > 0 && k <= n / e
    ensures k * e <= n
  {
    assert n == (n / e) * e + n % e;
    if k < n / e {
      MulMono(k, n / e, e);
    }
  }

  /** One more item adds one to `n / e` exactly when it completes a
      multiple of `e`. */
  lemma DivStep(n: nat, e: nat)
    requires e > 0 && n > 0
    ensures n / e == (n - 1) / e + (if n % e == 0 then 1 else 0)
  {
    var q, r := (n - 1) / e, (n - 1) % e;
    assert n - 1 == q * e + r;
    assert (q + 1) * e == q * e + e;
    if r == e - 1 {
      DivRem(n, q + 1, 0, e);
    } else {
      DivRem(n, q, r + 1, e);
    }
  }

  lemma ExactMultiple(m: nat, e: nat, q: nat)
    requires e > 0 && m % e == 0 && q == m / e
    ensures q * e == m
  {
    assert m == (m / e) * e + m % e;
  }

  /** The number of restarts after `k` items: the positions `1 .. k` that
      are multiples of 50. */
  function RestartsAfter(k: nat): nat {
    if k == 0 then 0 else RestartsAfter(k - 1) + (if k % RestartEvery == 0 then 1 else 0)
  }

  /** `k` items give `k / 50` restarts. */
  lemma {:induction false} RestartCount(k: nat)
    ensures RestartsAfter(k) == k / RestartEvery
  {
    if k > 0 {
      RestartCount(k - 1);
      DivStep(k, RestartEvery);
    }
  }

  /** Checkpoint `name` holding the rows written. */
  datatype Checkpoint<R> = Checkpoint(name: nat, rows: seq<R>)

  /** The checkpoints of a loop that appends one result per item and, when
      the number of results is a multiple of `every`, writes all results so
      far under the name `base` plus that number. */
  function Checkpoints<R>(rs: seq<R>, every: nat, base: nat): seq<Checkpoint<R>>
    requires every > 0
  {
    if rs == [] then []
    else
      Checkpoints(rs[..|rs| - 1], every, base) + (if |rs| % every == 0 then [Checkpoint(base + |rs|, rs)] else [])
  }

  /** One more result adds a checkpoint exactly when the new count is a
      multiple of `every`. */
  lemma CheckpointsSnoc<R>(rs: seq<R>, x: R, every: nat, base: nat)
    requires every > 0
    ensures Checkpoints(rs + [x], every, base) ==
      Checkpoints(rs, every, base) + (if (|rs| + 1) % every == 0 then [Checkpoint(base + |rs| + 1, rs + [x])] else [])
  {
    assert (rs + [x])[..|rs|] == rs;
  }

  /** The `k`-th checkpoint comes after `(k + 1) * every` results, is named
      after that count and holds exactly those first results. */
  lemma {:induction false} CheckpointsClosed<R>(rs: seq<R>, every: nat, base: nat)
    requires every > 0
    ensures |Checkpoints(rs, every, base)| == |rs| / every
    ensures forall k :: 0 <= k < |Checkpoints(rs, every, base)| ==>
      var c := Checkpoints(rs, every, base)[k];
      c.name == base + (k + 1) * every && |c.rows| == (k + 1) * every && Prefix(c.rows, rs)
    decreases |rs|
  {
    if rs != [] {
      var m := |rs|;
      var init := rs[..m - 1];
      CheckpointsClosed(init, every, base);
      DivStep(m, every);
      var prev := Checkpoints(init, every, base);
      var cs := Checkpoints(rs, every, base);
      assert cs == prev + (if m % every == 0 then [Checkpoint(base + m, rs)] else []);
      forall k | 0 <= k < |cs|
        ensures cs[k].name == base + (k + 1) * every && |cs[k].rows| == (k + 1) * every && Prefix(cs[k].rows, rs)
      {
        if k < |prev| {
          assert cs[k] == prev[k];
          assert Prefix(prev[k].rows, init);
          assert rs[..|prev[k].rows|] == init[..|prev[k].rows|];
        } else {
          ExactMultiple(m, every, k + 1);
          assert cs[k] == Checkpoint(base + m, rs);
        }
      }
    }
  }

  /** Worker `w`'s chunk of `xs` among `n` workers: `len(xs) // n` items
      from position `w * (len(xs) // n)`, the last worker running to the end. */
  function Chunk<T>(xs: seq<T>, n: nat, w: nat): seq<T>
    requires w < n
  {
    ChunkBounds(|xs|, n, w);
    xs[w * (|xs| / n)..if w < n - 1 then (w + 1) * (|xs| / n) else |xs|]
  }

  /** The chunks of `n` workers, in worker order. */
  function Chunks<T>(xs: seq<T>, n: nat): seq<seq<T>> {
    seq(n, w requires 0 <= w < n => Chunk(xs, n, w))
  }

  /** Every chunk boundary lies inside the list. */
  lemma ChunkBounds(len: nat, n: nat, w: nat)
    requires w < n
    ensures w * (len / n) <= (w + 1) * (len / n) <= len
  {
    var size := len / n;
    assert (w + 1) * size == w * size + size;
    MulDivLe(len, n, size);
    if w + 1 < n {
      MulMono(w + 1, n, size);
    }
  }

  /** A chunk read off its start and length. */
  lemma ChunkAt<T>(xs: seq<T>, n: nat, w: nat, size: nat, start: nat)
    requires w < n && size == |xs| / n && start == w * size
    ensures start <= |xs|
    ensures w < n - 1 ==> start + size <= |xs| && Chunk(xs, n, w) == xs[start..start + size]
    ensures w == n - 1 ==> Chunk(xs, n, w) == xs[start..]
  {
    ChunkBounds(|xs|, n, w);
    assert (w + 1) * size == start + size;
  }

  /** Contiguous chunks for `n` workers: the first `n - 1` have `|xs| / n`
      items and the last takes the rest; together they are `xs`, in order,
      so no item goes to two workers and none is left out. */
  method SplitChunks<T>(xs: seq<T>, n: nat) returns (chunks: seq<seq<T>>)
    requires n > 0
    ensures chunks == Chunks(xs, n)
    ensures |chunks| == n
    ensures Flatten(chunks) == xs
    ensures forall i :: 0 <= i < n - 1 ==> |chunks[i]| == |xs| / n
    ensures |chunks[n - 1]| == |xs| - (n - 1) * (|xs| / n)
  {
    var size := |xs| / n;
    chunks := [];
    var i: nat, start: nat := 0, 0;
    while i < n - 1
      invariant i <= n - 1
      invariant SplitSoFar(xs, n, i, start, chunks)
    {
      SplitStep(xs, n, i, start, chunks);
      chunks := chunks + [xs[start..start + size]];
      i, start := i + 1, start + size;
    }
    SplitLast(xs, n, start, chunks);
    chunks := chunks + [xs[start..]];
  }

  /** The loop invariant of `SplitChunks` after `i` chunks: they are the
      first `i` chunks, each of `|xs| / n` items, and together they are the
      first `start` items. */
  ghost predicate SplitSoFar<T>(xs: seq<T>, n: nat, i: nat, start: nat, chunks: seq<seq<T>>)
    requires i < n
  {
    && start == i * (|xs| / n) && start <= |xs|
    && |chunks| == i
    && (forall j :: 0 <= j < i ==> |chunks[j]| == |xs| / n)
    && chunks == Chunks(xs, n)[..i]
    && Flatten(chunks) == xs[..start]
  }

  /** One more full-size chunk keeps the invariant. */
  lemma SplitStep<T>(xs: seq<T>, n: nat, i: nat, start: nat, chunks: seq<seq<T>>)
    requires i < n - 1 && SplitSoFar(xs, n, i, start, chunks)
    ensures start + |xs| / n <= |xs|
    ensures SplitSoFar(xs, n, i + 1, start + |xs| / n, chunks + [xs[start..start + |xs| / n]])
  {
    var size := |xs| / n;
    ChunkAt(xs, n, i, size, start);
    var c := xs[start..start + size];
    MulSucc(i, size);
    SnocSizes(chunks, c, size);
    SnocPrefix(Chunks(xs, n), i, chunks, c);
    SnocFlatten(xs, start, start + size, chunks);
  }

  lemma MulSucc(i: nat, size: nat)
    ensures (i + 1) * size == i * size + size
  {
  }

  lemma SnocSizes<T>(chunks: seq<seq<T>>, c: seq<T>, size: nat)
    requires forall j :: 0 <= j < |chunks| ==> |chunks[j]| == size
    requires |c| == size
    ensures forall j :: 0 <= j < |chunks| + 1 ==> |(chunks + [c])[j]| == size
  {
  }

  lemma SnocPrefix<T>(s: seq<T>, i: nat, p: seq<T>, x: T)
    requires i < |s| && p == s[..i] && x == s[i]
    ensures p + [x] == s[..i + 1]
  {
  }

  lemma SnocFlatten<T>(xs: seq<T>, lo: nat, hi: nat, chunks: seq<seq<T>>)
    requires lo <= hi <= |xs| && Flatten(chunks) == xs[..lo]
    ensures Flatten(chunks + [xs[lo..hi]]) == xs[..hi]
  {
    FlattenAppend(chunks, xs[lo..hi]);
    assert xs[..lo] + xs[lo..hi] == xs[..hi];
  }

  /** The remainder chunk completes the split. */
  lemma SplitLast<T>(xs: seq<T>, n: nat, start: nat, chunks: seq<seq<T>>)
    requires n > 0 && SplitSoFar(xs, n, n - 1, start, chunks)
    ensures chunks + [xs[start..]] == Chunks(xs, n)
    ensures Flatten(chunks + [xs[start..]]) == xs
    ensures |xs[start..]| == |xs| - (n - 1) * (|xs| / n)
  {
    ChunkAt(xs, n, n - 1, |xs| / n, start);
    assert Chunks(xs, n) == Chunks(xs, n)[..n - 1] + [Chunks(xs, n)[n - 1]];
    FlattenAppend(chunks, xs[start..]);
    assert xs[..start] + xs[start..] == xs;
  }

  /** The rows a worker appends for the chunk starting at position `offset`
      of the scraped rows, where `f(x, i)` is the row for item `x` at
      position `i`: none when its browser fails to start, otherwise one per
      item. */
  function WorkerRows<T, R>(chunk: seq<T>, offset: nat, started: bool, f: (T, nat) -> R): (rows: seq<R>)
    ensures |rows| == if started then |chunk| else 0
    ensures started ==> forall i :: 0 <= i < |chunk| ==> rows[i] == f(chunk[i], offset + i)
  {
    if started then seq(|chunk|, i requires 0 <= i < |chunk| => f(chunk[i], offset + i)) else []
  }

  /** The rows of the workers over `chunks`, taken worker by worker: worker
      `w` covers the items after the chunks before it. */
  function WorkersRows<T, R>(chunks: seq<seq<T>>, started: nat -> bool, f: (T, nat) -> R): seq<R> {
    if chunks == [] then []
    else
      var w := |chunks| - 1;
      WorkersRows(chunks[..w], started, f) + WorkerRows(chunks[w], |Flatten(chunks[..w])|, started(w), f)
  }

  /** The workers over contiguous chunks of `subset`, their rows taken
      worker by worker: the started workers' chunks' rows, so an order-
      preserving subsequence of a single pass over `subset`, and exactly
      that pass when every worker starts. */
  method RunWorkers<T, R(==)>(subset: seq<T>, n: nat, started: nat -> bool, f: (T, nat) -> R) returns (results: seq<R>)
    requires n > 0
    ensures results == WorkersRows(Chunks(subset, n), started, f)
    ensures IsSubseq(results, WorkerRows(subset, 0, true, f))
    ensures |results| <= |subset|
    ensures (forall w :: 0 <= w < n ==> started(w)) ==>
      |results| == |subset| && forall i :: 0 <= i < |subset| ==> results[i] == f(subset[i], i)
  {
    var chunks := SplitChunks(subset, n);
    results := RunChunks(subset, chunks, started, f);
  }

  /** The worker-by-worker loop over given chunks of `subset`. */
  method RunChunks<T, R(==)>(subset: seq<T>, chunks: seq<seq<T>>, started: nat -> bool, f: (T, nat) -> R)
    returns (results: seq<R>)
    requires Flatten(chunks) == subset
    ensures results == WorkersRows(chunks, started, f)
    ensures IsSubseq(results, WorkerRows(subset, 0, true, f))
    ensures |results| <= |subset|
    ensures (forall w :: 0 <= w < |chunks| ==> started(w)) ==>
      |results| == |subset| && forall i :: 0 <= i < |subset| ==> results[i] == f(subset[i], i)
  {
    results := [];
    var w: nat, offset: nat := 0, 0;
    while w < |chunks|
      invariant 0 <= w <= |chunks|
      invariant WorkersSoFar(subset, chunks, started, f, w, offset, results)
      invariant WorkersOrder(subset, chunks, started, f, w, offset, results)
    {
      WorkersStep(subset, chunks, started, f, w, offset, results);
      OrderStep(subset, chunks, started, f, w, offset, results);
      results := results + WorkerRows(chunks[w], offset, started(w), f);
      offset := offset + |chunks[w]|;
      w := w + 1;
    }
    WorkersDone(subset, chunks, started, f, offset, results);
  }

  /** After the last worker the invariant gives the contract of `RunWorkers`. */
  lemma WorkersDone<T, R>(subset: seq<T>, chunks: seq<seq<T>>, started: nat -> bool, f: (T, nat) -> R,
                          offset: nat, results: seq<R>)
    requires Flatten(chunks) == subset
    requires WorkersSoFar(subset, chunks, started, f, |chunks|, offset, results)
    requires WorkersOrder(subset, chunks, started, f, |chunks|, offset, results)
    ensures results == WorkersRows(chunks, started, f)
    ensures IsSubseq(results, WorkerRows(subset, 0, true, f))
    ensures |results| <= |subset|
    ensures (forall w :: 0 <= w < |chunks| ==> started(w)) ==>
      |results| == |subset| && forall i :: 0 <= i < |subset| ==> results[i] == f(subset[i], i)
  {
    assert chunks[..|chunks|] == chunks;
    var pass := WorkerRows(subset, 0, true, f);
    assert pass[..|subset|] == pass;
  }

  /** The loop invariant of `RunWorkers` after `w` workers: they covered the
      first `offset` items and produced their rows worker by worker, which
      are some of those items' rows in order, and exactly those rows when
      all of them started. */
  ghost predicate WorkersSoFar<T, R>(subset: seq<T>, chunks: seq<seq<T>>, started: nat -> bool, f: (T, nat) -> R,
                               w: nat, offset: nat, results: seq<R>)
  {
    && w <= |chunks|
    && offset == |Flatten(chunks[..w])| && offset <= |subset| && Flatten(chunks[..w]) == subset[..offset]
    && |results| <= offset
    && ((forall v :: 0 <= v < w ==> started(v)) ==>
          |results| == offset && forall i :: 0 <= i < offset ==> results[i] == f(subset[i], i))
  }

  /** One more worker keeps the invariant. */
  lemma WorkersStep<T, R>(subset: seq<T>, chunks: seq<seq<T>>, started: nat -> bool, f: (T, nat) -> R,
                          w: nat, offset: nat, results: seq<R>)
    requires Flatten(chunks) == subset && w < |chunks|
    requires WorkersSoFar(subset, chunks, started, f, w, offset, results)
    ensures WorkersSoFar(subset, chunks, started, f, w + 1, offset + |chunks[w]|,
                         results + WorkerRows(chunks[w], offset, started(w), f))
  {
    var rows := WorkerRows(chunks[w], offset, started(w), f);
    CoverStep(subset, chunks, w, offset);
    if forall v :: 0 <= v <= w ==> started(v) {
      assert started(w) && forall v :: 0 <= v < w ==> started(v);
      AppendWorker(subset, results, chunks[w], rows, offset, f);
    }
  }

  /** The rows after `w` workers are theirs worker by worker, and so some
      rows of the first `offset` items, in order. */
  ghost predicate WorkersOrder<T, R>(subset: seq<T>, chunks: seq<seq<T>>, started: nat -> bool, f: (T, nat) -> R,
                                   w: nat, offset: nat, results: seq<R>)
    requires w <= |chunks| && offset <= |subset|
  {
    && results == WorkersRows(chunks[..w], started, f)
    && IsSubseq(results, WorkerRows(subset, 0, true, f)[..offset])
  }

  /** One more worker keeps the order facts. */
  lemma OrderStep<T, R>(subset: seq<T>, chunks: seq<seq<T>>, started: nat -> bool, f: (T, nat) -> R,
                        w: nat, offset: nat, results: seq<R>)
    requires Flatten(chunks) == subset && w < |chunks|
    requires offset == |Flatten(chunks[..w])| <= |subset| && Flatten(chunks[..w]) == subset[..offset]
    requires WorkersOrder(subset, chunks, started, f, w, offset, results)
    ensures offset + |chunks[w]| <= |subset|
    ensures WorkersOrder(subset, chunks, started, f, w + 1, offset + |chunks[w]|,
                         results + WorkerRows(chunks[w], offset, started(w), f))
  {
    CoverStep(subset, chunks, w, offset);
    WorkersRowsSnoc(chunks, w, started, f);
    AppendSubseq(subset, results, chunks[w], offset, started(w), f);
  }

  /** The first `w + 1` chunks cover the items up to the end of chunk `w`. */
  lemma CoverStep<T>(subset: seq<T>, chunks: seq<seq<T>>, w: nat, offset: nat)
    requires Flatten(chunks) == subset && w < |chunks|
    requires offset == |Flatten(chunks[..w])| <= |subset| && Flatten(chunks[..w]) == subset[..offset]
    ensures offset + |chunks[w]| == |Flatten(chunks[..w + 1])| <= |subset|
    ensures Flatten(chunks[..w + 1]) == subset[..offset + |chunks[w]|]
    ensures subset[..offset + |chunks[w]|] == subset[..offset] + chunks[w]
  {
    FlattenPrefix(chunks, w);
  }

  /** One more chunk appends its worker's rows. */
  lemma WorkersRowsSnoc<T, R>(chunks: seq<seq<T>>, w: nat, started: nat -> bool, f: (T, nat) -> R)
    requires w < |chunks|
    ensures WorkersRows(chunks[..w + 1], started, f) ==
      WorkersRows(chunks[..w], started, f) + WorkerRows(chunks[w], |Flatten(chunks[..w])|, started(w), f)
  {
    assert chunks[..w + 1][..w] == chunks[..w];
  }

  /** Appending a worker's rows to some rows of the items before its chunk,
      in order, gives some rows of the items up to its chunk's end. */
  lemma AppendSubseq<T, R>(subset: seq<T>, results: seq<R>, chunk: seq<T>, offset: nat, started: bool, f: (T, nat) -> R)
    requires offset + |chunk| <= |subset| && subset[..offset + |chunk|] == subset[..offset] + chunk
    requires IsSubseq(results, WorkerRows(subset, 0, true, f)[..offset])
    ensures IsSubseq(results + WorkerRows(chunk, offset, started, f), WorkerRows(subset, 0, true, f)[..offset + |chunk|])
  {
    var pass := WorkerRows(subset, 0, true, f);
    var seg := pass[offset..offset + |chunk|];
    var rows := WorkerRows(chunk, offset, started, f);
    assert pass[..offset + |chunk|] == pass[..offset] + seg;
    if started {
      forall i | 0 <= i < |chunk|
        ensures rows[i] == seg[i]
      {
        assert subset[offset + i] == subset[..offset + |chunk|][offset + i] == chunk[i];
      }
      assert rows == seg;
      SubseqRefl(seg);
    }
    SubseqAppend(results, pass[..offset], rows, seg);
  }

  /** Appending a started worker's rows to the rows of a single pass over
      the items before its chunk gives a single pass up to its chunk's end. */
  lemma AppendWorker<T, R>(subset: seq<T>, results: seq<R>, chunk: seq<T>, rows: seq<R>, offset: nat, f: (T, nat) -> R)
    requires offset + |chunk| <= |subset| && subset[..offset + |chunk|] == subset[..offset] + chunk
    requires |results| == offset && forall i :: 0 <= i < offset ==> results[i] == f(subset[i], i)
    requires |rows| == |chunk| && forall i :: 0 <= i < |chunk| ==> rows[i] == f(chunk[i], offset + i)
    ensures |results + rows| == offset + |chunk|
    ensures forall i :: 0 <= i < offset + |chunk| ==> (results + rows)[i] == f(subset[i], i)
  {
    forall i | offset <= i < offset + |chunk|
      ensures (results + rows)[i] == f(subset[i], i)
    {
      assert subset[i] == subset[..offset + |chunk|][i] == chunk[i - offset];
    }
  }

  /** The concatenation of the first `w + 1` chunks extends that of the
      first `w` by chunk `w`, and stays a prefix of the whole. */
  lemma FlattenPrefix<T>(chunks: seq<seq<T>>, w: nat)
    requires w < |chunks|
    ensures Flatten(chunks[..w + 1]) == Flatten(chunks[..w]) + chunks[w]
    ensures Prefix(Flatten(chunks[..w + 1]), Flatten(chunks))
  {
    FlattenTakeSnoc(chunks, w);
    FlattenTakePrefix(chunks, w + 1);
  }

  lemma FlattenTakeSnoc<T>(chunks: seq<seq<T>>, w: nat)
    requires w < |chunks|
    ensures Flatten(chunks[..w + 1]) == Flatten(chunks[..w]) + chunks[w]
  {
    assert chunks[..w + 1] == chunks[..w] + [chunks[w]];
    FlattenAppend(chunks[..w], chunks[w]);
  }

  lemma FlattenTakePrefix<T>(chunks: seq<seq<T>>, n: nat)
    requires n <= |chunks|
    ensures Prefix(Flatten(chunks[..n]), Flatten(chunks))
  {
    var a, b := chunks[..n], chunks[n..];
    assert chunks == a + b;
    FlattenConcat(a, b);
    var fa := Flatten(a);
    assert (fa + Flatten(b))[..|fa|] == fa;
  }

  /** One observation of the monitor: the shared count it read, and
      whether writing a checkpoint at that moment succeeds (`to_csv` can
      raise, and the error is caught and printed). */
  datatype Poll = Poll(count: int, saved: bool)

  /** The counts observed, in order. */
  function Counts(polls: seq<Poll>): (cs: seq<int>)
    ensures |cs| == |polls| && forall i :: 0 <= i < |polls| ==> cs[i] == polls[i].count
  {
    if polls == [] then [] else [polls[0].count] + Counts(polls[1..])
  }

  /** A checkpoint is due: some items are done and at least 500 more than
      at the watermark `last`. */
  predicate Due(p: Poll, last: int) {
    p.count - last >= CheckpointGap && p.count > 0
  }

  /** A due checkpoint is written and moves the watermark only when the
      write succeeds; a failed write leaves the watermark where it was, so
      the next poll tries again. */
  predicate Writes(p: Poll, last: int) {
    Due(p, last) && p.saved
  }

  /** The monitor's scan: given its observations in turn and the count of
      the last checkpoint, the counts at which a checkpoint is written. */
  function Marks(polls: seq<Poll>, last: int): seq<int> {
    if polls == [] then []
    else if Writes(polls[0], last) then [polls[0].count] + Marks(polls[1..], polls[0].count)
    else Marks(polls[1..], last)
  }

  /** The checkpoints of the monitor: written only at observed counts, in
      order, only when some items are done, and each at least 500 beyond
      the one before. */
  function Watermarks(polls: seq<Poll>, last: int): (marks: seq<int>)
    ensures IsSubseq(marks, Counts(polls))
    ensures forall i :: 0 <= i < |marks| ==> marks[i] > 0
    ensures |marks| > 0 ==> marks[0] >= last + CheckpointGap
    ensures forall i, j :: 0 <= i < j < |marks| ==> marks[j] >= marks[i] + CheckpointGap
  {
    MarksSound(polls, last);
    Marks(polls, last)
  }

  lemma {:induction false} MarksSound(polls: seq<Poll>, last: int)
    ensures var marks := Marks(polls, last);
      && IsSubseq(marks, Counts(polls))
      && (forall i :: 0 <= i < |marks| ==> marks[i] > 0)
      && (|marks| > 0 ==> marks[0] >= last + CheckpointGap)
      && (forall i, j :: 0 <= i < j < |marks| ==> marks[j] >= marks[i] + CheckpointGap)
    decreases |polls|
  {
    if polls != [] {
      var c := polls[0].count;
      assert Counts(polls)[0] == c && Counts(polls)[1..] == Counts(polls[1..]);
      if Writes(polls[0], last) {
        var rest := Marks(polls[1..], c);
        MarksSound(polls[1..], c);
        var marks := [c] + rest;
        assert marks[1..] == rest;
        forall i, j | 0 <= i < j < |marks|
          ensures marks[j] >= marks[i] + CheckpointGap
        {
          assert marks[j] == rest[j - 1];
          if i > 0 {
            assert marks[i] == rest[i - 1];
          } else if j > 1 {
            assert rest[j - 1] >= rest[0] + CheckpointGap;
          }
        }
      } else {
        MarksSound(polls[1..], last);
      }
    }
  }

  /** The watermark after the monitor has made the observations `polls`. */
  function FinalMark(polls: seq<Poll>, last: int): int {
    var marks := Marks(polls, last);
    if marks == [] then last else marks[|marks| - 1]
  }

  /** After the last observation no checkpoint is overdue: either nothing
      is done, or fewer than 500 items have gone unsaved, or the write
      just attempted failed. */
  lemma {:induction false} WatermarkNothingOverdue(polls: seq<Poll>, last: int)
    requires polls != []
    ensures var p := polls[|polls| - 1];
      p.count <= 0 || p.count - FinalMark(polls, last) < CheckpointGap || !p.saved
    decreases |polls|
  {
    var next := if Writes(polls[0], last) then polls[0].count else last;
    FinalMarkCons(polls, last);
    if |polls| == 1 {
      assert polls[1..] == [];
    } else {
      WatermarkNothingOverdue(polls[1..], next);
      assert polls[|polls| - 1] == polls[1..][|polls[1..]| - 1];
    }
  }

  /** The watermark after `polls` is the one after the rest, starting from
      the first count when that one was written and from `last` otherwise. */
  lemma FinalMarkCons(polls: seq<Poll>, last: int)
    requires polls != []
    ensures FinalMark(polls, last) ==
      if Writes(polls[0], last) then FinalMark(polls[1..], polls[0].count) else FinalMark(polls[1..], last)
  {
    var c := polls[0].count;
    if Writes(polls[0], last) {
      var rest := Marks(polls[1..], c);
      var marks := [c] + rest;
      assert Marks(polls, last) == marks;
      if rest != [] {
        assert marks[|marks| - 1] == rest[|rest| - 1];
      }
    }
  }

  lemma {:induction false} MarksAppend(a: seq<Poll>, b: seq<Poll>, last: int)
    ensures Marks(a + b, last) == Marks(a, last) + Marks(b, FinalMark(a, last))
    decreases |a|
  {
    if a == [] {
      assert a + b == b;
    } else {
      var next := if Writes(a[0], last) then a[0].count else last;
      MarksAppend(a[1..], b, next);
      MarksAppendStep(a, b, last);
    }
  }

  /** The inductive step of `MarksAppend`: the first observation of `a` is
      handled the same way in `a + b` as in `a`. */
  lemma MarksAppendStep(a: seq<Poll>, b: seq<Poll>, last: int)
    requires a != []
    requires var next := if Writes(a[0], last) then a[0].count else last;
      Marks(a[1..] + b, next) == Marks(a[1..], next) + Marks(b, FinalMark(a[1..], next))
    ensures Marks(a + b, last) == Marks(a, last) + Marks(b, FinalMark(a, last))
  {
    var next := if Writes(a[0], last) then a[0].count else last;
    var head := if Writes(a[0], last) then [a[0].count] else [];
    assert Marks(a + b, last) == head + Marks(a[1..] + b, next) by {
      assert (a + b)[0] == a[0] && (a + b)[1..] == a[1..] + b;
    }
    FinalMarkCons(a, last);
  }

  /** Observing `a` then `b` writes the checkpoints of `a`, then those of
      `b` measured from the watermark `a` left. */
  lemma WatermarksAppend(a: seq<Poll>, b: seq<Poll>, last: int)
    ensures Watermarks(a + b, last) == Watermarks(a, last) + Watermarks(b, FinalMark(a, last))
  {
    MarksAppend(a, b, last);
  }

  /** One more observation adds a checkpoint exactly when the count is
      positive, at least 500 beyond the current watermark, and the write
      succeeds. */
  lemma WatermarksSnoc(polls: seq<Poll>, p: Poll, last: int)
    ensures Watermarks(polls + [p], last) ==
      Watermarks(polls, last) + (if Due(p, FinalMark(polls, last)) && p.saved then [p.count] else [])
  {
    MarksAppend(polls, [p], last);
    assert [p][1..] == [];
  }

  /** A failed write leaves the watermark unchanged, so a checkpoint that
      was due stays due at the next observation with the same count or a
      larger one. */
  lemma FailedWriteKeepsMark(polls: seq<Poll>, p: Poll, last: int)
    requires !p.saved
    ensures FinalMark(polls + [p], last) == FinalMark(polls, last)
  {
    MarksAppend(polls, [p], last);
    assert [p][1..] == [];
    assert Marks(polls + [p], last) == Marks(polls, last);
  }

  /** Every observation that is positive, at least 500 beyond the watermark
      at that moment and whose write succeeds is written as a checkpoint. */
  lemma WatermarksComplete(polls: seq<Poll>, last: int, i: nat)
    requires i < |polls| && Due(polls[i], FinalMark(polls[..i], last)) && polls[i].saved
    ensures |Watermarks(polls[..i], last)| < |Watermarks(polls, last)|
    ensures Watermarks(polls, last)[|Watermarks(polls[..i], last)|] == polls[i].count
  {
    var rest := polls[i..];
    assert polls == polls[..i] + rest;
    MarksAppend(polls[..i], rest, last);
    assert rest[0] == polls[i];
  }
}
