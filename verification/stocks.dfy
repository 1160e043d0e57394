/** The SGX stock-table extractor: find the main table and its body, map
    every body row with at least seven cells to a stock record, collapsing
    the whitespace of every cell text.  The parsed HTML is an input: the
    table, its body and each row's cells (text and the text of the first link
    inside the cell). */
module Stocks {
  import opened Wrappers
  import opened Text
  import opened Seqs

  /** The first word of `s`: the characters up to the first whitespace. */
  function FirstWord(s: string): (w: string)
    ensures IsPrefix(w, s) && NoSpace(w)
    ensures |w| < |s| ==> IsSpace(s[|w|])
    ensures s != [] && !IsSpace(s[0]) ==> w != []
  {
    if s == [] || IsSpace(s[0]) then [] else [s[0]] + FirstWord(s[1..])
  }

  /** `s.split()`: the maximal runs of non-whitespace, in order. */
  function Words(s: string): (ws: seq<string>)
    ensures forall i :: 0 <= i < |ws| ==> ws[i] != [] && NoSpace(ws[i])
    ensures Flatten(ws) == Visible(s)
    ensures s != [] && !IsSpace(s[0]) ==> ws != [] && ws[0] == FirstWord(s)
    decreases |s|
  {
    if s == [] then []
    else if IsSpace(s[0]) then Words(s[1..])
    else
      var w := FirstWord(s);
      var rest := Words(s[|w|..]);
      assert s == w + s[|w|..];
      VisibleAppend(w, s[|w|..]);
      VisibleOfNoSpace(w);
      [w] + rest
  }

  /** `' '.join(ws)`. */
  function JoinSpaced(ws: seq<string>): string {
    if ws == [] then "" else if |ws| == 1 then ws[0] else ws[0] + " " + JoinSpaced(ws[1..])
  }

  predicate WellFormedWords(ws: seq<string>) {
    forall i :: 0 <= i < |ws| ==> ws[i] != [] && NoSpace(ws[i])
  }

  /** Whitespace-collapsed text: no whitespace at either end, and every
      whitespace character is a single ' ' followed by a non-whitespace one. */
  predicate Collapsed(r: string) {
    && (r == [] || (!IsSpace(r[0]) && !IsSpace(r[|r| - 1])))
    && forall i :: 0 <= i < |r| && IsSpace(r[i]) ==> r[i] == ' ' && i + 1 < |r| && !IsSpace(r[i + 1])
  }

  /** Joining one more word in front keeps the text collapsed. */
  lemma JoinStep(w: string, j: string)
    requires w != [] && NoSpace(w) && j != [] && Collapsed(j)
    ensures Collapsed(w + " " + j)
  {
    var r := w + " " + j;
    forall i | 0 <= i < |r| && IsSpace(r[i])
      ensures r[i] == ' ' && i + 1 < |r| && !IsSpace(r[i + 1])
    {
      if i == |w| {
        assert r[i + 1] == j[0];
      } else if i > |w| {
        assert r[i] == j[i - |w| - 1];
        assert i + 1 < |r| ==> r[i + 1] == j[i - |w|];
      }
    }
    assert r[|r| - 1] == j[|j| - 1];
    assert r[0] == w[0];
  }

  lemma VisibleStep(w: string, j: string)
    requires NoSpace(w)
    ensures Visible(w + " " + j) == w + Visible(j)
  {
    VisibleAppend(w + " ", j);
    VisibleSpaceAfter(w);
  }

  lemma VisibleSpaceAfter(w: string)
    requires NoSpace(w)
    ensures Visible(w + " ") == w
  {
    VisibleAppend(w, " ");
    VisibleOfNoSpace(w);
    assert Visible(" ") == [] + Visible(" "[1..]);
  }

  lemma {:induction false} JoinCollapsed(ws: seq<string>)
    requires WellFormedWords(ws)
    ensures Collapsed(JoinSpaced(ws))
    ensures Visible(JoinSpaced(ws)) == Flatten(ws)
    ensures ws != [] ==> JoinSpaced(ws) != [] && JoinSpaced(ws)[0] == ws[0][0]
    decreases |ws|
  {
    if |ws| == 1 {
      VisibleOfNoSpace(ws[0]);
      assert Flatten(ws) == ws[0] + Flatten([]);
    } else if |ws| > 1 {
      var w := ws[0];
      var j := JoinSpaced(ws[1..]);
      JoinCollapsed(ws[1..]);
      assert JoinSpaced(ws) == w + " " + j;
      JoinStep(w, j);
      VisibleStep(w, j);
    }
  }

  lemma {:induction false} FirstWordOf(a: string, b: string)
    requires NoSpace(a) && (b == [] || IsSpace(b[0]))
    ensures FirstWord(a + b) == a
    decreases |a|
  {
    if a == [] {
      assert a + b == b;
    } else {
      assert (a + b)[1..] == a[1..] + b;
      FirstWordOf(a[1..], b);
    }
  }

  /** Words are maximal: a run of non-whitespace that is followed by
      whitespace, or by nothing, is one word, never split and never joined
      with what follows. */
  lemma WordsSplit(w: string, t: string)
    requires w != [] && NoSpace(w) && (t == [] || IsSpace(t[0]))
    ensures Words(w + t) == [w] + Words(t)
  {
    var r := w + t;
    assert r[0] == w[0];
    FirstWordOf(w, t);
    assert r[|w|..] == t;
  }

  /** Splitting a word, a space and more text gives the word, then the words
      of the rest. */
  lemma WordsStep(w: string, j: string)
    requires w != [] && NoSpace(w)
    ensures Words(w + " " + j) == [w] + Words(j)
  {
    assert w + " " + j == w + (" " + j);
    WordsSplit(w, " " + j);
    assert (" " + j)[1..] == j;
  }

  /** Splitting the joined words gives the words back. */
  lemma {:induction false} WordsOfJoin(ws: seq<string>)
    requires WellFormedWords(ws)
    ensures Words(JoinSpaced(ws)) == ws
    decreases |ws|
  {
    if |ws| == 1 {
      var w := ws[0];
      FirstWordOf(w, []);
      assert w + [] == w;
      assert w[|w|..] == [];
    } else if |ws| > 1 {
      WordsOfJoin(ws[1..]);
      assert JoinSpaced(ws) == ws[0] + " " + JoinSpaced(ws[1..]);
      WordsStep(ws[0], JoinSpaced(ws[1..]));
    }
  }

  /** `clean_text`: the empty string for `None` or "", otherwise the words of
      the text joined by single spaces. */
  function CleanText(text: Option<string>): (r: string)
    ensures text.None? || text.value == [] ==> r == ""
    ensures Collapsed(r)
    ensures Visible(r) == Visible(text.GetOr(""))
    ensures Words(r) == Words(text.GetOr(""))
  {
    match text
    case None => ""
    case Some(s) =>
      if s == [] then ""
      else
        JoinCollapsed(Words(s));
        WordsOfJoin(Words(s));
        JoinSpaced(Words(s))
  }

  /** Cleaning twice is cleaning once. */
  lemma CleanTextIdempotent(text: Option<string>)
    ensures CleanText(Some(CleanText(text))) == CleanText(text)
  {
    if text.Some? && text.value != [] {
      WordsOfJoin(Words(text.value));
    }
  }

  /** One `td`: its text and the text of the first `a` inside it, if any. */
  datatype Td = Td(text: string, linkText: Option<string>)

  datatype Stock = Stock(symbol: string, companyName: string, marketCap: string,
                         stockPrice: string, percentChange: string, revenue: string)

  /** The text of cell `i` (empty past the row's end, which full rows never reach). */
  function TextAt(cells: seq<Td>, i: nat): string {
    if i < |cells| then cells[i].text else ""
  }

  /** The symbol cell: the link's text when the cell holds a link, else the
      cell's own text. */
  function SymbolOf(cells: seq<Td>): string {
    if 1 < |cells| && cells[1].linkText.Some? then CleanText(cells[1].linkText)
    else CleanText(Some(TextAt(cells, 1)))
  }

  /** The record for one full row: cell 0 (the row number) is ignored. */
  function ToStock(cells: seq<Td>): (s: Stock)
    ensures Collapsed(s.symbol) && Collapsed(s.companyName) && Collapsed(s.marketCap)
    ensures Collapsed(s.stockPrice) && Collapsed(s.percentChange) && Collapsed(s.revenue)
    ensures IsFullRow(cells) ==>
      && s.symbol == (if cells[1].linkText.Some? then CleanText(cells[1].linkText) else CleanText(Some(cells[1].text)))
      && s.companyName == CleanText(Some(cells[2].text))
      && s.marketCap == CleanText(Some(cells[3].text))
      && s.stockPrice == CleanText(Some(cells[4].text))
      && s.percentChange == CleanText(Some(cells[5].text))
      && s.revenue == CleanText(Some(cells[6].text))
  {
    Stock(SymbolOf(cells), CleanText(Some(TextAt(cells, 2))), CleanText(Some(TextAt(cells, 3))),
          CleanText(Some(TextAt(cells, 4))), CleanText(Some(TextAt(cells, 5))), CleanText(Some(TextAt(cells, 6))))
  }

  /** `len(cells) >= 7`. */
  predicate IsFullRow(cells: seq<Td>) { |cells| >= 7 }

  /** The record depends only on cells 1 to 6: the row number and any extra
      cells play no part. */
  lemma ToStockIgnoresOtherCells(cells: seq<Td>, other: seq<Td>)
    requires IsFullRow(cells) && IsFullRow(other)
    requires cells[1..7] == other[1..7]
    ensures ToStock(cells) == ToStock(other)
  {
    assert forall i :: 1 <= i < 7 ==> cells[i] == cells[1..7][i - 1] && other[i] == other[1..7][i - 1];
  }

  /** The `for row in rows` loop: short rows are skipped with `continue`. */
  function StockRows(rows: seq<seq<Td>>): (out: seq<Stock>)
    ensures |out| <= |rows|
    ensures out == MapSeq(Filter(rows, IsFullRow), ToStock)
  {
    if rows == [] then []
    else
      MapFilterCons(rows, IsFullRow, ToStock);
      var rest := StockRows(rows[1..]);
      if IsFullRow(rows[0]) then [ToStock(rows[0])] + rest else rest
  }

  /** The parsed page: no `table#main-table`, or the table and its `tbody`
      (if any) as a list of rows of cells. */
  datatype Page = NoMainTable | MainTable(tbody: Option<seq<seq<Td>>>)

  /** `extract_stocks_from_html`: `None` when the table or its body is
      missing, otherwise one record per full row, in row order. */
  function ExtractStocks(page: Page): (r: Option<seq<Stock>>)
    ensures r.None? <==> page.NoMainTable? || page.tbody.None?
    ensures r.Some? ==> r.value == MapSeq(Filter(page.tbody.value, IsFullRow), ToStock)
    ensures r.Some? ==> |r.value| <= |page.tbody.value|
  {
    match page
    case NoMainTable => None
    case MainTable(None) => None
    case MainTable(Some(rows)) => Some(StockRows(rows))
  }
}
