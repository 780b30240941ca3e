/** Breaking the rows of a report into pages (`buildPages`, `getRowHeight`, `drawRow`, `drawFooter`). */
module PageLayout {
  import opened PdfText
  import opened Substrings
  import Decimal

  const CONTENT_TOP: int := 612
  const CONTINUED_TOP: int := 658
  const CONTENT_BOTTOM: int := 62

  datatype ReportRow =
    | Section(name: string)
    | Amount(name: string, value: string, emphasis: bool)
    | Metric(name: string, value: string)
    | Text(value: string)
    | Spacer

  function RowHeight(row: ReportRow): int {
    if row.Spacer? then 10 else if row.Section? then 28 else 22
  }

  // `truncate`
  function Truncate(value: string, length: nat): string
    requires length > 0
  {
    var ascii := ToAscii(value);
    if |ascii| > length then ascii[..length - 1] + "." else ascii
  }

  // The texts of a row as they are drawn.
  function Shown(row: ReportRow): ReportRow {
    match row
    case Section(name) => Section(ToAscii(name))
    case Amount(name, value, emphasis) => Amount(Truncate(name, 48), Truncate(value, 24), emphasis)
    case Metric(name, value) => Metric(Truncate(name, 46), Truncate(value, 24))
    case Text(value) => Text(Truncate(value, 92))
    case Spacer => Spacer
  }

  // What a page draws.  A total of 0 is the placeholder that is replaced once all pages are known.
  datatype Command =
    | Header(first: bool)
    | Summary
    | DetailsTitle(y: int)
    | Draw(row: ReportRow, y: int)
    | EmptyState(y: int)
    | Footer(page: nat, total: nat)

  function Top(page: nat): int {
    if page == 0 then CONTENT_TOP else CONTINUED_TOP
  }

  // ---------- Splits ----------

  function Height(rows: seq<ReportRow>): int {
    if rows == [] then 0 else RowHeight(rows[0]) + Height(rows[1..])
  }

  predicate Fits(rows: seq<ReportRow>, top: int) {
    top - Height(rows) >= CONTENT_BOTTOM
  }

  // How many rows the loop draws before it breaks the page.
  function FitCount(rows: seq<ReportRow>, y: int): (n: nat)
    ensures n <= |rows|
  {
    if rows == [] || y - RowHeight(rows[0]) < CONTENT_BOTTOM then 0
    else 1 + FitCount(rows[1..], y - RowHeight(rows[0]))
  }

  function Paginate(rows: seq<ReportRow>, top: int): seq<seq<ReportRow>>
    requires top >= CONTENT_TOP
    decreases |rows|
  {
    var n := FitCount(rows, top);
    if n == |rows| then [rows] else [rows[..n]] + Paginate(rows[n..], CONTINUED_TOP)
  }

  function Concat(pages: seq<seq<ReportRow>>): seq<ReportRow> {
    if pages == [] then [] else pages[0] + Concat(pages[1..])
  }

  // Any way of laying the rows out in order: the first page from CONTENT_TOP, the others from CONTINUED_TOP.
  ghost predicate Split(pages: seq<seq<ReportRow>>, rows: seq<ReportRow>, top: int) {
    && pages != [] && Concat(pages) == rows
    && Fits(pages[0], top)
    && forall i :: 1 <= i < |pages| ==> Fits(pages[i], CONTINUED_TOP)
  }

  lemma {:induction false} HeightOfConcat(a: seq<ReportRow>, b: seq<ReportRow>)
    ensures Height(a + b) == Height(a) + Height(b)
    ensures Height(a) >= 0
  {
    if a == [] {
      assert a + b == b;
    } else {
      HeightOfConcat(a[1..], b);
      assert (a + b)[1..] == a[1..] + b;
    }
  }

  lemma {:induction false} FitCountFits(rows: seq<ReportRow>, y: int)
    requires y >= CONTENT_BOTTOM
    ensures Fits(rows[..FitCount(rows, y)], y)
  {
    var n := FitCount(rows, y);
    if n > 0 {
      FitCountFits(rows[1..], y - RowHeight(rows[0]));
      assert rows[..n][1..] == rows[1..][..n - 1];
    }
  }

  // No longer prefix fits.
  lemma {:induction false} FitCountIsGreatest(rows: seq<ReportRow>, y: int, m: nat)
    requires m <= |rows| && Fits(rows[..m], y)
    ensures m <= FitCount(rows, y)
  {
    if m > 0 {
      assert rows[..m][1..] == rows[1..][..m - 1];
      HeightOfConcat(rows[1..][..m - 1], []);
      FitCountIsGreatest(rows[1..], y - RowHeight(rows[0]), m - 1);
    }
  }

  // Page breaking keeps every row once, in order, and every page above the bottom margin.
  lemma {:induction false} PaginateSplits(rows: seq<ReportRow>, top: int)
    requires top >= CONTENT_TOP
    ensures Split(Paginate(rows, top), rows, top)
    decreases |rows|
  {
    var n := FitCount(rows, top);
    FitCountFits(rows, top);
    if n == |rows| {
      assert rows[..n] == rows;
      assert Concat([rows]) == rows + Concat([]);
    } else {
      PaginateSplits(rows[n..], CONTINUED_TOP);
      var rest := Paginate(rows[n..], CONTINUED_TOP);
      assert ([rows[..n]] + rest)[1..] == rest;
      assert rows == rows[..n] + rows[n..];
    }
  }

  // The pages of a split after the first k rows have been taken away from the front.
  function DropRows(pages: seq<seq<ReportRow>>, k: nat): (rest: seq<seq<ReportRow>>)
    requires k <= |Concat(pages)|
    ensures |rest| == |pages|
  {
    if pages == [] then []
    else if |pages[0]| <= k then [[]] + DropRows(pages[1..], k - |pages[0]|)
    else [pages[0][k..]] + pages[1..]
  }

  lemma EmptyPageFits()
    ensures Fits([], CONTINUED_TOP)
  {
  }

  lemma {:induction false} TailFits(page: seq<ReportRow>, k: nat)
    requires k <= |page| && Fits(page, CONTINUED_TOP)
    ensures Fits(page[k..], CONTINUED_TOP)
  {
    assert page == page[..k] + page[k..];
    HeightOfConcat(page[..k], page[k..]);
  }

  lemma {:induction false} DropRowsSplits(pages: seq<seq<ReportRow>>, k: nat)
    requires k <= |Concat(pages)|
    requires forall i :: 0 <= i < |pages| ==> Fits(pages[i], CONTINUED_TOP)
    ensures Concat(DropRows(pages, k)) == Concat(pages)[k..]
    ensures forall i :: 0 <= i < |pages| ==> Fits(DropRows(pages, k)[i], CONTINUED_TOP)
  {
    hide Height;
    if pages != [] {
      if |pages[0]| <= k {
        EmptyPageFits();
        DropRowsSplits(pages[1..], k - |pages[0]|);
        assert ([[]] + DropRows(pages[1..], k - |pages[0]|))[1..] == DropRows(pages[1..], k - |pages[0]|);
      } else {
        TailFits(pages[0], k);
        assert ([pages[0][k..]] + pages[1..])[1..] == pages[1..];
      }
    }
  }

  lemma {:induction false} FirstRowFits(rows: seq<ReportRow>, top: int)
    requires rows != [] && top >= CONTENT_TOP
    ensures FitCount(rows, top) > 0
  {
    hide Height;
  }

  lemma {:induction false} PageCount(rows: seq<ReportRow>, top: int)
    requires top >= CONTENT_TOP
    ensures var n := FitCount(rows, top);
            |Paginate(rows, top)| == if n == |rows| then 1 else 1 + |Paginate(rows[n..], CONTINUED_TOP)|
  {
    hide FitCount, RowHeight;
  }

  lemma {:induction false} SplitParts(pages: seq<seq<ReportRow>>, rows: seq<ReportRow>, top: int)
    requires Split(pages, rows, top)
    ensures |pages[0]| <= |rows| && rows[..|pages[0]|] == pages[0] && Concat(pages[1..]) == rows[|pages[0]|..]
    ensures forall i :: 0 <= i < |pages[1..]| ==> Fits(pages[1..][i], CONTINUED_TOP)
  {
    hide Fits;
    assert pages == [pages[0]] + pages[1..];
    assert rows == pages[0] + Concat(pages[1..]);
  }

  // No in-order split uses fewer pages.
  lemma {:induction false} PaginateIsMinimal(rows: seq<ReportRow>, top: int, pages: seq<seq<ReportRow>>)
    requires top >= CONTENT_TOP && Split(pages, rows, top)
    ensures |Paginate(rows, top)| <= |pages|
    decreases |rows|
  {
    hide FitCount, Paginate, Height, Concat, DropRows, Fits;
    var n, m := FitCount(rows, top), |pages[0]|;
    SplitParts(pages, rows, top);
    FitCountIsGreatest(rows, top, m);
    PageCount(rows, top);
    if n < |rows| {
      FirstRowFits(rows, top);
      DropRowsSplits(pages[1..], n - m);
      assert rows[m..][n - m..] == rows[n..];
      SomeOtherPage(pages, rows, top);
      PaginateIsMinimal(rows[n..], CONTINUED_TOP, DropRows(pages[1..], n - m));
    }
  }

  lemma {:induction false} SomeOtherPage(pages: seq<seq<ReportRow>>, rows: seq<ReportRow>, top: int)
    requires Split(pages, rows, top) && |pages[0]| < |rows|
    ensures |pages| > 1
  {
    hide Fits;
    SplitParts(pages, rows, top);
    assert |Concat(pages[1..])| > 0;
  }

  // ---------- Drawing ----------

  // The rows of one page at their positions.
  function Draws(rows: seq<ReportRow>, y: int): seq<Command> {
    if rows == [] then []
    else
      var init := rows[..|rows| - 1];
      Draws(init, y) + [Draw(Shown(rows[|rows| - 1]), y - Height(init))]
  }

  function Opening(page: nat): seq<Command> {
    [Header(page == 0)] + (if page == 0 then [Summary] else []) + [DetailsTitle(Top(page) + 24)]
  }

  function PageCommands(rows: seq<ReportRow>, page: nat): seq<Command> {
    Opening(page) + Draws(rows, Top(page)) + (if page == 0 && rows == [] then [EmptyState(CONTENT_TOP)] else [])
    + [Footer(page + 1, 0)]
  }

  function Render(pages: seq<seq<ReportRow>>): (rendered: seq<seq<Command>>)
    ensures |rendered| == |pages|
  {
    seq(|pages|, i requires 0 <= i < |pages| => PageCommands(pages[i], i))
  }

  const TOTAL_MARK := "__TOTAL_PAGES__"
  const PAGE_MARK := "__PAGE_NUMBER__"

  // Both marks are replaced in every text of a page, wherever they come from.
  function Fill(text: string, total: nat, page: nat): string {
    Replace(Replace(text, TOTAL_MARK, Decimal.Print(total)), PAGE_MARK, Decimal.Print(page))
  }

  function FillRow(row: ReportRow, total: nat, page: nat): ReportRow {
    match row
    case Section(name) => Section(Fill(name, total, page))
    case Amount(name, value, emphasis) => Amount(Fill(name, total, page), Fill(value, total, page), emphasis)
    case Metric(name, value) => Metric(Fill(name, total, page), Fill(value, total, page))
    case Text(value) => Text(Fill(value, total, page))
    case Spacer => Spacer
  }

  function FillCommand(command: Command, total: nat, page: nat): Command {
    match command
    case Footer(number, 0) => Footer(number, total)
    case Draw(row, y) => Draw(FillRow(row, total, page), y)
    case _ => command
  }

  function FillPages(pages: seq<seq<Command>>): seq<seq<Command>> {
    seq(|pages|, k requires 0 <= k < |pages| => FillPage(pages[k], |pages|, k + 1))
  }

  function FillPage(commands: seq<Command>, total: nat, page: nat): seq<Command> {
    seq(|commands|, i requires 0 <= i < |commands| => FillCommand(commands[i], total, page))
  }

  // The pages that the loop still produces from its current page.
  function Resume(current: seq<ReportRow>, y: int, rest: seq<ReportRow>): seq<seq<ReportRow>> {
    var n := FitCount(rest, y);
    if n == |rest| then [current + rest] else [current + rest[..n]] + Paginate(rest[n..], CONTINUED_TOP)
  }

  lemma {:induction false} ResumeDraws(current: seq<ReportRow>, y: int, rest: seq<ReportRow>)
    requires rest != [] && y - RowHeight(rest[0]) >= CONTENT_BOTTOM
    ensures Resume(current, y, rest) == Resume(current + [rest[0]], y - RowHeight(rest[0]), rest[1..])
  {
    var n := FitCount(rest, y);
    assert current + rest == current + [rest[0]] + rest[1..];
    assert current + rest[..n] == current + [rest[0]] + rest[1..][..n - 1];
    assert rest[n..] == rest[1..][n - 1..];
  }

  lemma {:induction false} ResumeBreaks(current: seq<ReportRow>, y: int, rest: seq<ReportRow>)
    requires rest != [] && y - RowHeight(rest[0]) < CONTENT_BOTTOM
    ensures Resume(current, y, rest) == [current] + Resume([], CONTINUED_TOP, rest)
  {
    assert FitCount(rest, y) == 0;
    assert current + rest[..0] == current && rest[0..] == rest;
    assert forall s: seq<ReportRow> :: [] + s == s;
  }

  lemma {:induction false} DrawsSnoc(rows: seq<ReportRow>, row: ReportRow, y: int)
    ensures Draws(rows + [row], y) == Draws(rows, y) + [Draw(Shown(row), y - Height(rows))]
    ensures Height(rows + [row]) == Height(rows) + RowHeight(row)
  {
    assert (rows + [row])[..|rows|] == rows;
    HeightOfConcat(rows, [row]);
    assert Height([row]) == RowHeight(row) + Height([]);
  }

  lemma {:induction false} DrawsLength(rows: seq<ReportRow>, y: int)
    ensures |Draws(rows, y)| == |rows|
    ensures forall i :: 0 <= i < |rows| ==> Draws(rows, y)[i] == Draw(Shown(rows[i]), y - Height(rows[..i]))
  {
    hide Shown;
    if rows != [] {
      var init := rows[..|rows| - 1];
      DrawsLength(init, y);
      forall i | 0 <= i < |init| ensures Draws(rows, y)[i] == Draw(Shown(rows[i]), y - Height(rows[..i])) {
        assert init[..i] == rows[..i];
      }
    }
  }

  lemma {:induction false} ResumeStart(rows: seq<ReportRow>)
    ensures Paginate(rows, CONTENT_TOP) == [] + Resume([], CONTENT_TOP, rows[0..])
  {
    assert rows[0..] == rows && [] + rows == rows;
    var n := FitCount(rows, CONTENT_TOP);
    assert [] + rows[..n] == rows[..n];
  }

  lemma {:induction false} ResumeEnd(current: seq<ReportRow>, y: int)
    ensures Resume(current, y, []) == [current]
  {
    assert current + [] == current;
  }

  lemma {:induction false} RenderSnoc(pages: seq<seq<ReportRow>>, rows: seq<ReportRow>)
    ensures Render(pages + [rows]) == Render(pages) + [PageCommands(rows, |pages|)]
  {
  }

  lemma {:induction false} NonEmptyPage(rows: seq<ReportRow>, page: nat)
    requires rows != [] || page != 0
    ensures PageCommands(rows, page) == Opening(page) + Draws(rows, Top(page)) + [Footer(page + 1, 0)]
  {
  }

  lemma EmptyReport()
    ensures Opening(0) + Draws([], CONTENT_TOP) + [EmptyState(CONTENT_TOP)] + [Footer(1, 0)] == PageCommands([], 0)
    ensures Height([]) == 0 && forall y :: Draws([], y) == []
  {
  }

  method BuildPages(rows: seq<ReportRow>) returns (pages: seq<seq<Command>>)
    ensures pages == FillPages(Render(Paginate(rows, CONTENT_TOP)))
  {
    hide Paginate, Resume, Draws, Height, PageCommands, Opening, Render, FillPages, Shown;
    pages := [];
    var current := Opening(0);
    var y := CONTENT_TOP;
    ghost var done: seq<seq<ReportRow>>, onPage: seq<ReportRow> := [], [];
    ResumeStart(rows);
    EmptyReport();
    for i := 0 to |rows|
      invariant Paginate(rows, CONTENT_TOP) == done + Resume(onPage, y, rows[i..])
      invariant |pages| == |done| && pages == Render(done)
      invariant current == Opening(|done|) + Draws(onPage, Top(|done|))
      invariant y == Top(|done|) - Height(onPage)
      invariant onPage == [] <==> i == 0
      invariant onPage == [] ==> done == []
    {
      var row := rows[i];
      var height := RowHeight(row);
      assert rows[i..][0] == row && rows[i..][1..] == rows[i + 1..];
      if y - height < CONTENT_BOTTOM {
        ResumeBreaks(onPage, y, rows[i..]);
        NonEmptyPage(onPage, |done|);
        RenderSnoc(done, onPage);
        current := current + [Footer(|pages| + 1, 0)];
        pages := pages + [current];
        done, onPage := done + [onPage], [];
        current := Opening(|pages|);
        y := CONTINUED_TOP;
      }
      ResumeDraws(onPage, y, rows[i..]);
      DrawsSnoc(onPage, row, Top(|done|));
      current := current + [Draw(Shown(row), y)];
      onPage := onPage + [row];
      y := y - height;
    }
    assert rows[|rows|..] == [];
    ResumeEnd(onPage, y);
    assert Paginate(rows, CONTENT_TOP) == done + [onPage];
    if |rows| == 0 {
      current := current + [EmptyState(y)];
    } else {
      NonEmptyPage(onPage, |done|);
    }
    RenderSnoc(done, onPage);
    current := current + [Footer(|pages| + 1, 0)];
    pages := pages + [current];
    pages := FillPages(pages);
  }

  // ---------- Where rows are painted ----------

  // The vertical extent that a row at position y paints; a spacer paints nothing.
  predicate Paints(row: ReportRow, y: int, low: int, high: int) {
    !row.Spacer? && low == y - 13 && high == y + 9
  }

  // Every row stays between the top of its page and the bottom margin.
  lemma {:induction false} RowStaysOnPage(rows: seq<ReportRow>, top: int, i: nat)
    requires i < |rows| && Fits(rows, top)
    ensures i < |Draws(rows, top)| && Draws(rows, top)[i].Draw? && Draws(rows, top)[i].row == Shown(rows[i])
    ensures CONTENT_BOTTOM <= Draws(rows, top)[i].y - RowHeight(rows[i]) && Draws(rows, top)[i].y <= top
  {
    DrawsLength(rows, top);
    HeightOfPrefix(rows, i, |rows|);
    HeightOfConcat(rows[..i], []);
    assert rows[..|rows|] == rows;
  }

  // Rows of a page are painted from top to bottom, apart from each other and above the bottom margin.
  lemma {:induction false} RowsDoNotOverlap(rows: seq<ReportRow>, top: int, i: nat, j: nat, low: int, high: int,
                                            low': int, high': int)
    requires i < j < |rows| && Fits(rows, top)
    requires var draws := Draws(rows, top);
             |draws| == |rows| && draws[i].Draw? && draws[j].Draw?
             && Paints(rows[i], draws[i].y, low, high) && Paints(rows[j], draws[j].y, low', high')
    ensures CONTENT_BOTTOM <= low' < high' <= low < high
  {
    hide Height;
    DrawsLength(rows, top);
    HeightOfPrefix(rows, i, j);
    HeightOfPrefix(rows, j, |rows|);
    assert rows[..|rows|] == rows;
  }

  lemma {:induction false} HeightOfPrefix(rows: seq<ReportRow>, i: nat, j: nat)
    requires i < j <= |rows|
    ensures Height(rows[..j]) >= Height(rows[..i]) + RowHeight(rows[i])
  {
    var tail := rows[i..j];
    assert rows[..j] == rows[..i] + tail;
    HeightOfConcat(rows[..i], tail);
    HeightOfConcat(tail[1..], []);
  }
}
