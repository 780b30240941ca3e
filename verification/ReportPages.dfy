/** What the reader of a finished report sees on its pages. */
module ReportPages {
  import opened PageLayout
  import opened Substrings

  // The rows drawn on a list of pages, in reading order.
  function DrawnRows(commands: seq<Command>): seq<ReportRow> {
    if commands == [] then []
    else (if commands[0].Draw? then [commands[0].row] else []) + DrawnRows(commands[1..])
  }

  ghost function AllDrawn(pages: seq<seq<Command>>): seq<ReportRow> {
    Concat(seq(|pages|, k requires 0 <= k < |pages| => DrawnRows(pages[k])))
  }

  lemma {:induction false} DrawnFirst(c: Command, rest: seq<Command>)
    ensures DrawnRows([c] + rest) == (if c.Draw? then [c.row] else []) + DrawnRows(rest)
  {
  }

  lemma NoneDrawn()
    ensures DrawnRows([]) == []
  {
  }

  lemma {:induction false} DrawnConcat(a: seq<Command>, b: seq<Command>)
    ensures DrawnRows(a + b) == DrawnRows(a) + DrawnRows(b)
  {
    hide DrawnRows;
    if a == [] {
      NoneDrawn();
      assert a + b == b;
    } else {
      DrawnConcat(a[1..], b);
      DrawnFirst(a[0], a[1..] + b);
      DrawnFirst(a[0], a[1..]);
      assert a + b == [a[0]] + (a[1..] + b) && a == [a[0]] + a[1..];
    }
  }

  lemma {:induction false} NothingDrawn(commands: seq<Command>)
    requires forall i :: 0 <= i < |commands| ==> !commands[i].Draw?
    ensures DrawnRows(commands) == []
  {
    if commands != [] { NothingDrawn(commands[1..]); }
  }

  lemma {:induction false} FillConcat(a: seq<Command>, b: seq<Command>, total: nat, page: nat)
    ensures FillPage(a + b, total, page) == FillPage(a, total, page) + FillPage(b, total, page)
  {
    hide FillCommand;
  }

  // The rows of a page as its reader sees them.
  ghost function SeenOn(rows: seq<ReportRow>, total: nat, page: nat): (seen: seq<ReportRow>)
    ensures |seen| == |rows|
  {
    seq(|rows|, i requires 0 <= i < |rows| => FillRow(Shown(rows[i]), total, page))
  }

  lemma {:induction false} DrawnOfDraws(rows: seq<ReportRow>, y: int, total: nat, page: nat)
    ensures DrawnRows(FillPage(Draws(rows, y), total, page)) == SeenOn(rows, total, page)
  {
    hide Shown, FillRow, Height;
    if rows != [] {
      var init, last := rows[..|rows| - 1], Draw(Shown(rows[|rows| - 1]), y - Height(rows[..|rows| - 1]));
      DrawnOfDraws(init, y, total, page);
      FillConcat(Draws(init, y), [last], total, page);
      DrawnConcat(FillPage(Draws(init, y), total, page), FillPage([last], total, page));
      assert FillPage([last], total, page) == [FillCommand(last, total, page)] + [];
      DrawnFirst(FillCommand(last, total, page), []);
      assert SeenOn(rows, total, page)
          == SeenOn(init, total, page) + [FillRow(Shown(rows[|rows| - 1]), total, page)];
    }
  }

  lemma {:induction false} DrawnOfPage(rows: seq<ReportRow>, page: nat, total: nat)
    ensures DrawnRows(FillPage(PageCommands(rows, page), total, page + 1)) == SeenOn(rows, total, page + 1)
  {
    hide Draws, SeenOn, FillRow, DrawnRows;
    var tail := (if page == 0 && rows == [] then [EmptyState(CONTENT_TOP)] else []) + [Footer(page + 1, 0)];
    var opening, draws := Opening(page), Draws(rows, Top(page));
    assert PageCommands(rows, page) == opening + (draws + tail);
    FillConcat(opening, draws + tail, total, page + 1);
    FillConcat(draws, tail, total, page + 1);
    DrawnConcat(FillPage(opening, total, page + 1), FillPage(draws, total, page + 1) + FillPage(tail, total, page + 1));
    DrawnConcat(FillPage(draws, total, page + 1), FillPage(tail, total, page + 1));
    DrawnOfDraws(rows, Top(page), total, page + 1);
    NothingDrawn(FillPage(opening, total, page + 1));
    NothingDrawn(FillPage(tail, total, page + 1));
  }

  // Page by page, the rows as readers see them.
  ghost function SeenPages(pages: seq<seq<ReportRow>>): (seen: seq<seq<ReportRow>>)
    ensures |seen| == |pages|
  {
    seq(|pages|, k requires 0 <= k < |pages| => SeenOn(pages[k], |pages|, k + 1))
  }

  lemma {:induction false} DrawnOfReport(pages: seq<seq<ReportRow>>)
    ensures AllDrawn(FillPages(Render(pages))) == Concat(SeenPages(pages))
  {
    hide PageCommands, FillPage, DrawnRows, SeenOn;
    var finished := FillPages(Render(pages));
    forall k | 0 <= k < |pages| ensures DrawnRows(finished[k]) == SeenPages(pages)[k] {
      DrawnOfPage(pages[k], k, |pages|);
    }
    assert seq(|finished|, k requires 0 <= k < |finished| => DrawnRows(finished[k])) == SeenPages(pages);
  }

  // ---------- Texts that hold a mark ----------

  predicate HasMark(text: string) {
    Includes(text, TOTAL_MARK) || Includes(text, PAGE_MARK)
  }

  predicate RowHasMark(row: ReportRow) {
    match row
    case Section(name) => HasMark(name)
    case Amount(name, value, _) => HasMark(name) || HasMark(value)
    case Metric(name, value) => HasMark(name) || HasMark(value)
    case Text(value) => HasMark(value)
    case Spacer => false
  }

  lemma {:induction false} PrintStartsWithDigit(n: nat)
    ensures Decimal.Print(n) != "" && Decimal.Print(n)[0] != '_'
  {
    hide Decimal.Print;
    Decimal.ValueOfPrint(n);
    assert Decimal.IsDigit(Decimal.Print(n)[0]);
  }

  lemma MarksStartWithLine()
    ensures TOTAL_MARK != "" && TOTAL_MARK[0] == '_' && PAGE_MARK != "" && PAGE_MARK[0] == '_'
  {
  }

  // A text survives the replacement exactly when it holds neither mark.
  lemma {:induction false} FilledIffMarked(text: string, total: nat, page: nat)
    ensures Fill(text, total, page) == text <==> !HasMark(text)
  {
    hide TOTAL_MARK, PAGE_MARK, Replace, Includes, IncludedAt;
    MarksStartWithLine();
    PrintStartsWithDigit(total);
    PrintStartsWithDigit(page);
    var once := Replace(text, TOTAL_MARK, Decimal.Print(total));
    if Includes(text, TOTAL_MARK) {
      var i := FirstReplaced(text, TOTAL_MARK, Decimal.Print(total));
      MarkAt(text, TOTAL_MARK, i);
      PlacedAt(text, i, Decimal.Print(total), Replace(text[i + |TOTAL_MARK|..], TOTAL_MARK, Decimal.Print(total)));
      ChangedStays(text, once, i, page);
    } else {
      NothingReplaced(text, TOTAL_MARK, Decimal.Print(total));
      if Includes(text, PAGE_MARK) {
        var j := FirstReplaced(text, PAGE_MARK, Decimal.Print(page));
        MarkAt(text, PAGE_MARK, j);
        PlacedAt(text, j, Decimal.Print(page), Replace(text[j + |PAGE_MARK|..], PAGE_MARK, Decimal.Print(page)));
      } else {
        NothingReplaced(text, PAGE_MARK, Decimal.Print(page));
      }
    }
  }

  lemma {:induction false} PlacedAt(text: string, i: nat, value: string, rest: string)
    requires i <= |text| && value != ""
    ensures var changed := text[..i] + value + rest;
            i < |changed| && changed[..i] == text[..i] && changed[i] == value[0]
  {
  }

  lemma {:induction false} MarkAt(text: string, mark: string, i: nat)
    requires mark != "" && IncludedAt(text, mark, i)
    ensures i + |mark| <= |text| && text[i] == mark[0]
  {
    assert text[i..i + |mark|][0] == text[i];
  }

  // The second replacement cannot undo a change made by the first.
  lemma {:induction false} ChangedStays(text: string, once: string, i: nat, page: nat)
    requires i < |text| && i < |once| && text[..i] == once[..i] && text[i] == '_' && once[i] != '_'
    ensures PAGE_MARK != "" && Replace(once, PAGE_MARK, Decimal.Print(page)) != text
  {
    hide TOTAL_MARK, PAGE_MARK, Replace, Includes, IncludedAt;
    MarksStartWithLine();
    PrintStartsWithDigit(page);
    if Includes(once, PAGE_MARK) {
      var twice := Replace(once, PAGE_MARK, Decimal.Print(page));
      var j := FirstReplaced(once, PAGE_MARK, Decimal.Print(page));
      MarkAt(once, PAGE_MARK, j);
      PlacedAt(once, j, Decimal.Print(page), Replace(once[j + |PAGE_MARK|..], PAGE_MARK, Decimal.Print(page)));
      if i < j {
        assert twice[..j][i] == once[..j][i];
      } else if j < i {
        assert text[..i][j] == once[..i][j];
      }
    } else {
      NothingReplaced(once, PAGE_MARK, Decimal.Print(page));
    }
  }

  lemma {:induction false} RowFilledIffMarked(row: ReportRow, total: nat, page: nat)
    ensures FillRow(row, total, page) == row <==> !RowHasMark(row)
  {
    hide Fill, HasMark;
    match row
    case Section(name) => FilledIffMarked(name, total, page);
    case Amount(name, value, _) =>
      FilledIffMarked(name, total, page);
      FilledIffMarked(value, total, page);
    case Metric(name, value) =>
      FilledIffMarked(name, total, page);
      FilledIffMarked(value, total, page);
    case Text(value) => FilledIffMarked(value, total, page);
    case Spacer =>
  }

  // ---------- The whole report ----------

  function AllShown(rows: seq<ReportRow>): (shown: seq<ReportRow>)
    ensures |shown| == |rows|
  {
    seq(|rows|, i requires 0 <= i < |rows| => Shown(rows[i]))
  }

  lemma {:induction false} ShownConcat(pages: seq<seq<ReportRow>>)
    ensures AllShown(Concat(pages)) == Concat(seq(|pages|, k requires 0 <= k < |pages| => AllShown(pages[k])))
  {
    hide Shown;
    var shown := seq(|pages|, k requires 0 <= k < |pages| => AllShown(pages[k]));
    if pages != [] {
      ShownConcat(pages[1..]);
      assert shown[1..] == seq(|pages[1..]|, k requires 0 <= k < |pages[1..]| => AllShown(pages[1..][k]));
      assert AllShown(pages[0] + Concat(pages[1..])) == AllShown(pages[0]) + AllShown(Concat(pages[1..]));
    }
  }

  // Page lists of the same shape read alike exactly when they are equal.
  lemma {:induction false} ConcatEqual(a: seq<seq<ReportRow>>, b: seq<seq<ReportRow>>)
    requires |a| == |b| && forall k :: 0 <= k < |a| ==> |a[k]| == |b[k]|
    ensures Concat(a) == Concat(b) <==> a == b
  {
    if a != [] {
      ConcatEqual(a[1..], b[1..]);
      assert a == [a[0]] + a[1..] && b == [b[0]] + b[1..];
      if Concat(a) == Concat(b) {
        assert Concat(a)[..|a[0]|] == a[0] && Concat(b)[..|a[0]|] == b[0];
        assert Concat(a)[|a[0]|..] == Concat(a[1..]) && Concat(b)[|a[0]|..] == Concat(b[1..]);
      }
    }
  }

  lemma {:induction false} SeenIffUnmarked(pages: seq<seq<ReportRow>>)
    ensures Concat(SeenPages(pages)) == AllShown(Concat(pages))
       <==> forall k, i :: 0 <= k < |pages| && 0 <= i < |pages[k]| ==> !RowHasMark(Shown(pages[k][i]))
  {
    hide Shown, RowHasMark, FillRow;
    var shown := seq(|pages|, k requires 0 <= k < |pages| => AllShown(pages[k]));
    ShownConcat(pages);
    ConcatEqual(SeenPages(pages), shown);
    forall k | 0 <= k < |pages|
      ensures SeenPages(pages)[k] == shown[k]
         <==> forall i :: 0 <= i < |pages[k]| ==> !RowHasMark(Shown(pages[k][i]))
    {
      PageSeenIffUnmarked(pages[k], |pages|, k + 1);
    }
  }

  lemma {:induction false} PageSeenIffUnmarked(rows: seq<ReportRow>, total: nat, page: nat)
    ensures SeenOn(rows, total, page) == AllShown(rows)
       <==> forall i :: 0 <= i < |rows| ==> !RowHasMark(Shown(rows[i]))
  {
    hide Shown, RowHasMark, FillRow;
    forall i | 0 <= i < |rows|
      ensures SeenOn(rows, total, page)[i] == AllShown(rows)[i] <==> !RowHasMark(Shown(rows[i]))
    {
      RowFilledIffMarked(Shown(rows[i]), total, page);
    }
  }

  lemma {:induction false} ConcatMembers(pages: seq<seq<ReportRow>>, row: ReportRow)
    ensures row in Concat(pages) <==> exists k, i :: 0 <= k < |pages| && 0 <= i < |pages[k]| && pages[k][i] == row
  {
    if pages != [] {
      ConcatMembers(pages[1..], row);
      if row in Concat(pages[1..]) {
        var k, i :| 0 <= k < |pages[1..]| && 0 <= i < |pages[1..][k]| && pages[1..][k][i] == row;
        assert pages[k + 1][i] == row;
      }
      if exists k, i :: 0 <= k < |pages| && 0 <= i < |pages[k]| && pages[k][i] == row {
        var k, i :| 0 <= k < |pages| && 0 <= i < |pages[k]| && pages[k][i] == row;
        if k > 0 { assert pages[1..][k - 1][i] == row; }
      }
    }
  }

  // The finished pages draw every row exactly once and in order, end with footers numbered 1 to n of n, and are
  // as few as any in-order split allows.
  lemma {:induction false} ReportIsComplete(rows: seq<ReportRow>)
    ensures var split := Paginate(rows, CONTENT_TOP);
            var pages := FillPages(Render(split));
            && Concat(split) == rows && AllDrawn(pages) == Concat(SeenPages(split))
            && (forall k :: 0 <= k < |pages| ==>
                  pages[k] != [] && pages[k][|pages[k]| - 1] == Footer(k + 1, |pages|))
            && (forall k :: 0 <= k < |split| ==> Fits(split[k], Top(k)))
            && (forall other :: Split(other, rows, CONTENT_TOP) ==> |pages| <= |other|)
  {
    hide Draws, SeenPages, Concat, FillRow, Paginate, Opening, AllDrawn, Height;
    var split := Paginate(rows, CONTENT_TOP);
    PaginateSplits(rows, CONTENT_TOP);
    DrawnOfReport(split);
    forall other | Split(other, rows, CONTENT_TOP) ensures |split| <= |other| {
      PaginateIsMinimal(rows, CONTENT_TOP, other);
    }
  }

  // Readers see the rows as they were drawn exactly when no drawn text holds one of the two marks.
  lemma {:induction false} ReportShowsRows(rows: seq<ReportRow>)
    ensures AllDrawn(FillPages(Render(Paginate(rows, CONTENT_TOP)))) == AllShown(rows)
       <==> forall row :: row in rows ==> !RowHasMark(Shown(row))
  {
    hide Paginate, Shown, RowHasMark, SeenPages, AllDrawn, Render, FillPages, AllShown;
    var split := Paginate(rows, CONTENT_TOP);
    PaginateSplits(rows, CONTENT_TOP);
    DrawnOfReport(split);
    SeenIffUnmarked(split);
    forall row ensures row in rows
                  <==> exists k, i :: 0 <= k < |split| && 0 <= i < |split[k]| && split[k][i] == row {
      ConcatMembers(split, row);
    }
    forall k, i | 0 <= k < |split| && 0 <= i < |split[k]| ensures split[k][i] in rows {
    }
  }

  // A row whose text is a mark is not shown as it is.
  lemma MarkExample()
    ensures var rows := [Text("__TOTAL_PAGES__")];
            AllDrawn(FillPages(Render(Paginate(rows, CONTENT_TOP)))) != AllShown(rows)
  {
    hide AllDrawn, FillPages, Render, Paginate, AllShown, Truncate;
    var rows := [Text("__TOTAL_PAGES__")];
    ReportShowsRows(rows);
    MarkIsShown();
    assert rows[0] in rows && RowHasMark(Shown(rows[0]));
  }

  lemma MarkIsShown()
    ensures Truncate("__TOTAL_PAGES__", 92) == "__TOTAL_PAGES__" && HasMark("__TOTAL_PAGES__")
  {
    assert IncludedAt("__TOTAL_PAGES__", TOTAL_MARK, 0);
  }
}
