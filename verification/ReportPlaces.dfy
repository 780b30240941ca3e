/** Where and how each row of a report is drawn, in points and characters. */
module ReportPlaces {
  import opened PageLayout
  import opened PdfText
  import opened Substrings

  // ---------- Positions ----------

  function Sections(rows: seq<ReportRow>): set<nat> {
    set i: nat | i < |rows| && rows[i].Section?
  }

  function Spacers(rows: seq<ReportRow>): set<nat> {
    set i: nat | i < |rows| && rows[i].Spacer?
  }

  lemma {:induction false} HeightCounts(rows: seq<ReportRow>)
    ensures |Sections(rows)| + |Spacers(rows)| <= |rows|
    ensures Height(rows) == 22 * |rows| + 6 * |Sections(rows)| - 12 * |Spacers(rows)|
  {
    hide Sections, Spacers;
    if rows == [] {
      NoKind();
    } else {
      var n := |rows| - 1;
      HeightCounts(rows[..n]);
      assert rows == rows[..n] + [rows[n]];
      HeightOfConcat(rows[..n], [rows[n]]);
      assert Height([rows[n]]) == RowHeight(rows[n]) + Height([]);
      LastKind(rows);
    }
  }

  lemma NoKind()
    ensures Sections([]) == {} && Spacers([]) == {}
  {
  }

  lemma {:induction false} LastKind(rows: seq<ReportRow>)
    requires rows != []
    ensures var n := |rows| - 1;
            && |Sections(rows)| == |Sections(rows[..n])| + (if rows[n].Section? then 1 else 0)
            && |Spacers(rows)| == |Spacers(rows[..n])| + (if rows[n].Spacer? then 1 else 0)
  {
    var n := |rows| - 1;
    assert Sections(rows) == Sections(rows[..n]) + if rows[n].Section? then {n} else {};
    assert Spacers(rows) == Spacers(rows[..n]) + if rows[n].Spacer? then {n} else {};
  }

  // The height of a row: 28 for a section, 10 for a spacer, 22 for any other.
  function Points(row: ReportRow): int {
    match row
    case Section(_) => 28
    case Spacer => 10
    case _ => 22
  }

  // The page breaks: a page goes on while the next row ends at 62 or above, and no longer.
  lemma {:induction false} BreaksAt(rows: seq<ReportRow>, y: int, n: nat)
    requires n == FitCount(rows, y)
    ensures forall i :: 0 <= i < n ==> y - Height(rows[..i]) - Points(rows[i]) >= 62
    ensures n < |rows| ==> y - Height(rows[..n]) - Points(rows[n]) < 62
  {
    if n > 0 {
      BreaksAt(rows[1..], y - Points(rows[0]), n - 1);
      forall i | 0 < i <= n ensures Height(rows[..i]) == Points(rows[0]) + Height(rows[1..][..i - 1]) {
        assert rows[..i] == [rows[0]] + rows[1..][..i - 1];
      }
      forall i | 0 < i < n ensures y - Height(rows[..i]) - Points(rows[i]) >= 62 {
        assert rows[1..][i - 1] == rows[i];
      }
    }
  }

  // The row at position i of a page stands below the rows before it; the first page starts at 612, the others at 658.
  lemma {:induction false} RowStandsAt(split: seq<seq<ReportRow>>, k: nat, i: nat)
    requires k < |split| && i < |split[k]|
    ensures var commands, before := Render(split)[k], split[k][..i];
            var at := (if k == 0 then 3 else 2) + i;
            && |commands| > at
            && commands[at] == Draw(Shown(split[k][i]), (if k == 0 then 612 else 658)
                                      - 22 * i - 6 * |Sections(before)| + 12 * |Spacers(before)|)
  {
    hide Shown, Sections, Spacers;
    DrawsLength(split[k], Top(k));
    HeightCounts(split[k][..i]);
  }

  // Every page opens with its header and the title of the details, the first also with the summary, and ends with its
  // footer; an empty report says so.
  lemma {:induction false} PageFrame(split: seq<seq<ReportRow>>, k: nat)
    requires k < |split|
    ensures var commands, opening := Render(split)[k], if k == 0 then 3 else 2;
            && |commands| == opening + |split[k]| + (if k == 0 && split[0] == [] then 2 else 1)
            && commands[0] == Header(k == 0) && (k == 0 ==> commands[1] == Summary)
            && commands[opening - 1] == DetailsTitle(if k == 0 then 636 else 682)
            && commands[|commands| - 1] == Footer(k + 1, 0)
            && (k == 0 && split[0] == [] ==> commands[3] == EmptyState(612))
  {
    DrawsLength(split[k], Top(k));
  }

  // ---------- Texts ----------

  // A drawn text: what cannot be printed is blank, and a text that is too long ends in a full stop.
  ghost predicate ShownAs(shown: string, text: string, length: nat) {
    && |shown| == (if |text| > length then length else |text|)
    && forall i :: 0 <= i < |shown| ==>
         shown[i] == if |text| > length && i == length - 1 then '.'
                     else if ' ' <= text[i] <= '~' then text[i] else ' '
  }

  lemma {:induction false} Truncated(text: string, length: nat)
    requires length > 0
    ensures ShownAs(Truncate(text, length), text, length)
  {
  }

  // Each text of a row is drawn as itself, names up to 48 or 46 characters, values up to 24, plain texts up to 92.
  lemma {:induction false} RowIsShown(row: ReportRow)
    ensures match row
            case Section(name) => exists n :: Shown(row) == Section(n) && ShownAs(n, name, |name|)
            case Amount(name, value, emphasis) =>
              exists n, v :: Shown(row) == Amount(n, v, emphasis) && ShownAs(n, name, 48) && ShownAs(v, value, 24)
            case Metric(name, value) =>
              exists n, v :: Shown(row) == Metric(n, v) && ShownAs(n, name, 46) && ShownAs(v, value, 24)
            case Text(value) => exists v :: Shown(row) == Text(v) && ShownAs(v, value, 92)
            case Spacer => Shown(row) == Spacer
  {
    hide ShownAs, Truncate;
    match row
    case Section(name) => AsciiIsShown(name);
    case Amount(name, value, _) =>
      Truncated(name, 48);
      Truncated(value, 24);
    case Metric(name, value) =>
      Truncated(name, 46);
      Truncated(value, 24);
    case Text(value) => Truncated(value, 92);
    case Spacer =>
  }

  lemma {:induction false} AsciiIsShown(name: string)
    ensures ShownAs(ToAscii(name), name, |name|)
  {
  }

  // ---------- Page numbers ----------

  // The mark of the total becomes the number of pages, the mark of the page its number.
  lemma {:induction false} MarksFilled(total: nat, page: nat)
    ensures Fill("__TOTAL_PAGES__", total, page) == Decimal.Print(total)
    ensures Fill("__PAGE_NUMBER__", total, page) == Decimal.Print(page)
  {
    hide Replace, Includes, TOTAL_MARK, PAGE_MARK, Decimal.Print;
    Marks();
    NotOneAnother();
    ReplaceWhole(TOTAL_MARK, Decimal.Print(total));
    ReplaceWhole(PAGE_MARK, Decimal.Print(page));
    NothingReplaced(PAGE_MARK, TOTAL_MARK, Decimal.Print(total));
    DigitsHoldNoMark(Decimal.Print(total));
    NothingReplaced(Decimal.Print(total), PAGE_MARK, Decimal.Print(page));
  }

  lemma Marks()
    ensures TOTAL_MARK == "__TOTAL_PAGES__" && PAGE_MARK == "__PAGE_NUMBER__"
  {
  }

  lemma {:induction false} ReplaceWhole(mark: string, value: string)
    requires mark != ""
    ensures Replace(mark, mark, value) == value
  {
    assert mark[|mark|..] == "";
    assert value + "" == value;
  }

  lemma NotOneAnother()
    ensures !Includes(PAGE_MARK, TOTAL_MARK)
  {
    assert |PAGE_MARK| == |TOTAL_MARK| && PAGE_MARK[0..|PAGE_MARK|] == PAGE_MARK;
    assert PAGE_MARK[2] == 'P' && TOTAL_MARK[2] == 'T';
  }

  lemma {:induction false} DigitsHoldNoMark(digits: string)
    requires Decimal.AllDigits(digits)
    ensures !Includes(digits, PAGE_MARK)
  {
    assert PAGE_MARK[0] == '_';
    forall i | 0 <= i <= |digits| ensures !IncludedAt(digits, PAGE_MARK, i) {
      if i + |PAGE_MARK| <= |digits| { assert digits[i..i + |PAGE_MARK|][0] == digits[i]; }
    }
  }
}
