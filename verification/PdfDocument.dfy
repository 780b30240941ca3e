/**
 Writing the PDF file (`renderPdf`, `addObject`).  The text is Latin-1, so one character is one byte.

 The cross-reference table and the trailer follow sections 7.5.4 and 7.5.5 of ISO 32000-1.
 */
module PdfDocument {
  import opened Decimal

  const HEADER := "%PDF-1.4\n"
  const CATALOG_HEAD := "<< /Type /Catalog /Pages "
  const FONT := "<< /Type /Font /Subtype /Type1 /BaseFont /Helvetica"
  const KIDS_HEAD := "<< /Type /Pages\n/Kids ["
  const COUNT_HEAD := "]\n/Count "
  const PAGE_HEAD := "<< /Type /Page\n/Parent "
  const RESOURCES := "\n/MediaBox [0 0 595 842]\n/Resources << /Font << /F1 "
  const SECOND_FONT := " /F2 "
  const CONTENTS := " >> >>\n/Contents "
  const DICT_END := " >>"
  const LINE_DICT_END := "\n>>"
  const LENGTH_HEAD := "<< /Length "
  const STREAM_HEAD := " >>\nstream\n"
  const STREAM_END := "\nendstream"
  const OBJECT_HEAD := " 0 obj\n"
  const OBJECT_END := "\nendobj\n"
  const REF := " 0 R"
  const XREF_HEAD := "xref\n0 "
  const FREE_ENTRY := "0000000000 65535 f \n"
  const ENTRY_TAIL := " 00000 n \n"
  const TRAILER_HEAD := "trailer\n<< /Size "
  const ROOT_HEAD := " /Root "
  const TRAILER_END := " >>\nstartxref\n"
  const EOF := "\n%%EOF"

  function Lines(commands: seq<string>): string {
    if commands == [] then "" else if |commands| == 1 then commands[0] else commands[0] + "\n" + Lines(commands[1..])
  }

  function ObjectText(id: nat, content: string): string {
    Print(id) + OBJECT_HEAD + content + OBJECT_END
  }

  function StreamContent(stream: string): string {
    LENGTH_HEAD + Print(|stream|) + STREAM_HEAD + stream + STREAM_END
  }

  function Reference(id: nat): string {
    Print(id) + REF
  }

  function CatalogContent(): string {
    CATALOG_HEAD + Reference(2) + DICT_END
  }

  function PageContent(contentId: nat): string {
    PAGE_HEAD + Reference(2) + RESOURCES + Reference(3) + SECOND_FONT + Reference(4) + CONTENTS + Reference(contentId)
    + LINE_DICT_END
  }

  // The references to these objects between spaces.
  function References(ids: seq<nat>): string {
    if ids == [] then ""
    else if |ids| == 1 then Reference(ids[0])
    else Reference(ids[0]) + " " + References(ids[1..])
  }

  function PageTreeContent(pageIds: seq<nat>): string {
    KIDS_HEAD + References(pageIds) + COUNT_HEAD + Print(|pageIds|) + LINE_DICT_END
  }

  // ---------- The objects of a document with the given content streams ----------

  function ContentId(page: nat): nat { 5 + 2 * page }

  function PageId(page: nat): nat { 6 + 2 * page }

  function PageIds(n: nat): (ids: seq<nat>)
    ensures |ids| == n
  {
    seq(n, i requires 0 <= i < n => PageId(i))
  }

  function PageObjects(streams: seq<string>): seq<string> {
    if streams == [] then []
    else
      var page := |streams| - 1;
      PageObjects(streams[..page])
      + [ObjectText(ContentId(page), StreamContent(streams[page])),
         ObjectText(PageId(page), PageContent(ContentId(page)))]
  }

  function Objects(streams: seq<string>): seq<string> {
    [ObjectText(1, CatalogContent()), ObjectText(2, PageTreeContent(PageIds(|streams|))),
     ObjectText(3, FONT + " >>"), ObjectText(4, FONT + "-Bold >>")]
    + PageObjects(streams)
  }

  // ---------- The file ----------

  function Join(texts: seq<string>): string {
    if texts == [] then "" else Join(texts[..|texts| - 1]) + texts[|texts| - 1]
  }

  // The byte at which object k + 1 starts.
  function Offset(objects: seq<string>, k: nat): nat
    requires k <= |objects|
  {
    |HEADER| + |Join(objects[..k])|
  }

  function Entry(offset: nat): string {
    Pad(offset, 10) + ENTRY_TAIL
  }

  function Entries(objects: seq<string>, n: nat): string
    requires n <= |objects|
  {
    if n == 0 then "" else Entries(objects, n - 1) + Entry(Offset(objects, n - 1))
  }

  function Trailer(size: nat, root: nat, xrefOffset: nat): string {
    TRAILER_HEAD + Print(size) + ROOT_HEAD + Reference(root) + TRAILER_END + Print(xrefOffset) + EOF
  }

  function XrefHead(size: nat): string {
    XREF_HEAD + Print(size) + "\n" + FREE_ENTRY
  }

  function Xref(objects: seq<string>): string {
    XrefHead(|objects| + 1) + Entries(objects, |objects|)
    + Trailer(|objects| + 1, 1, Offset(objects, |objects|))
  }

  function Document(streams: seq<string>): string {
    var objects := Objects(streams);
    HEADER + Join(objects) + Xref(objects)
  }

  // The content streams of the pages: the commands of each page joined by line ends.
  function Streams(pages: seq<seq<string>>): (streams: seq<string>)
    ensures |streams| == |pages|
  {
    seq(|pages|, i requires 0 <= i < |pages| => Lines(pages[i]))
  }

  // The file of these pages.
  function File(pages: seq<seq<string>>): string {
    Document(Streams(pages))
  }

  // The byte at which its cross-reference table starts.
  function TableStart(pages: seq<seq<string>>): nat {
    |HEADER| + |Join(Objects(Streams(pages)))|
  }

  // ---------- The lines of a stream ----------

  // A text cut at every line end.
  function SplitLines(s: string): (lines: seq<string>)
    ensures lines != []
  {
    if s == "" then [""]
    else
      var rest := SplitLines(s[1..]);
      if s[0] == '\n' then [""] + rest else [[s[0]] + rest[0]] + rest[1..]
  }

  predicate OneLine(s: string) {
    '\n' !in s
  }

  // Some commands, each on one line.
  predicate OnLines(commands: seq<string>) {
    commands != [] && forall k :: 0 <= k < |commands| ==> OneLine(commands[k])
  }

  lemma {:induction false} SplitLineIsOne(s: string)
    ensures forall k :: 0 <= k < |SplitLines(s)| ==> OneLine(SplitLines(s)[k])
  {
    if s != "" { SplitLineIsOne(s[1..]); }
  }

  lemma {:induction false} SplitOne(s: string)
    requires OneLine(s)
    ensures SplitLines(s) == [s]
  {
    if s != "" {
      SplitOne(s[1..]);
      assert [s[0]] + s[1..] == s;
    }
  }

  lemma {:induction false} SplitNext(s: string, rest: string)
    requires OneLine(s)
    ensures SplitLines(s + "\n" + rest) == [s] + SplitLines(rest)
  {
    var text := s + "\n" + rest;
    if s == "" {
      assert text[1..] == rest;
    } else {
      SplitNext(s[1..], rest);
      assert text[1..] == s[1..] + "\n" + rest;
      assert [s[0]] + s[1..] == s;
    }
  }

  // The lines of a stream are its commands exactly when there are any and none of them holds a line end.
  lemma {:induction false} LinesAreCommands(commands: seq<string>)
    ensures SplitLines(Lines(commands)) == commands <==> OnLines(commands)
  {
    SplitLineIsOne(Lines(commands));
    if OnLines(commands) { LinesSplit(commands); }
  }

  lemma {:induction false} LinesSplit(commands: seq<string>)
    requires OnLines(commands)
    ensures SplitLines(Lines(commands)) == commands
  {
    hide SplitLines, OneLine;
    if |commands| == 1 {
      SplitOne(commands[0]);
    } else {
      LinesSplit(commands[1..]);
      SplitNext(commands[0], Lines(commands[1..]));
    }
  }

  // ---------- The fixed parts, letter by letter ----------

  lemma FixedObjects()
    ensures CatalogContent() == "<< /Type /Catalog /Pages 2 0 R >>"
    ensures FONT + " >>" == "<< /Type /Font /Subtype /Type1 /BaseFont /Helvetica >>"
    ensures FONT + "-Bold >>" == "<< /Type /Font /Subtype /Type1 /BaseFont /Helvetica-Bold >>"
  {
    SmallNumbers();
  }

  lemma SmallNumbers()
    ensures Print(2) == "2" && Print(3) == "3" && Print(4) == "4"
  {
  }

  lemma {:induction false} PageText(contentId: nat)
    ensures PageContent(contentId)
         == "<< /Type /Page\n/Parent 2 0 R" + "\n/MediaBox [0 0 595 842]\n/Resources << /Font << /F1 3 0 R"
            + " /F2 4 0 R" + " >> >>\n/Contents " + Print(contentId) + " 0 R\n>>"
  {
    hide Print, PAGE_HEAD, RESOURCES, SECOND_FONT, CONTENTS, LINE_DICT_END, REF;
    PageParent();
    PageFirstFont();
    PageSecondFont();
    var head := PAGE_HEAD + Reference(2) + (RESOURCES + Reference(3)) + (SECOND_FONT + Reference(4)) + CONTENTS;
    assert PageContent(contentId) == head + Print(contentId) + (REF + LINE_DICT_END);
  }

  lemma PageParent()
    ensures PAGE_HEAD + Reference(2) == "<< /Type /Page\n/Parent 2 0 R"
    ensures REF + LINE_DICT_END == " 0 R\n>>"
  {
    SmallNumbers();
  }

  lemma PageFirstFont()
    ensures RESOURCES + Reference(3) == "\n/MediaBox [0 0 595 842]\n/Resources << /Font << /F1 3 0 R"
  {
    SmallNumbers();
  }

  lemma PageSecondFont()
    ensures SECOND_FONT + Reference(4) == " /F2 4 0 R" && CONTENTS == " >> >>\n/Contents "
  {
    SmallNumbers();
  }

  // Every file begins with its version.
  lemma {:induction false} FileStarts(pages: seq<seq<string>>)
    ensures "%PDF-1.4\n" <= File(pages)
  {
    hide Objects, Xref, Join;
  }

  // The other parts of a file with one page, as they are written.
  lemma SampleObject()
    ensures ObjectText(3, "x") == "3 0 obj\nx" + "\nendobj\n"
  {
    SmallNumbers();
  }

  lemma SampleTable()
    ensures XrefHead(7) == "xref\n0 7" + "\n" + "0000000000 65535 f \n"
  {
    assert Print(7) == "7";
  }

  lemma SampleEntry()
    ensures Entry(9) == "0000000009 00000 n \n"
  {
    assert Print(9) == "9";
    assert Zeros(9) == "000000000";
    assert Pad(9, 10) == "0000000009";
  }

  lemma SampleTrailer()
    ensures Trailer(7, 1, 9) == "trailer\n<< /Size 7" + " /Root 1 0 R" + " >>\nstartxref\n9" + "\n%%EOF"
  {
    assert Print(1) == "1" && Print(7) == "7" && Print(9) == "9";
  }

  lemma SamplePageTree()
    ensures PageTreeContent([6, 8]) == "<< /Type /Pages\n/Kids [" + "6 0 R 8 0 R" + "]\n/Count 2" + "\n>>"
  {
    assert Print(6) == "6" && Print(8) == "8" && Print(2) == "2";
    assert Reference(6) == "6 0 R" && Reference(8) == "8 0 R";
    assert [6, 8][1..] == [8];
    assert References([8]) == Reference(8);
    assert References([6, 8]) == "6 0 R 8 0 R";
  }

  lemma {:induction false} StreamText(stream: string)
    ensures StreamContent(stream) == "<< /Length " + Print(|stream|) + " >>\nstream\n" + stream + "\nendstream"
  {
  }

  // ---------- The writer ----------

  lemma {:induction false} PageObjectsLength(streams: seq<string>)
    ensures |PageObjects(streams)| == 2 * |streams|
  {
    if streams != [] { PageObjectsLength(streams[..|streams| - 1]); }
  }

  lemma {:induction false} PageObjectsSnoc(streams: seq<string>, stream: string)
    ensures PageObjects(streams + [stream])
         == PageObjects(streams)
            + [ObjectText(ContentId(|streams|), StreamContent(stream)),
               ObjectText(PageId(|streams|), PageContent(ContentId(|streams|)))]
  {
  }

  // The ID of an object is its position in the list.
  method AddObject(objects: seq<string>, content: string) returns (added: seq<string>, id: nat)
    ensures id == |objects| + 1
    ensures added == objects + [ObjectText(id, content)]
  {
    id := |objects| + 1;
    added := objects + [ObjectText(id, content)];
  }

  lemma {:induction false} ObjectsStart(streams: seq<string>)
    ensures [ObjectText(1, CatalogContent()), ObjectText(2, PageTreeContent(PageIds(|streams|))),
             ObjectText(3, FONT + " >>"), ObjectText(4, FONT + "-Bold >>")] + PageObjects(streams) == Objects(streams)
  {
  }

  lemma {:induction false} StreamsAre(pages: seq<seq<string>>)
    ensures forall i :: 0 <= i < |pages| ==> Streams(pages)[i] == Lines(pages[i])
    ensures PageObjects(Streams(pages)[..0]) == []
  {
  }

  method CollectObjects(pages: seq<seq<string>>) returns (objects: seq<string>, catalogId: nat)
    ensures objects == Objects(Streams(pages)) && catalogId == 1
  {
    hide ObjectText, Objects, CatalogContent, FONT, StreamContent, PageContent, PageTreeContent, Print, Lines, Streams,
      PageObjects;
    var id;
    StreamsAre(pages);
    objects := [];
    objects, catalogId := AddObject(objects, CatalogContent());
    objects, id := AddObject(objects, "");
    objects, id := AddObject(objects, FONT + " >>");
    objects, id := AddObject(objects, FONT + "-Bold >>");
    ghost var first := objects;
    var pageIds: seq<nat> := [];
    var streams := Streams(pages);
    for i := 0 to |pages|
      invariant |pageIds| == i && forall k :: 0 <= k < i ==> pageIds[k] == PageId(k)
      invariant objects == first + PageObjects(streams[..i])
      invariant |PageObjects(streams[..i])| == 2 * i
    {
      var contentId, pageId;
      ghost var before := objects;
      PageObjectsSnoc(streams[..i], streams[i]);
      assert streams[..i + 1] == streams[..i] + [streams[i]];
      objects, contentId := AddObject(objects, StreamContent(Lines(pages[i])));
      objects, pageId := AddObject(objects, PageContent(contentId));
      pageIds := pageIds + [pageId];
      assert objects == before + [ObjectText(ContentId(i), StreamContent(streams[i])),
                                  ObjectText(PageId(i), PageContent(ContentId(i)))];
    }
    assert streams[..|pages|] == streams;
    assert pageIds == PageIds(|pages|);
    ObjectsStart(streams);
    objects := objects[1 := ObjectText(2, PageTreeContent(pageIds))];
  }

  method WriteBody(objects: seq<string>) returns (body: string, offsets: seq<nat>)
    ensures body == Join(objects)
    ensures |offsets| == |objects| && forall k :: 0 <= k < |objects| ==> offsets[k] == Offset(objects, k)
  {
    hide HEADER;
    body, offsets := "", [];
    for i := 0 to |objects|
      invariant body == Join(objects[..i])
      invariant |offsets| == i && forall k :: 0 <= k < i ==> offsets[k] == Offset(objects, k)
    {
      offsets := offsets + [|HEADER + body|];
      assert objects[..i + 1][..i] == objects[..i];
      body := body + objects[i];
    }
    assert objects[..|objects|] == objects;
  }

  method RenderPdf(pages: seq<seq<string>>) returns (pdf: string)
    ensures pdf == File(pages)
  {
    hide HEADER, Objects, XrefHead, Trailer, Entry;
    var objects, catalogId := CollectObjects(pages);
    var body, offsets := WriteBody(objects);
    var xrefOffset := |HEADER + body|;
    assert objects[..|objects|] == objects;
    var xref := XrefHead(|objects| + 1);
    for i := 0 to |offsets|
      invariant xref == XrefHead(|objects| + 1) + Entries(objects, i)
    {
      xref := xref + Entry(offsets[i]);
    }
    xref := xref + Trailer(|objects| + 1, catalogId, xrefOffset);
    pdf := HEADER + body + xref;
  }
}
