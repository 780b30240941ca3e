/**
 A reader that opens a PDF file the way sections 7.5.4 and 7.5.5 of ISO 32000-1 prescribe: from the end of the
 file to the cross-reference table, from there to each object by its byte offset, and from the document catalog
 through every reference to the content streams of the pages.
 */
module PdfReader {
  import opened Options
  import opened Decimal
  import opened PdfDocument

  // ---------- Tokens ----------

  predicate At(doc: string, p: nat, s: string) {
    p + |s| <= |doc| && doc[p..p + |s|] == s
  }

  function Expect(doc: string, p: nat, literal: string): Option<nat> {
    if At(doc, p, literal) then Some(p + |literal|) else None
  }

  function DigitRun(s: string): (n: nat)
    ensures n <= |s| && AllDigits(s[..n]) && (n < |s| ==> !IsDigit(s[n]))
  {
    if s == "" || !IsDigit(s[0]) then 0 else 1 + DigitRun(s[1..])
  }

  function ReadNat(doc: string, p: nat): Option<(nat, nat)> {
    if p > |doc| then None
    else
      var n := DigitRun(doc[p..]);
      if n == 0 then None else Some((Value(doc[p..][..n]), p + n))
  }

  function ReadReference(doc: string, p: nat): Option<(nat, nat)> {
    var (id, q) :- ReadNat(doc, p);
    var next :- Expect(doc, q, REF);
    Some((id, next))
  }

  // ---------- Structure ----------

  // The first entry of the cross-reference table, the number of entries, and the ID of the catalog.
  datatype Table = Table(entries: nat, size: nat, root: nat)

  const ENTRY_SIZE: nat := 20

  function ReadStartXref(doc: string): Option<nat> {
    if |doc| < |EOF| || doc[|doc| - |EOF|..] != EOF then None
    else
      var rest := doc[..|doc| - |EOF|];
      Some(Value(rest[|rest| - TrailingDigits(rest)..]))
  }

  function ReadTable(doc: string): Option<Table> {
    var start :- ReadStartXref(doc);
    var p :- Expect(doc, start, XREF_HEAD);
    var (size, q) :- ReadNat(doc, p);
    var entries :- Expect(doc, q, "\n");
    var free :- Expect(doc, entries, FREE_ENTRY);
    var t :- Expect(doc, entries + ENTRY_SIZE * size, TRAILER_HEAD);
    var (trailerSize, u) :- ReadNat(doc, t);
    var v :- Expect(doc, u, ROOT_HEAD);
    var (root, w) :- ReadReference(doc, v);
    var end :- Expect(doc, w, TRAILER_END);
    if trailerSize == size then Some(Table(entries, size, root)) else None
  }

  // The byte after "k 0 obj" of object k.
  function OpenObject(doc: string, t: Table, id: nat): Option<nat> {
    var entry := t.entries + ENTRY_SIZE * id;
    if !(0 < id < t.size) || entry + 10 > |doc| || !AllDigits(doc[entry..entry + 10]) then None
    else
      var tail :- Expect(doc, entry + 10, ENTRY_TAIL);
      Expect(doc, Value(doc[entry..entry + 10]), Print(id) + OBJECT_HEAD)
  }

  function ReadStream(doc: string, t: Table, id: nat): Option<string> {
    var p :- OpenObject(doc, t, id);
    var q :- Expect(doc, p, LENGTH_HEAD);
    var (length, u) :- ReadNat(doc, q);
    var v :- Expect(doc, u, STREAM_HEAD);
    var end :- Expect(doc, v + length, STREAM_END + OBJECT_END);
    if v + length <= |doc| then Some(doc[v..v + length]) else None
  }

  predicate IsFont(doc: string, t: Table, id: nat) {
    var p := OpenObject(doc, t, id);
    p.Some? && At(doc, p.value, FONT)
  }

  function ReadPage(doc: string, t: Table, tree: nat, id: nat): Option<string> {
    var p :- OpenObject(doc, t, id);
    var a :- Expect(doc, p, PAGE_HEAD);
    var (parent, b) :- ReadReference(doc, a);
    var c :- Expect(doc, b, RESOURCES);
    var (font1, d) :- ReadReference(doc, c);
    var e :- Expect(doc, d, SECOND_FONT);
    var (font2, f) :- ReadReference(doc, e);
    var g :- Expect(doc, f, CONTENTS);
    var (contents, h) :- ReadReference(doc, g);
    var end :- Expect(doc, h, LINE_DICT_END + OBJECT_END);
    if parent == tree && IsFont(doc, t, font1) && IsFont(doc, t, font2) then ReadStream(doc, t, contents) else None
  }

  // The references up to the closing bracket, and the position of that bracket.
  function ReadKids(doc: string, p: nat): Option<(seq<nat>, nat)>
    decreases |doc| - p
  {
    if At(doc, p, "]") then Some(([], p))
    else
      var (id, q) :- ReadReference(doc, p);
      if At(doc, q, " ") && q > p then
        var (ids, end) :- ReadKids(doc, q + 1);
        Some(([id] + ids, end))
      else Some(([id], q))
  }

  function ReadPages(doc: string, t: Table, tree: nat, ids: seq<nat>): Option<seq<string>> {
    if ids == [] then Some([])
    else
      var before :- ReadPages(doc, t, tree, ids[..|ids| - 1]);
      var page :- ReadPage(doc, t, tree, ids[|ids| - 1]);
      Some(before + [page])
  }

  function ReadCatalog(doc: string, t: Table): Option<nat> {
    var p :- OpenObject(doc, t, t.root);
    var q :- Expect(doc, p, CATALOG_HEAD);
    var (tree, u) :- ReadReference(doc, q);
    var end :- Expect(doc, u, DICT_END + OBJECT_END);
    Some(tree)
  }

  function ReadPageIds(doc: string, t: Table, tree: nat): Option<seq<nat>> {
    var p :- OpenObject(doc, t, tree);
    var q :- Expect(doc, p, KIDS_HEAD);
    var (ids, u) :- ReadKids(doc, q);
    var v :- Expect(doc, u, COUNT_HEAD);
    var (count, w) :- ReadNat(doc, v);
    var end :- Expect(doc, w, LINE_DICT_END + OBJECT_END);
    if count == |ids| then Some(ids) else None
  }

  // The content streams of the pages, in page order.
  function ReadDocument(doc: string): Option<seq<string>> {
    var t :- ReadTable(doc);
    var tree :- ReadCatalog(doc, t);
    var ids :- ReadPageIds(doc, t, tree);
    ReadPages(doc, t, tree, ids)
  }

  function AllLines(streams: seq<string>): seq<seq<string>> {
    seq(|streams|, i requires 0 <= i < |streams| => SplitLines(streams[i]))
  }

  // The commands of every page of a file.
  function ReadCommands(doc: string): Option<seq<seq<string>>> {
    var streams :- ReadDocument(doc);
    Some(AllLines(streams))
  }

  // ---------- Reading what was printed ----------

  lemma {:induction false} AtSplit(doc: string, p: nat, a: string, b: string)
    ensures At(doc, p, a + b) <==> At(doc, p, a) && At(doc, p + |a|, b)
  {
    if At(doc, p, a) && At(doc, p + |a|, b) {
      assert doc[p..p + |a + b|] == doc[p..p + |a|] + doc[p + |a|..p + |a| + |b|];
    }
    if At(doc, p, a + b) {
      assert doc[p..p + |a|] == (a + b)[..|a|];
      assert doc[p + |a|..p + |a| + |b|] == (a + b)[|a|..];
    }
  }

  lemma {:induction false} AtInside(doc: string, p: nat, s: string, i: nat, part: string)
    requires At(doc, p, s) && At(s, i, part)
    ensures At(doc, p + i, part)
  {
    forall k | 0 <= k < |part| ensures doc[p + i + k] == part[k] {
      assert doc[p + i + k] == doc[p..p + |s|][i + k];
      assert s[i + k] == s[i..i + |part|][k];
    }
  }

  lemma {:induction false} DigitRunOf(s: string, rest: string)
    requires AllDigits(s) && rest != "" && !IsDigit(rest[0])
    ensures DigitRun(s + rest) == |s|
  {
    if s == "" {
      assert s + rest == rest;
    } else {
      DigitRunOf(s[1..], rest);
      assert (s + rest)[1..] == s[1..] + rest;
    }
  }

  predicate Delimited(s: string) {
    s != "" && !IsDigit(s[0])
  }

  lemma Delimiters()
    ensures Delimited(REF) && Delimited("\n") && Delimited(ROOT_HEAD) && Delimited(STREAM_HEAD)
    ensures Delimited(LINE_DICT_END)
  {
  }

  // The tokens below are read back, whatever follows them.
  lemma {:induction false} Literal(doc: string, p: nat, literal: string, rest: string)
    requires At(doc, p, literal + rest)
    ensures Expect(doc, p, literal) == Some(p + |literal|) && At(doc, p + |literal|, rest)
  {
    AtSplit(doc, p, literal, rest);
  }

  lemma {:induction false} Number(doc: string, p: nat, n: nat, next: string, rest: string)
    requires At(doc, p, Print(n) + (next + rest)) && Delimited(next)
    ensures ReadNat(doc, p) == Some((n, p + |Print(n)|)) && At(doc, p + |Print(n)|, next + rest)
  {
    AtSplit(doc, p, Print(n), next + rest);
    var q := p + |Print(n)|;
    assert doc[p..] == Print(n) + doc[q..];
    assert doc[q] == doc[q..q + |next + rest|][0];
    DigitRunOf(Print(n), doc[q..]);
    assert doc[p..][..|Print(n)|] == Print(n);
    ValueOfPrint(n);
  }

  lemma {:induction false} Ref(doc: string, p: nat, id: nat, rest: string)
    requires At(doc, p, Reference(id) + rest)
    ensures ReadReference(doc, p) == Some((id, p + |Reference(id)|)) && At(doc, p + |Reference(id)|, rest)
  {
    Delimiters();
    assert Reference(id) + rest == Print(id) + (REF + rest);
    Number(doc, p, id, REF, rest);
    Literal(doc, p + |Print(id)|, REF, rest);
  }

  // ---------- Where the writer puts things ----------

  lemma {:induction false} JoinAt(texts: seq<string>, k: nat)
    requires k < |texts|
    ensures At(Join(texts), |Join(texts[..k])|, texts[k])
  {
    var init := texts[..|texts| - 1];
    if k < |init| {
      JoinAt(init, k);
      assert init[..k] == texts[..k];
      AtInside(Join(texts), 0, Join(init), |Join(texts[..k])|, texts[k]) by {
        assert Join(texts)[0..|Join(init)|] == Join(init);
      }
    }
  }

  lemma {:induction false} JoinPrefix(texts: seq<string>, k: nat)
    requires k <= |texts|
    ensures |Join(texts[..k])| <= |Join(texts)|
  {
    if k < |texts| {
      JoinPrefix(texts[..|texts| - 1], k);
      assert texts[..|texts| - 1][..k] == texts[..k];
    } else {
      assert texts[..k] == texts;
    }
  }

  predicate Small(objects: seq<string>) {
    |HEADER| + |Join(objects)| < Pow10(10)
  }

  // An entry of the cross-reference table is exactly 20 bytes long.
  lemma {:induction false} EntryIsTwentyBytes(objects: seq<string>, k: nat)
    requires Small(objects) && k <= |objects|
    ensures |Pad(Offset(objects, k), 10)| == 10 && Value(Pad(Offset(objects, k), 10)) == Offset(objects, k)
    ensures |Entry(Offset(objects, k))| == ENTRY_SIZE
  {
    JoinPrefix(objects, k);
    PadIsFixedWidth(Offset(objects, k), 10);
  }

  lemma {:induction false} EntriesAt(objects: seq<string>, n: nat, k: nat)
    requires Small(objects) && n <= |objects|
    ensures |Entries(objects, n)| == ENTRY_SIZE * n
    ensures k < n ==> At(Entries(objects, n), ENTRY_SIZE * k, Entry(Offset(objects, k)))
  {
    hide Entry, Small, Offset;
    if n > 0 {
      EntriesAt(objects, n - 1, k);
      EntryIsTwentyBytes(objects, n - 1);
      var entries := Entries(objects, n);
      assert entries[0..ENTRY_SIZE * (n - 1)] == Entries(objects, n - 1);
      if k < n - 1 {
        AtInside(entries, 0, Entries(objects, n - 1), ENTRY_SIZE * k, Entry(Offset(objects, k)));
      }
    }
  }

  // The place of the first cross-reference entry.
  function EntriesStart(objects: seq<string>): nat {
    Offset(objects, |objects|) + |XREF_HEAD| + |Print(|objects| + 1)| + 1
  }

  function TableOf(objects: seq<string>): Table {
    Table(EntriesStart(objects), |objects| + 1, 1)
  }

  ghost predicate Writes(doc: string, objects: seq<string>) {
    doc == HEADER + Join(objects) + Xref(objects)
  }

  lemma {:induction false} ObjectAt(doc: string, objects: seq<string>, k: nat)
    requires Writes(doc, objects) && k < |objects|
    ensures At(doc, Offset(objects, k), objects[k])
  {
    hide Xref;
    JoinAt(objects, k);
    AtSplit(doc, 0, HEADER, Join(objects) + Xref(objects));
    assert doc == HEADER + (Join(objects) + Xref(objects));
    AtSplit(doc, |HEADER|, Join(objects), Xref(objects));
    AtInside(doc, |HEADER|, Join(objects), |Join(objects[..k])|, objects[k]);
  }

  lemma {:induction false} XrefAt(doc: string, objects: seq<string>)
    requires Writes(doc, objects)
    ensures At(doc, Offset(objects, |objects|), Xref(objects))
    ensures |doc| == Offset(objects, |objects|) + |Xref(objects)|
  {
    hide Xref;
    assert objects[..|objects|] == objects;
    AtSplit(doc, 0, HEADER + Join(objects), Xref(objects));
  }

  // The trailer of a document with these objects.
  function TrailerOf(objects: seq<string>): string {
    Trailer(|objects| + 1, 1, Offset(objects, |objects|))
  }

  // The first byte after the cross-reference entries.
  function TrailerStart(objects: seq<string>): nat {
    EntriesStart(objects) + ENTRY_SIZE * (|objects| + 1)
  }

  lemma {:induction false} XrefParts(doc: string, objects: seq<string>)
    requires Writes(doc, objects) && Small(objects)
    ensures Expect(doc, Offset(objects, |objects|), XREF_HEAD) == Some(Offset(objects, |objects|) + |XREF_HEAD|)
    ensures ReadNat(doc, Offset(objects, |objects|) + |XREF_HEAD|)
         == Some((|objects| + 1, EntriesStart(objects) - 1))
    ensures Expect(doc, EntriesStart(objects) - 1, "\n") == Some(EntriesStart(objects))
    ensures Expect(doc, EntriesStart(objects), FREE_ENTRY).Some?
    ensures At(doc, EntriesStart(objects) + ENTRY_SIZE, Entries(objects, |objects|))
    ensures At(doc, TrailerStart(objects), TrailerOf(objects))
    ensures |doc| == TrailerStart(objects) + |TrailerOf(objects)|
  {
    hide Writes, Small, Offset, Print, Entries, Entry, At, Expect, ReadNat, XREF_HEAD, FREE_ENTRY, TrailerOf, Xref;
    XrefAt(doc, objects);
    EntriesAt(objects, |objects|, 0);
    Delimiters();
    FreeEntryLength();
    var x, n, entries := Offset(objects, |objects|), |objects| + 1, Entries(objects, |objects|);
    var a := FREE_ENTRY + (entries + TrailerOf(objects));
    XrefShape(objects);
    Literal(doc, x, XREF_HEAD, Print(n) + ("\n" + a));
    Number(doc, x + |XREF_HEAD|, n, "\n", a);
    Literal(doc, EntriesStart(objects) - 1, "\n", a);
    Literal(doc, EntriesStart(objects), FREE_ENTRY, entries + TrailerOf(objects));
    AtSplit(doc, EntriesStart(objects) + ENTRY_SIZE, entries, TrailerOf(objects));
  }

  lemma FreeEntryLength()
    ensures |FREE_ENTRY| == ENTRY_SIZE
  {
  }

  lemma {:induction false} XrefShape(objects: seq<string>)
    ensures Xref(objects)
         == XREF_HEAD
            + (Print(|objects| + 1) + ("\n" + (FREE_ENTRY + (Entries(objects, |objects|) + TrailerOf(objects)))))
  {
    hide XREF_HEAD, FREE_ENTRY, Entries, Print, Trailer;
  }

  lemma {:induction false} EndsPlain(front: string)
    ensures var head := front + TRAILER_END; head != "" && !IsDigit(head[|head| - 1])
  {
    var head := front + TRAILER_END;
    assert head[|head| - 1] == TRAILER_END[|TRAILER_END| - 1];
  }

  // A number before the end mark is read when no digit stands before it.
  lemma {:induction false} NumberAtEnd(doc: string, front: string, x: nat)
    requires doc == front + (Print(x) + EOF) && front != "" && !IsDigit(front[|front| - 1])
    ensures ReadStartXref(doc) == Some(x)
  {
    hide Print, EOF, IsDigit;
    assert doc[|doc| - |EOF|..] == EOF;
    assert doc[..|doc| - |EOF|] == front + Print(x);
    ValueOfPrint(x);
    TrailingDigitsOf(front, Print(x));
    assert (front + Print(x))[|front|..] == Print(x);
  }

  lemma {:induction false} TrailerAtEnd(doc: string, objects: seq<string>)
    requires Writes(doc, objects) && Small(objects)
    ensures At(doc, TrailerStart(objects), TrailerOf(objects))
    ensures |doc| == TrailerStart(objects) + |TrailerOf(objects)|
  {
    hide *;
    XrefParts(doc, objects);
  }

  // The offset after "startxref" is that of the cross-reference table.
  lemma {:induction false} StartXrefIsRight(doc: string, objects: seq<string>)
    requires Writes(doc, objects) && Small(objects)
    ensures ReadStartXref(doc) == Some(Offset(objects, |objects|))
  {
    hide Writes, Small, Offset, TRAILER_HEAD, ROOT_HEAD, Reference, Print, Expect, ReadNat, XREF_HEAD, FREE_ENTRY,
      TRAILER_END, EOF, ReadStartXref, IsDigit, TrailerStart, TrailerOf, At;
    TrailerAtEnd(doc, objects);
    var x, start := Offset(objects, |objects|), TrailerStart(objects);
    var front := TRAILER_HEAD + Print(|objects| + 1) + ROOT_HEAD + Reference(1);
    TrailerShape(objects, front);
    EndsPlain(doc[..start] + front);
    assert doc[..start] + (front + TRAILER_END) == doc[..start] + front + TRAILER_END;
    WholeFrom(doc, start, front + TRAILER_END, Print(x) + EOF);
    NumberAtEnd(doc, doc[..start] + front + TRAILER_END, x);
  }

  lemma {:induction false} TrailerShape(objects: seq<string>, front: string)
    requires front == TRAILER_HEAD + Print(|objects| + 1) + ROOT_HEAD + Reference(1)
    ensures TrailerOf(objects) == (front + TRAILER_END) + (Print(Offset(objects, |objects|)) + EOF)
  {
    hide TRAILER_HEAD, ROOT_HEAD, Reference, Print, TRAILER_END, EOF, Offset;
  }

  lemma {:induction false} WholeFrom(doc: string, start: nat, a: string, b: string)
    requires At(doc, start, a + b) && |doc| == start + |a + b|
    ensures doc == doc[..start] + a + b
  {
    assert doc == doc[..start] + doc[start..start + |a + b|];
  }

  lemma {:induction false} TrailerReads(doc: string, p: nat, size: nat, x: nat)
    requires At(doc, p, Trailer(size, 1, x))
    ensures var a, b := p + |TRAILER_HEAD|, p + |TRAILER_HEAD| + |Print(size)|;
            var c := b + |ROOT_HEAD|;
            && Expect(doc, p, TRAILER_HEAD) == Some(a)
            && ReadNat(doc, a) == Some((size, b))
            && Expect(doc, b, ROOT_HEAD) == Some(c)
            && ReadReference(doc, c) == Some((1, c + |Reference(1)|))
            && Expect(doc, c + |Reference(1)|, TRAILER_END).Some?
  {
    hide At, Expect, ReadNat, ReadReference, TRAILER_HEAD, ROOT_HEAD, TRAILER_END, EOF, Print, Reference;
    Delimiters();
    var t2 := TRAILER_END + (Print(x) + EOF);
    var t1 := Reference(1) + t2;
    assert Trailer(size, 1, x) == TRAILER_HEAD + (Print(size) + (ROOT_HEAD + t1));
    var a, b := p + |TRAILER_HEAD|, p + |TRAILER_HEAD| + |Print(size)|;
    Literal(doc, p, TRAILER_HEAD, Print(size) + (ROOT_HEAD + t1));
    Number(doc, a, size, ROOT_HEAD, t1);
    Literal(doc, b, ROOT_HEAD, t1);
    Ref(doc, b + |ROOT_HEAD|, 1, t2);
    Literal(doc, b + |ROOT_HEAD| + |Reference(1)|, TRAILER_END, Print(x) + EOF);
  }

  lemma {:induction false} TableIsRead(doc: string, objects: seq<string>)
    requires Writes(doc, objects) && Small(objects)
    ensures ReadTable(doc) == Some(TableOf(objects))
  {
    hide Writes, Small, Offset, Trailer, Print, ReadReference, ReadNat, At, ReadStartXref, Expect, Reference,
      XREF_HEAD, FREE_ENTRY, TRAILER_HEAD, ROOT_HEAD, TRAILER_END, EntriesStart;
    StartXrefIsRight(doc, objects);
    XrefParts(doc, objects);
    TrailerReads(doc, TrailerStart(objects), |objects| + 1, Offset(objects, |objects|));
  }

  lemma {:induction false} ObjectShape(id: nat, content: string)
    ensures ObjectText(id, content) == (Print(id) + OBJECT_HEAD) + (content + OBJECT_END)
  {
  }

  // Every cross-reference entry leads to the byte where its object starts.
  lemma {:induction false} EntryLeadsToObject(doc: string, objects: seq<string>, k: nat, content: string)
    requires Writes(doc, objects) && Small(objects) && k < |objects| && objects[k] == ObjectText(k + 1, content)
    ensures OpenObject(doc, TableOf(objects), k + 1)
         == Some(Offset(objects, k) + |Print(k + 1) + OBJECT_HEAD|)
    ensures At(doc, Offset(objects, k) + |Print(k + 1) + OBJECT_HEAD|, content + OBJECT_END)
  {
    hide Writes, Small, Offset, Print, Pad, XREF_HEAD, FREE_ENTRY, OBJECT_HEAD, OBJECT_END, EntriesStart, Entries,
      ObjectText, ENTRY_TAIL, TrailerOf, ReadNat;
    var head := Print(k + 1) + OBJECT_HEAD;
    ObjectAt(doc, objects, k);
    ObjectShape(k + 1, content);
    Literal(doc, Offset(objects, k), head, content + OBJECT_END);
    XrefParts(doc, objects);
    EntriesAt(objects, |objects|, k);
    var entry := EntriesStart(objects) + ENTRY_SIZE * (k + 1);
    AtInside(doc, EntriesStart(objects) + ENTRY_SIZE, Entries(objects, |objects|), ENTRY_SIZE * k,
             Entry(Offset(objects, k)));
    EntryIsTwentyBytes(objects, k);
    AtSplit(doc, entry, Pad(Offset(objects, k), 10), ENTRY_TAIL);
  }

  // ---------- The objects of a document ----------

  lemma {:induction false} PageObjectsAt(streams: seq<string>, i: nat)
    requires i < |streams|
    ensures |PageObjects(streams)| == 2 * |streams|
    ensures PageObjects(streams)[2 * i] == ObjectText(ContentId(i), StreamContent(streams[i]))
    ensures PageObjects(streams)[2 * i + 1] == ObjectText(PageId(i), PageContent(ContentId(i)))
  {
    hide ObjectText, StreamContent, PageContent;
    PageObjectsLength(streams);
    PageObjectsLength(streams[..|streams| - 1]);
    if i < |streams| - 1 { PageObjectsAt(streams[..|streams| - 1], i); }
  }

  lemma {:induction false} ObjectsAt(streams: seq<string>)
    ensures |Objects(streams)| == 4 + 2 * |streams|
    ensures Objects(streams)[0] == ObjectText(1, CatalogContent())
    ensures Objects(streams)[1] == ObjectText(2, PageTreeContent(PageIds(|streams|)))
    ensures Objects(streams)[2] == ObjectText(3, FONT + " >>")
    ensures Objects(streams)[3] == ObjectText(4, FONT + "-Bold >>")
    ensures forall i :: 0 <= i < |streams| ==>
              && Objects(streams)[4 + 2 * i] == ObjectText(ContentId(i), StreamContent(streams[i]))
              && Objects(streams)[5 + 2 * i] == ObjectText(PageId(i), PageContent(ContentId(i)))
  {
    hide ObjectText, StreamContent, PageContent, CatalogContent, PageTreeContent, FONT;
    PageObjectsLength(streams);
    forall i | 0 <= i < |streams|
      ensures && Objects(streams)[4 + 2 * i] == ObjectText(ContentId(i), StreamContent(streams[i]))
              && Objects(streams)[5 + 2 * i] == ObjectText(PageId(i), PageContent(ContentId(i)))
    {
      PageObjectsAt(streams, i);
      assert Objects(streams)[4 + 2 * i] == PageObjects(streams)[2 * i];
      assert Objects(streams)[5 + 2 * i] == PageObjects(streams)[2 * i + 1];
    }
  }

  ghost predicate IsDocument(doc: string, streams: seq<string>) {
    Writes(doc, Objects(streams)) && Small(Objects(streams))
  }

  function DocTable(streams: seq<string>): Table {
    TableOf(Objects(streams))
  }

  // A content stream is exactly the bytes that its /Length counts.
  lemma {:induction false} StreamIsRead(doc: string, streams: seq<string>, i: nat)
    requires IsDocument(doc, streams) && i < |streams|
    ensures ReadStream(doc, DocTable(streams), ContentId(i)) == Some(streams[i])
  {
    hide Writes, Small, Objects, TableOf, OpenObject, ReadNat, Expect, Print, Offset, ObjectText,
      LENGTH_HEAD, STREAM_HEAD, STREAM_END, OBJECT_END, OBJECT_HEAD;
    ObjectsAt(streams);
    Delimiters();
    var stream := streams[i];
    EntryLeadsToObject(doc, Objects(streams), 4 + 2 * i, StreamContent(stream));
    var p := OpenObject(doc, DocTable(streams), ContentId(i)).value;
    var t2 := stream + (STREAM_END + OBJECT_END);
    assert StreamContent(stream) + OBJECT_END == LENGTH_HEAD + (Print(|stream|) + (STREAM_HEAD + t2));
    Literal(doc, p, LENGTH_HEAD, Print(|stream|) + (STREAM_HEAD + t2));
    Number(doc, p + |LENGTH_HEAD|, |stream|, STREAM_HEAD, t2);
    var u := p + |LENGTH_HEAD| + |Print(|stream|)|;
    Literal(doc, u, STREAM_HEAD, t2);
    Literal(doc, u + |STREAM_HEAD|, stream, STREAM_END + OBJECT_END);
    assert STREAM_END + OBJECT_END == STREAM_END + OBJECT_END + "";
    Literal(doc, u + |STREAM_HEAD| + |stream|, STREAM_END + OBJECT_END, "");
    StreamBytes(doc, u + |STREAM_HEAD|, stream);
  }

  lemma {:induction false} StreamBytes(doc: string, p: nat, s: string)
    requires Expect(doc, p, s).Some?
    ensures p + |s| <= |doc| && doc[p..p + |s|] == s
  {
  }

  lemma {:induction false} FontsAreFonts(doc: string, streams: seq<string>)
    requires IsDocument(doc, streams)
    ensures IsFont(doc, DocTable(streams), 3) && IsFont(doc, DocTable(streams), 4)
  {
    hide Writes, Small, Objects, TableOf, OpenObject, Print, Offset, ObjectText, OBJECT_END, OBJECT_HEAD, FONT;
    ObjectsAt(streams);
    EntryLeadsToObject(doc, Objects(streams), 2, FONT + " >>");
    EntryLeadsToObject(doc, Objects(streams), 3, FONT + "-Bold >>");
    assert FONT + " >>" + OBJECT_END == FONT + (" >>" + OBJECT_END);
    assert FONT + "-Bold >>" + OBJECT_END == FONT + ("-Bold >>" + OBJECT_END);
    AtSplit(doc, OpenObject(doc, DocTable(streams), 3).value, FONT, " >>" + OBJECT_END);
    AtSplit(doc, OpenObject(doc, DocTable(streams), 4).value, FONT, "-Bold >>" + OBJECT_END);
  }

  lemma {:induction false} PageShape(contentId: nat)
    ensures PageContent(contentId) + OBJECT_END
         == PAGE_HEAD + (Reference(2) + (RESOURCES + (Reference(3) + (SECOND_FONT + (Reference(4)
            + (CONTENTS + (Reference(contentId) + (LINE_DICT_END + OBJECT_END))))))))
  {
    hide PAGE_HEAD, RESOURCES, SECOND_FONT, CONTENTS, LINE_DICT_END, OBJECT_END, Reference;
  }

  lemma {:induction false} PageOpens(doc: string, streams: seq<string>, i: nat)
    requires IsDocument(doc, streams) && i < |streams|
    ensures OpenObject(doc, DocTable(streams), PageId(i)).Some?
    ensures At(doc, OpenObject(doc, DocTable(streams), PageId(i)).value, PageContent(ContentId(i)) + OBJECT_END)
  {
    hide Writes, Small, Objects, TableOf, OpenObject, Offset, ObjectText, OBJECT_END, OBJECT_HEAD, Print, PageContent;
    ObjectsAt(streams);
    EntryLeadsToObject(doc, Objects(streams), 5 + 2 * i, PageContent(ContentId(i)));
  }

  // A reference and the text behind it are read one after the other.
  lemma {:induction false} RefThen(doc: string, p: nat, id: nat, text: string, rest: string) returns (q: nat, r: nat)
    requires At(doc, p, Reference(id) + (text + rest))
    ensures ReadReference(doc, p) == Some((id, q)) && Expect(doc, q, text) == Some(r) && At(doc, r, rest)
  {
    hide At, Expect, ReadReference, Reference;
    Ref(doc, p, id, text + rest);
    q := p + |Reference(id)|;
    Literal(doc, q, text, rest);
    r := q + |text|;
  }

  // A page object refers to the page tree, to both fonts and to its own content stream.
  lemma {:induction false} PageIsRead(doc: string, streams: seq<string>, i: nat)
    requires IsDocument(doc, streams) && i < |streams|
    ensures ReadPage(doc, DocTable(streams), 2, PageId(i)) == Some(streams[i])
  {
    hide IsDocument, DocTable, OpenObject, At, ReadReference, Expect, Reference, ReadStream, IsFont, PAGE_HEAD,
      RESOURCES, SECOND_FONT, CONTENTS, LINE_DICT_END, OBJECT_END, OBJECT_HEAD, Print, PageContent, PageId, ContentId;
    StreamIsRead(doc, streams, i);
    FontsAreFonts(doc, streams);
    PageOpens(doc, streams, i);
    var p, end := OpenObject(doc, DocTable(streams), PageId(i)).value, LINE_DICT_END + OBJECT_END;
    var t4 := Reference(ContentId(i)) + end;
    var t3 := Reference(4) + (CONTENTS + t4);
    var t2 := Reference(3) + (SECOND_FONT + t3);
    PageShape(ContentId(i));
    Literal(doc, p, PAGE_HEAD, Reference(2) + (RESOURCES + t2));
    var b, c := RefThen(doc, p + |PAGE_HEAD|, 2, RESOURCES, t2);
    var d, e := RefThen(doc, c, 3, SECOND_FONT, t3);
    var f, g := RefThen(doc, e, 4, CONTENTS, t4);
    assert end + "" == end;
    var h, last := RefThen(doc, g, ContentId(i), end, "");
  }

  lemma {:induction false} PagesAreRead(doc: string, streams: seq<string>, n: nat)
    requires IsDocument(doc, streams) && n <= |streams|
    ensures ReadPages(doc, DocTable(streams), 2, PageIds(n)) == Some(streams[..n])
  {
    hide IsDocument, ReadPage, DocTable;
    if n > 0 {
      PagesAreRead(doc, streams, n - 1);
      PageIsRead(doc, streams, n - 1);
      assert PageIds(n)[..n - 1] == PageIds(n - 1);
      assert streams[..n] == streams[..n - 1] + [streams[n - 1]];
    }
  }

  lemma {:induction false} KidsAreRead(doc: string, p: nat, ids: seq<nat>, rest: string)
    requires At(doc, p, References(ids) + ("]" + rest))
    ensures ReadKids(doc, p) == Some((ids, p + |References(ids)|)) && At(doc, p + |References(ids)|, "]" + rest)
    decreases |ids|
  {
    hide Reference, ReadReference, At, REF, Print;
    if ids == [] {
      assert References(ids) + ("]" + rest) == "]" + rest;
      AtSplit(doc, p, "]", rest);
    } else if |ids| == 1 {
      assert ids == [ids[0]];
      NotABracket(doc, p, ids[0], "]" + rest);
      Ref(doc, p, ids[0], "]" + rest);
      NoSpace(doc, p + |Reference(ids[0])|, rest);
    } else {
      assert ids == [ids[0]] + ids[1..];
      var tail := References(ids[1..]) + ("]" + rest);
      assert References(ids) + ("]" + rest) == Reference(ids[0]) + (" " + tail);
      NotABracket(doc, p, ids[0], " " + tail);
      Ref(doc, p, ids[0], " " + tail);
      AtSplit(doc, p + |Reference(ids[0])|, " ", tail);
      KidsAreRead(doc, p + |Reference(ids[0])| + 1, ids[1..], rest);
    }
  }

  lemma {:induction false} NotABracket(doc: string, p: nat, id: nat, rest: string)
    requires At(doc, p, Reference(id) + rest)
    ensures !At(doc, p, "]")
    ensures |Reference(id)| > 0
  {
    AtSplit(doc, p, Print(id), REF + rest);
    assert Reference(id) + rest == Print(id) + (REF + rest);
    assert doc[p] == doc[p..p + |Print(id)|][0];
    assert doc[p] == doc[p..p + 1][0];
  }

  lemma {:induction false} NoSpace(doc: string, p: nat, rest: string)
    requires At(doc, p, "]" + rest)
    ensures !At(doc, p, " ")
  {
    AtSplit(doc, p, "]", rest);
    assert doc[p..p + 1][0] == ']';
  }

  lemma {:induction false} PageIdsAreRead(doc: string, streams: seq<string>)
    requires IsDocument(doc, streams)
    ensures ReadPageIds(doc, DocTable(streams), 2) == Some(PageIds(|streams|))
  {
    hide Writes, Small, Objects, TableOf, OpenObject, ReadNat, Expect, Offset, ObjectText, References, ReadKids,
      KIDS_HEAD, COUNT_HEAD, LINE_DICT_END, OBJECT_END, OBJECT_HEAD, Print, PageTreeContent;
    ObjectsAt(streams);
    Delimiters();
    var ids := PageIds(|streams|);
    EntryLeadsToObject(doc, Objects(streams), 1, PageTreeContent(ids));
    var p := OpenObject(doc, DocTable(streams), 2).value;
    var end := LINE_DICT_END + OBJECT_END;
    var count := Print(|ids|) + (end + "");
    PageTreeShape(ids);
    Literal(doc, p, KIDS_HEAD, References(ids) + (COUNT_HEAD + count));
    CountStartsWithBracket(count);
    KidsAreRead(doc, p + |KIDS_HEAD|, ids, (COUNT_HEAD + count)[1..]);
    var u := p + |KIDS_HEAD| + |References(ids)|;
    Literal(doc, u, COUNT_HEAD, count);
    DelimitedEnd();
    Number(doc, u + |COUNT_HEAD|, |ids|, end, "");
    Literal(doc, u + |COUNT_HEAD| + |Print(|ids|)|, end, "");
  }

  lemma {:induction false} PageTreeShape(ids: seq<nat>)
    ensures PageTreeContent(ids) + OBJECT_END
         == KIDS_HEAD + (References(ids) + (COUNT_HEAD + (Print(|ids|) + (LINE_DICT_END + OBJECT_END + ""))))
  {
    hide References, KIDS_HEAD, COUNT_HEAD, LINE_DICT_END, OBJECT_END, Print;
  }

  lemma {:induction false} CountStartsWithBracket(count: string)
    ensures COUNT_HEAD + count == "]" + (COUNT_HEAD + count)[1..]
  {
  }

  lemma DelimitedEnd()
    ensures Delimited(LINE_DICT_END + OBJECT_END)
  {
  }

  lemma {:induction false} CatalogIsRead(doc: string, streams: seq<string>)
    requires IsDocument(doc, streams)
    ensures ReadCatalog(doc, DocTable(streams)) == Some(2)
  {
    hide Writes, Small, Objects, OpenObject, ReadReference, Expect, Offset, ObjectText, Reference, EntriesStart,
      CATALOG_HEAD, DICT_END, OBJECT_END, OBJECT_HEAD, Print;
    ObjectsAt(streams);
    EntryLeadsToObject(doc, Objects(streams), 0, CatalogContent());
    var p := OpenObject(doc, DocTable(streams), 1).value;
    var end := DICT_END + OBJECT_END;
    assert CatalogContent() + OBJECT_END == CATALOG_HEAD + (Reference(2) + (end + ""));
    Literal(doc, p, CATALOG_HEAD, Reference(2) + (end + ""));
    Ref(doc, p + |CATALOG_HEAD|, 2, end + "");
    Literal(doc, p + |CATALOG_HEAD| + |Reference(2)|, end, "");
  }

  // A written file, opened from its end, yields the content streams of its pages: the cross-reference table is
  // found, every offset and every reference leads to the right object, and every length is exact.
  lemma {:induction false} WrittenFileIsReadable(streams: seq<string>)
    requires |HEADER| + |Join(Objects(streams))| < Pow10(10)
    ensures ReadDocument(Document(streams)) == Some(streams)
  {
    hide Objects, Xref, Join, HEADER, ReadTable, ReadCatalog, ReadPageIds, ReadPages, PageIds, Pow10;
    var doc := Document(streams);
    assert IsDocument(doc, streams);
    TableIsRead(doc, Objects(streams));
    CatalogIsRead(doc, streams);
    PageIdsAreRead(doc, streams);
    PagesAreRead(doc, streams, |streams|);
    assert streams[..|streams|] == streams;
  }
  // The written file yields the commands of every page, in order, exactly when every page has commands and none of them
  // holds a line end.
  lemma {:induction false} CommandsAreRead(pages: seq<seq<string>>)
    requires TableStart(pages) < Pow10(10)
    ensures ReadCommands(File(pages)) == Some(pages)
       <==> forall i :: 0 <= i < |pages| ==> OnLines(pages[i])
  {
    hide ReadDocument, Document, Objects, Join, Lines, SplitLines, OnLines, Pow10;
    var streams := Streams(pages);
    WrittenFileIsReadable(streams);
    forall i | 0 <= i < |pages|
      ensures AllLines(streams)[i] == pages[i] <==> OnLines(pages[i])
    {
      LinesAreCommands(pages[i]);
    }
    assert AllLines(streams) == pages <==> forall i :: 0 <= i < |pages| ==> AllLines(streams)[i] == pages[i];
  }
}
