/**
 * The outline builder of `extractor_optimized.py`: the title of the first page,
 * then every line of every page, in page, block and line order, that the
 * classifier calls a heading and whose text was not emitted before.
 *
 * The specification is a fold `Emit` over the document's lines in scan order;
 * `ExtractOutline` is the nested loop of the code, proved to compute it.
 */
module Outline {
  import opened Wrappers
  import opened Text
  import opened Layout
  import opened Heading
  import opened Title

  /** One outline entry; `page` is 1-based. */
  datatype Entry = Entry(level: Level, text: string, page: int)

  datatype Result = Result(title: string, outline: seq<Entry>)

  /** What opening the file gives: its pages, or a failure (any exception raised
      while opening or reading it). */
  datatype PdfRead = ReadError | Read(pages: seq<Page>)

  /** A line of the document together with the 0-based index of its page. */
  datatype Item = Item(pageIndex: nat, line: Line)

  /** The lines of one page, tagged with its index. */
  function Tag(p: nat, lines: seq<Line>): seq<Item> {
    if lines == [] then []
    else Tag(p, lines[..|lines| - 1]) + [Item(p, lines[|lines| - 1])]
  }

  /** Every line of the document in the order the loops visit them. */
  function ScanOrder(pages: seq<Page>): seq<Item> {
    if pages == [] then []
    else ScanOrder(pages[..|pages| - 1]) + Tag(|pages| - 1, PageLines(pages[|pages| - 1]))
  }

  /** A heading classifier: text, font size, bold, 0-based page index and y to a
      level. The builder is stated for any classifier and used with `Classify`. */
  type Classifier = (string, real, bool, int, real) -> Option<Level>

  /** The classifier applied to a line: its text, largest span size, whether some
      span is bold, the 0-based page index and its y. */
  function LevelOf(it: Item, classify: Classifier): Option<Level> {
    classify(LineText(it.line), MaxSize(it.line.spans), IsBold(it.line.spans), it.pageIndex, it.line.y)
  }

  /** The texts of the entries: `seen_headings`. */
  function Texts(es: seq<Entry>): set<string> {
    if es == [] then {} else Texts(es[..|es| - 1]) + {es[|es| - 1].text}
  }

  /** A line is added to the outline built so far when its text is not empty, was
      not added before, and the classifier gives it a level. */
  predicate Adds(out: seq<Entry>, it: Item, classify: Classifier) {
    var t := LineText(it.line);
    t != "" && t !in Texts(out) && LevelOf(it, classify).Some?
  }

  /** The entry of a line that has a level; its page is the 1-based page number. */
  function EntryOf(it: Item, classify: Classifier): Entry
    requires LevelOf(it, classify).Some?
  {
    Entry(LevelOf(it, classify).value, LineText(it.line), it.pageIndex + 1)
  }

  /** One step of the loop body: the entry a line adds to the outline, if any. */
  function EmitOne(out: seq<Entry>, it: Item, classify: Classifier): seq<Entry> {
    if Adds(out, it, classify) then out + [EntryOf(it, classify)] else out
  }

  /** The outline built from these lines, starting from the outline `out`. */
  function EmitFrom(out: seq<Entry>, items: seq<Item>, classify: Classifier): seq<Entry> {
    if items == [] then out
    else EmitOne(EmitFrom(out, items[..|items| - 1], classify), items[|items| - 1], classify)
  }

  /** The outline built from these lines, starting from an empty outline. */
  function Emit(items: seq<Item>, classify: Classifier): seq<Entry> {
    EmitFrom([], items, classify)
  }

  /** `extract_outline(pdf_path)`, as a function of what opening the file gives. */
  function OutlineOf(doc: PdfRead): Result {
    match doc
    case ReadError => Result("", [])
    case Read(pages) =>
      Result(if |pages| > 0 then TitleOf(PageLines(pages[0])) else "", Emit(ScanOrder(pages), Classify))
  }

  /** `extract_outline(pdf_path)` */
  method ExtractOutline(doc: PdfRead) returns (r: Result)
    ensures r == OutlineOf(doc)
  {
    match doc
    case ReadError =>
      r := Result("", []);
    case Read(pages) =>
      var outline: seq<Entry> := [];
      var title := "";
      var seen: set<string> := {};
      if |pages| > 0 {
        title := ExtractTitle(pages[0]);
      }
      for p := 0 to |pages|
        invariant outline == Emit(ScanOrder(pages[..p]), Classify)
        invariant seen == Texts(outline)
      {
        assert pages[..p + 1][..p] == pages[..p];
        EmitFromAppend([], ScanOrder(pages[..p]), Tag(p, PageLines(pages[p])), Classify);
        outline, seen := ScanPage(p, pages[p], Classify, outline, seen);
      }
      assert pages[..|pages|] == pages;
      r := Result(title, outline);
  }

  /** The loop over the blocks of one page; image blocks are skipped. */
  method ScanPage(p: nat, page: Page, classify: Classifier, outline0: seq<Entry>, seen0: set<string>)
    returns (outline: seq<Entry>, seen: set<string>)
    requires seen0 == Texts(outline0)
    ensures outline == EmitFrom(outline0, Tag(p, PageLines(page)), classify)
    ensures seen == Texts(outline)
  {
    outline, seen := outline0, seen0;
    for b := 0 to |page|
      invariant outline == EmitFrom(outline0, Tag(p, PageLines(page[..b])), classify)
      invariant seen == Texts(outline)
    {
      PageLinesStep(page, b);
      TagAppend(p, PageLines(page[..b]), BlockLines(page[b]));
      EmitFromAppend(outline0, Tag(p, PageLines(page[..b])), Tag(p, BlockLines(page[b])), classify);
      if page[b].TextBlock? {
        outline, seen := ScanLines(p, page[b].lines, classify, outline, seen);
      }
    }
    assert page[..|page|] == page;
  }

  /** The loop over the lines of one block. */
  method ScanLines(p: nat, lines: seq<Line>, classify: Classifier, outline0: seq<Entry>, seen0: set<string>)
    returns (outline: seq<Entry>, seen: set<string>)
    requires seen0 == Texts(outline0)
    ensures outline == EmitFrom(outline0, Tag(p, lines), classify)
    ensures seen == Texts(outline)
  {
    outline, seen := outline0, seen0;
    for l := 0 to |lines|
      invariant outline == EmitFrom(outline0, Tag(p, lines[..l]), classify)
      invariant seen == Texts(outline)
    {
      var line := lines[l];
      ghost var it := Item(p, line);
      TagStep(outline0, p, lines, l, classify);
      var text := LineText(line);
      if text != "" && text !in seen {
        var size := MaxSize(line.spans);
        var bold := IsBold(line.spans);
        var level := classify(text, size, bold, p, line.y);
        assert level == LevelOf(it, classify);
        if level.Some? {
          assert Adds(outline, it, classify);
          TextsAppend(outline, Entry(level.value, text, p + 1));
          outline := outline + [Entry(level.value, text, p + 1)];
          seen := seen + {text};
        } else {
          assert !Adds(outline, it, classify);
        }
      } else {
        assert !Adds(outline, it, classify);
      }
    }
    assert lines[..|lines|] == lines;
  }

  lemma TagStep(out: seq<Entry>, p: nat, lines: seq<Line>, l: nat, classify: Classifier)
    requires l < |lines|
    ensures EmitFrom(out, Tag(p, lines[..l + 1]), classify) ==
            EmitOne(EmitFrom(out, Tag(p, lines[..l]), classify), Item(p, lines[l]), classify)
  {
    assert lines[..l + 1][..l] == lines[..l];
  }

  lemma {:induction false} EmitFromAppend(out: seq<Entry>, a: seq<Item>, b: seq<Item>, classify: Classifier)
    ensures EmitFrom(out, a + b, classify) == EmitFrom(EmitFrom(out, a, classify), b, classify)
    decreases |b|
  {
    if b == [] {
      assert a + b == a;
    } else {
      var init := b[..|b| - 1];
      EmitFromAppend(out, a, init, classify);
      assert (a + b)[..|a + b| - 1] == a + init;
      assert (a + b)[|a + b| - 1] == b[|b| - 1];
    }
  }

  lemma TextsAppend(es: seq<Entry>, e: Entry)
    ensures Texts(es + [e]) == Texts(es) + {e.text}
  {
    assert (es + [e])[..|es|] == es;
  }

  lemma {:induction false} TagAppend(p: nat, a: seq<Line>, b: seq<Line>)
    ensures Tag(p, a + b) == Tag(p, a) + Tag(p, b)
    decreases |b|
  {
    if b == [] {
      assert a + b == a;
    } else {
      var init := b[..|b| - 1];
      TagAppend(p, a, init);
      var last := Item(p, b[|b| - 1]);
      assert (a + b)[..|a + b| - 1] == a + init;
      assert (a + b)[|a + b| - 1] == b[|b| - 1];
      assert Tag(p, a + b) == Tag(p, a + init) + [last];
      assert Tag(p, b) == Tag(p, init) + [last];
      assert Tag(p, a) + Tag(p, init) + [last] == Tag(p, a) + (Tag(p, init) + [last]);
    }
  }

  /** A text is in `Texts(es)` exactly when some entry has it. */
  lemma {:induction false} TextsMembers(es: seq<Entry>, t: string)
    ensures t in Texts(es) <==> exists i :: 0 <= i < |es| && es[i].text == t
  {
    if es != [] {
      var init := es[..|es| - 1];
      TextsMembers(init, t);
      if t in Texts(init) {
        var i :| 0 <= i < |init| && init[i].text == t;
        assert es[i].text == t;
      }
      if exists i :: 0 <= i < |es| && es[i].text == t {
        var i :| 0 <= i < |es| && es[i].text == t;
        if i < |init| { assert init[i].text == t; }
      }
    }
  }

  /** The texts of the outline are pairwise distinct. */
  lemma {:induction false} EmitDistinct(items: seq<Item>, classify: Classifier)
    ensures forall i, j :: 0 <= i < j < |Emit(items, classify)| ==>
              Emit(items, classify)[i].text != Emit(items, classify)[j].text
  {
    if items != [] {
      var init := items[..|items| - 1];
      var it := items[|items| - 1];
      var prev := Emit(init, classify);
      EmitDistinct(init, classify);
      if Adds(prev, it, classify) {
        var r := prev + [EntryOf(it, classify)];
        forall i, j | 0 <= i < j < |r| ensures r[i].text != r[j].text {
          if j == |prev| {
            TextsMembers(prev, LineText(it.line));
            assert r[i] == prev[i];
          }
        }
      }
    }
  }

  /** The positions of the lines that produced the entries, in order. */
  ghost function Sources(items: seq<Item>, classify: Classifier): seq<nat> {
    if items == [] then []
    else
      var init := items[..|items| - 1];
      var src := Sources(init, classify);
      if Adds(Emit(init, classify), items[|items| - 1], classify) then src + [|items| - 1] else src
  }

  /** The lines scanned before position `i` are the same in a longer scan. */
  lemma EmitPrefix(items: seq<Item>, i: nat, classify: Classifier)
    requires i < |items|
    ensures Emit(items[..|items| - 1][..i], classify) == Emit(items[..i], classify)
  {
    assert items[..|items| - 1][..i] == items[..i];
  }

  lemma SourcesStep(items: seq<Item>, classify: Classifier)
    requires items != []
    ensures var n := |items| - 1;
      && Sources(items, classify) ==
           Sources(items[..n], classify) + (if Adds(Emit(items[..n], classify), items[n], classify) then [n] else [])
      && Emit(items, classify) == EmitOne(Emit(items[..n], classify), items[n], classify)
  {
  }

  /** Entry `k` of the outline is the entry of line `Sources[k]`. */
  lemma {:induction false} SourcesMatch(items: seq<Item>, classify: Classifier)
    ensures |Sources(items, classify)| == |Emit(items, classify)|
    ensures forall k :: 0 <= k < |Sources(items, classify)| ==>
              && Sources(items, classify)[k] < |items|
              && LevelOf(items[Sources(items, classify)[k]], classify).Some?
              && Emit(items, classify)[k] == EntryOf(items[Sources(items, classify)[k]], classify)
  {
    if items != [] {
      var n := |items| - 1;
      var init := items[..n];
      SourcesMatch(init, classify);
      SourcesStep(items, classify);
      var src0 := Sources(init, classify);
      assert forall k :: 0 <= k < |src0| ==> items[src0[k]] == init[src0[k]];
    }
  }

  /** Line `Sources[k]` was added at its turn of the scan. */
  lemma {:induction false} SourcesAdded(items: seq<Item>, classify: Classifier)
    ensures forall k :: 0 <= k < |Sources(items, classify)| ==>
              && Sources(items, classify)[k] < |items|
              && Adds(Emit(items[..Sources(items, classify)[k]], classify), items[Sources(items, classify)[k]], classify)
  {
    if items != [] {
      var n := |items| - 1;
      var init := items[..n];
      SourcesAdded(init, classify);
      SourcesStep(items, classify);
      var src0 := Sources(init, classify);
      forall k | 0 <= k < |src0|
        ensures Emit(items[..src0[k]], classify) == Emit(init[..src0[k]], classify)
        ensures items[src0[k]] == init[src0[k]]
      {
        EmitPrefix(items, src0[k], classify);
      }
    }
  }

  /** Entries keep the order of their lines. */
  lemma {:induction false} SourcesIncreasing(items: seq<Item>, classify: Classifier)
    ensures forall k :: 0 <= k < |Sources(items, classify)| ==> Sources(items, classify)[k] < |items|
    ensures forall k, k' :: 0 <= k < k' < |Sources(items, classify)| ==>
              Sources(items, classify)[k] < Sources(items, classify)[k']
  {
    if items != [] {
      SourcesIncreasing(items[..|items| - 1], classify);
      SourcesStep(items, classify);
    }
  }

  /** A line produces an entry exactly when its text is non-empty, no entry emitted
      before it has the same text, and it classifies to a level. */
  lemma SourcesComplete(items: seq<Item>, classify: Classifier)
    ensures forall i :: 0 <= i < |items| ==>
              (i in Sources(items, classify) <==> Adds(Emit(items[..i], classify), items[i], classify))
  {
    forall i | 0 <= i < |items|
      ensures i in Sources(items, classify) <==> Adds(Emit(items[..i], classify), items[i], classify)
    {
      SourcesAt(items, i, classify);
    }
  }

  lemma {:induction false} SourcesAt(items: seq<Item>, i: nat, classify: Classifier)
    requires i < |items|
    ensures i in Sources(items, classify) <==> Adds(Emit(items[..i], classify), items[i], classify)
    decreases |items|
  {
    var n := |items| - 1;
    var init := items[..n];
    SourcesBelow(init, classify);
    assert n !in Sources(init, classify);
    var added := Adds(Emit(init, classify), items[n], classify);
    assert Sources(items, classify) == Sources(init, classify) + (if added then [n] else []);
    if i < n {
      SourcesAt(init, i, classify);
      EmitPrefix(items, i, classify);
      assert items[i] == init[i];
    } else {
      assert items[..i] == init;
    }
  }

  lemma {:induction false} SourcesBelow(items: seq<Item>, classify: Classifier)
    ensures forall k :: k in Sources(items, classify) ==> k < |items|
  {
    if items != [] {
      SourcesBelow(items[..|items| - 1], classify);
    }
  }

  /** Every line of the scan carries a page index below the page count, and the
      indices never decrease along the scan. */
  lemma {:induction false} ScanOrderPages(pages: seq<Page>)
    ensures forall i :: 0 <= i < |ScanOrder(pages)| ==> ScanOrder(pages)[i].pageIndex < |pages|
    ensures forall i, j :: 0 <= i <= j < |ScanOrder(pages)| ==>
              ScanOrder(pages)[i].pageIndex <= ScanOrder(pages)[j].pageIndex
  {
    if pages != [] {
      var n := |pages| - 1;
      ScanOrderPages(pages[..n]);
      TagPages(n, PageLines(pages[n]));
      var a: seq<Item> := ScanOrder(pages[..n]);
      var t: seq<Item> := Tag(n, PageLines(pages[n]));
      assert ScanOrder(pages) == a + t;
      forall i: int | 0 <= i < |a + t| ensures (a + t)[i].pageIndex < |pages| {
        if i < |a| {
          assert (a + t)[i] == a[i];
        } else {
          assert (a + t)[i] == t[i - |a|];
        }
      }
      forall i: int, j: int | 0 <= i <= j < |a + t|
        ensures (a + t)[i].pageIndex <= (a + t)[j].pageIndex
      {
        if j < |a| {
          assert (a + t)[i] == a[i] && (a + t)[j] == a[j];
        } else if i < |a| {
          assert (a + t)[i] == a[i] && a[i].pageIndex < n;
          assert (a + t)[j] == t[j - |a|] && t[j - |a|].pageIndex == n;
        } else {
          assert (a + t)[i] == t[i - |a|] && (a + t)[j] == t[j - |a|];
        }
      }
    }
  }

  lemma {:induction false} TagPages(p: nat, lines: seq<Line>)
    ensures |Tag(p, lines)| == |lines|
    ensures forall i :: 0 <= i < |lines| ==> Tag(p, lines)[i] == Item(p, lines[i])
  {
    if lines != [] {
      var init := lines[..|lines| - 1];
      TagPages(p, init);
      assert forall i :: 0 <= i < |init| ==> init[i] == lines[i];
    }
  }

  /** Every entry of the outline of a document that opens has a page in
      [1, page count], and entries are in non-decreasing page order. */
  lemma OutlinePages(pages: seq<Page>, classify: Classifier)
    ensures forall k :: 0 <= k < |Emit(ScanOrder(pages), classify)| ==>
              1 <= Emit(ScanOrder(pages), classify)[k].page <= |pages|
    ensures forall k, k' :: 0 <= k <= k' < |Emit(ScanOrder(pages), classify)| ==>
              Emit(ScanOrder(pages), classify)[k].page <= Emit(ScanOrder(pages), classify)[k'].page
  {
    var items := ScanOrder(pages);
    var r := Emit(items, classify);
    SourcesMatch(items, classify);
    SourcesIncreasing(items, classify);
    ScanOrderPages(pages);
    var src := Sources(items, classify);
    assert forall k :: 0 <= k < |r| ==> r[k].page == items[src[k]].pageIndex + 1;
    PagesFromSources(r, items, src, |pages|);
  }

  /** Entries taken in increasing order from lines whose page indices are below
      `n` and never decrease have pages in [1, n] that never decrease. */
  lemma PagesFromSources(r: seq<Entry>, items: seq<Item>, src: seq<nat>, n: nat)
    requires |src| == |r|
    requires forall k :: 0 <= k < |r| ==> src[k] < |items| && r[k].page == items[src[k]].pageIndex + 1
    requires forall k, k' :: 0 <= k < k' < |src| ==> src[k] < src[k']
    requires forall i :: 0 <= i < |items| ==> items[i].pageIndex < n
    requires forall i, j :: 0 <= i <= j < |items| ==> items[i].pageIndex <= items[j].pageIndex
    ensures forall k :: 0 <= k < |r| ==> 1 <= r[k].page <= n
    ensures forall k, k' :: 0 <= k <= k' < |r| ==> r[k].page <= r[k'].page
  {
    forall k, k' | 0 <= k <= k' < |r| ensures r[k].page <= r[k'].page {
      assert src[k] <= src[k'];
    }
  }

  /** `e` records line `it`: its non-empty text, its level and its 1-based page. */
  predicate IsEntryFor(e: Entry, it: Item, classify: Classifier) {
    e.text == LineText(it.line) != "" && e.page == it.pageIndex + 1 &&
    LevelOf(it, classify) == Some(e.level)
  }

  /** Every entry of the outline is a line of the document with a non-empty text,
      with the classifier's level for that line (with its 0-based page index) and
      that index plus one as page. */
  lemma OutlineLines(pages: seq<Page>, classify: Classifier)
    ensures forall k :: 0 <= k < |Emit(ScanOrder(pages), classify)| ==>
              exists i :: 0 <= i < |ScanOrder(pages)| && IsEntryFor(Emit(ScanOrder(pages), classify)[k], ScanOrder(pages)[i], classify)
  {
    var items := ScanOrder(pages);
    var r := Emit(items, classify);
    SourcesMatch(items, classify);
    SourcesAdded(items, classify);
    var src := Sources(items, classify);
    forall k | 0 <= k < |r|
      ensures exists i :: 0 <= i < |items| && IsEntryFor(r[k], items[i], classify)
    {
      var i := src[k];
      assert r[k] == EntryOf(items[i], classify);
      assert Adds(Emit(items[..i], classify), items[i], classify);
    }
  }
}
