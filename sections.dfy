/**
 * `get_section_bodies` of `main.py`: for every outline heading, the text of the
 * blocks of its page from the heading's own block down to the next heading on
 * the same page.
 *
 * A page is the list `page.get_text("blocks")` as `PlainBlock`s (top coordinate
 * and text). The y of a heading is that of the first block whose stripped text
 * equals the heading text; blocks are collected in block order from that y on,
 * and the scan stops for good at the first collected block at or below the next
 * heading's y.
 */
module Sections {
  import opened Wrappers
  import opened Text
  import opened Layout
  import opened Outline

  /** The blocks of every page of a document, in page order. */
  type BlockPages = seq<seq<PlainBlock>>

  /** A section record. The ranker later writes its `score` in place; before
      that the record has no score, which is modelled as 0. */
  class Section {
    const document: string
    const title: string
    const text: string
    const page: int
    var score: int

    constructor (document: string, title: string, text: string, page: int)
      ensures this.document == document && this.title == title
      ensures this.text == text && this.page == page
      ensures score == 0
    {
      this.document := document;
      this.title := title;
      this.text := text;
      this.page := page;
      score := 0;
    }
  }

  /** The y of the first block whose stripped text is `t`, if any. */
  function FirstMatchY(blocks: seq<PlainBlock>, t: string): Option<real> {
    if blocks == [] then None
    else if Strip(blocks[0].text) == t then Some(blocks[0].y0)
    else FirstMatchY(blocks[1..], t)
  }

  /** `FirstMatchY` finds the first block whose stripped text is `t`, and finds
      nothing exactly when there is none. */
  lemma {:induction false} FirstMatchYMeaning(blocks: seq<PlainBlock>, t: string)
    ensures FirstMatchY(blocks, t) == None <==>
              forall k :: 0 <= k < |blocks| ==> Strip(blocks[k].text) != t
    ensures FirstMatchY(blocks, t) != None ==>
              exists k :: 0 <= k < |blocks| && Strip(blocks[k].text) == t &&
                FirstMatchY(blocks, t) == Some(blocks[k].y0) &&
                forall j :: 0 <= j < k ==> Strip(blocks[j].text) != t
  {
    if blocks != [] && Strip(blocks[0].text) != t {
      var rest := blocks[1..];
      FirstMatchYMeaning(rest, t);
      assert forall k :: 0 <= k < |rest| ==> rest[k] == blocks[k + 1];
      if FirstMatchY(rest, t) != None {
        var k :| 0 <= k < |rest| && Strip(rest[k].text) == t &&
          FirstMatchY(rest, t) == Some(rest[k].y0) &&
          forall j :: 0 <= j < k ==> Strip(rest[j].text) != t;
        assert forall j :: 0 < j < k + 1 ==> blocks[j] == rest[j - 1];
        assert Strip(blocks[k + 1].text) == t;
      }
    }
  }

  /** The loops that look for a heading's block (and for the next heading's). */
  method FindY(blocks: seq<PlainBlock>, t: string) returns (y: Option<real>)
    ensures y == FirstMatchY(blocks, t)
  {
    y := None;
    var i := 0;
    while i < |blocks|
      invariant i <= |blocks|
      invariant y == None && FirstMatchY(blocks[i..], t) == FirstMatchY(blocks, t)
    {
      assert blocks[i..][1..] == blocks[i + 1..];
      var btext := Strip(blocks[i].text);  // a missing text strips to ""
      if btext == t {
        y := Some(blocks[i].y0);
        break;
      }
      i := i + 1;
    }
  }

  /** The end boundary of heading `idx`: the y of the next heading's block, sought
      only when the next heading is on the same page. */
  function EndY(blocks: seq<PlainBlock>, headings: seq<Entry>, idx: nat): Option<real>
    requires idx < |headings|
  {
    if idx + 1 < |headings| && headings[idx + 1].page == headings[idx].page
    then FirstMatchY(blocks, headings[idx + 1].text)
    else None
  }

  /** A block is collected when it has a text and starts at or below `start`. */
  predicate Eligible(b: PlainBlock, start: Option<real>) {
    b.text != "" && start.Some? && b.y0 >= start.value
  }

  /** The texts the collecting loop appends: eligible blocks in order, until the
      first eligible block at or below `end`, where it breaks. */
  function Collect(blocks: seq<PlainBlock>, start: Option<real>, end: Option<real>): seq<string> {
    if blocks == [] then []
    else if !Eligible(blocks[0], start) then Collect(blocks[1..], start, end)
    else if end.Some? && blocks[0].y0 >= end.value then []
    else [blocks[0].text] + Collect(blocks[1..], start, end)
  }

  /** The collecting loop. */
  method CollectTexts(blocks: seq<PlainBlock>, start: Option<real>, end: Option<real>)
    returns (texts: seq<string>)
    ensures texts == Collect(blocks, start, end)
  {
    texts := [];
    var i := 0;
    while i < |blocks|
      invariant i <= |blocks|
      invariant texts + Collect(blocks[i..], start, end) == Collect(blocks, start, end)
    {
      assert blocks[i..][1..] == blocks[i + 1..];
      var b := blocks[i];
      if b.text != "" {
        if start.Some? && b.y0 >= start.value {
          if end.Some? && b.y0 >= end.value {
            assert texts == Collect(blocks, start, end);
            break;
          }
          texts := texts + [b.text];
        }
      }
      i := i + 1;
    }
    if i == |blocks| {
      assert texts + [] == texts;
    }
  }

  /** Reference definition: the texts of the eligible blocks, with no stop. */
  function Eligibles(blocks: seq<PlainBlock>, start: Option<real>): seq<string> {
    if blocks == [] then []
    else (if Eligible(blocks[0], start) then [blocks[0].text] else []) + Eligibles(blocks[1..], start)
  }

  /** The index of the first eligible block at or below `end`, or the block count. */
  function StopIndex(blocks: seq<PlainBlock>, start: Option<real>, end: Option<real>): (k: nat)
    ensures k <= |blocks|
    ensures k < |blocks| ==> Eligible(blocks[k], start) && end.Some? && blocks[k].y0 >= end.value
    ensures forall j :: 0 <= j < k && Eligible(blocks[j], start) ==> !(end.Some? && blocks[j].y0 >= end.value)
  {
    if blocks == [] then 0
    else if Eligible(blocks[0], start) && end.Some? && blocks[0].y0 >= end.value then 0
    else 1 + StopIndex(blocks[1..], start, end)
  }

  /** Collecting is a break and not a filter: it gives exactly the eligible blocks
      before the first eligible block at or below the end boundary, and nothing
      from that block on. */
  lemma {:induction false} CollectIsPrefix(blocks: seq<PlainBlock>, start: Option<real>, end: Option<real>)
    ensures Collect(blocks, start, end) == Eligibles(blocks[..StopIndex(blocks, start, end)], start)
  {
    if blocks != [] {
      var rest := blocks[1..];
      var s := StopIndex(rest, start, end);
      CollectIsPrefix(rest, start, end);
      if !(Eligible(blocks[0], start) && end.Some? && blocks[0].y0 >= end.value) {
        assert blocks[..1 + s] == [blocks[0]] + rest[..s];
        assert ([blocks[0]] + rest[..s])[1..] == rest[..s];
      }
    }
  }

  lemma {:induction false} EligiblesHas(blocks: seq<PlainBlock>, start: Option<real>, k: nat)
    requires k < |blocks| && Eligible(blocks[k], start)
    ensures blocks[k].text in Eligibles(blocks, start)
  {
    if k > 0 {
      EligiblesHas(blocks[1..], start, k - 1);
    }
  }

  /** The heading's own block is collected (its y is the start) when the scan has
      not stopped at or before it. */
  lemma HeadingBlockCollected(blocks: seq<PlainBlock>, k: nat, end: Option<real>)
    requires k < |blocks| && Strip(blocks[k].text) != ""
    requires k < StopIndex(blocks, Some(blocks[k].y0), end)
    ensures blocks[k].text in Collect(blocks, Some(blocks[k].y0), end)
  {
    var start := Some(blocks[k].y0);
    var stop := StopIndex(blocks, start, end);
    CollectIsPrefix(blocks, start, end);
    assert blocks[k].text != "";
    assert blocks[..stop][k] == blocks[k];
    EligiblesHas(blocks[..stop], start, k);
  }

  /** Without a start (the heading's block was not found) nothing is collected. */
  lemma {:induction false} CollectWithoutStart(blocks: seq<PlainBlock>, end: Option<real>)
    ensures Collect(blocks, None, end) == []
  {
    if blocks != [] {
      CollectWithoutStart(blocks[1..], end);
    }
  }

  /** The body from the collected texts: joined with spaces, line feeds replaced by
      spaces, stripped; the heading text when that is empty. */
  function BodyText(texts: seq<string>, title: string): (body: string)
    ensures body == title || body == Strip(ReplaceChar(Join(texts, " "), '\n', ' '))
    ensures title != "" ==> body != ""
    ensures texts == [] ==> body == title
  {
    var para := Strip(ReplaceChar(Join(texts, " "), '\n', ' '));
    if para != "" then para else title
  }

  /** The body of heading `idx` on its page's blocks. */
  function SectionBody(blocks: seq<PlainBlock>, headings: seq<Entry>, idx: nat): string
    requires idx < |headings|
  {
    var title := headings[idx].text;
    BodyText(Collect(blocks, FirstMatchY(blocks, title), EndY(blocks, headings, idx)), title)
  }

  /** When no block of the page has the heading's text, the body is the heading
      text. */
  lemma MissingHeadingGivesTitle(blocks: seq<PlainBlock>, headings: seq<Entry>, idx: nat)
    requires idx < |headings|
    requires forall k :: 0 <= k < |blocks| ==> Strip(blocks[k].text) != headings[idx].text
    ensures SectionBody(blocks, headings, idx) == headings[idx].text
  {
    FirstMatchYMeaning(blocks, headings[idx].text);
    CollectWithoutStart(blocks, EndY(blocks, headings, idx));
  }

  /** `s` is the new record of heading `idx`: its document, the heading's text and
      page, the body of the heading on that page, and no score yet. */
  predicate IsSectionFor(s: Section, document: string, pages: BlockPages, headings: seq<Entry>, idx: nat)
    requires idx < |headings| && 1 <= headings[idx].page <= |pages|
    reads s
  {
    && s.document == document
    && s.title == headings[idx].text
    && s.page == headings[idx].page
    && s.text == SectionBody(pages[headings[idx].page - 1], headings, idx)
    && s.score == 0
  }

  /** `get_section_bodies(pdf_path, outline)`: one new section per heading, in
      outline order. `document` is the file's base name. A heading page outside
      [1, page count] makes the code fail (an index error, or Python's negative
      indexing for page 0), so the headings must lie within the document, as every
      outline the extractor produces does. */
  method GetSectionBodies(document: string, pages: BlockPages, headings: seq<Entry>)
    returns (results: seq<Section>)
    requires forall i :: 0 <= i < |headings| ==> 1 <= headings[i].page <= |pages|
    ensures |results| == |headings|
    ensures forall i :: 0 <= i < |results| ==> fresh(results[i])
    ensures forall i, j :: 0 <= i < j < |results| ==> results[i] != results[j]
    ensures forall i :: 0 <= i < |results| ==> IsSectionFor(results[i], document, pages, headings, i)
  {
    results := [];
    for idx := 0 to |headings|
      invariant |results| == idx
      invariant forall i :: 0 <= i < idx ==> fresh(results[i])
      invariant forall i, j :: 0 <= i < j < idx ==> results[i] != results[j]
      invariant forall i :: 0 <= i < idx ==> IsSectionFor(results[i], document, pages, headings, i)
    {
      var heading := headings[idx];
      var text := FindBody(pages[heading.page - 1], headings, idx);
      var s := new Section(document, heading.text, text, heading.page);
      results := results + [s];
    }
  }

  /** One turn of the loop of `get_section_bodies`: find the heading's y and, when
      the next heading is on the same page, the next heading's y; collect the
      blocks between them and build the body. */
  method FindBody(blocks: seq<PlainBlock>, headings: seq<Entry>, idx: nat) returns (body: string)
    requires idx < |headings|
    ensures body == SectionBody(blocks, headings, idx)
  {
    var title := headings[idx].text;
    var startY := FindY(blocks, title);
    var endingY: Option<real> := None;
    if idx + 1 < |headings| && headings[idx + 1].page == headings[idx].page {
      endingY := FindY(blocks, headings[idx + 1].text);
    }
    var texts := CollectTexts(blocks, startY, endingY);
    var para := Strip(ReplaceChar(Join(texts, " "), '\n', ' '));
    body := if para != "" then para else title;
  }
}
