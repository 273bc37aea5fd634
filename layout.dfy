/**
 * What the PDF library hands to the extractor, as plain values, and how the
 * extractor aggregates one line of it.
 *
 * `page.get_text("dict")` yields blocks; a text block has lines, a line has
 * spans, a span has a text, a font size and a font name (here only whether the
 * name contains "Bold"), and the line has a bounding box whose top is `y`.
 * `page.get_text("blocks")` yields flat blocks whose top coordinate and text are
 * kept as `PlainBlock`.
 */
module Layout {
  import opened Text

  datatype Span = Span(text: string, size: real, bold: bool)

  datatype Line = Line(spans: seq<Span>, y: real)

  /** A block without "lines" (an image block) is `ImageBlock`. */
  datatype Block = TextBlock(lines: seq<Line>) | ImageBlock

  type Page = seq<Block>

  /** One entry of `page.get_text("blocks")`: its top coordinate and its text
      (the empty string stands for a missing text). */
  datatype PlainBlock = PlainBlock(y0: real, text: string)

  /** The span texts, each stripped. */
  function SpanTexts(spans: seq<Span>): seq<string> {
    seq(|spans|, i requires 0 <= i < |spans| => Strip(spans[i].text))
  }

  /** The stripped span texts joined with single spaces, then stripped. */
  function LineText(line: Line): string {
    Strip(Join(SpanTexts(line.spans), " "))
  }

  /** `max(span["size"] for span in spans) if spans else 0` */
  function MaxSize(spans: seq<Span>): real {
    if spans == [] then 0.0
    else if |spans| == 1 then spans[0].size
    else
      var m := MaxSize(spans[..|spans| - 1]);
      var last := spans[|spans| - 1].size;
      if last > m then last else m
  }

  /** The line size is the largest span size (0 for a line without spans): no span
      is larger and some span has exactly that size. */
  lemma {:induction false} MaxSizeIsMaximum(spans: seq<Span>)
    ensures spans == [] ==> MaxSize(spans) == 0.0
    ensures forall i :: 0 <= i < |spans| ==> spans[i].size <= MaxSize(spans)
    ensures spans != [] ==> exists i :: 0 <= i < |spans| && spans[i].size == MaxSize(spans)
  {
    if |spans| == 1 {
      assert spans[0].size == MaxSize(spans);
    } else if |spans| > 1 {
      var init := spans[..|spans| - 1];
      MaxSizeIsMaximum(init);
      assert forall i :: 0 <= i < |init| ==> init[i] == spans[i];
      if spans[|spans| - 1].size <= MaxSize(init) {
        var i :| 0 <= i < |init| && init[i].size == MaxSize(init);
        assert spans[i].size == MaxSize(spans);
      } else {
        assert spans[|spans| - 1].size == MaxSize(spans);
      }
    }
  }

  /** Some span's font is bold. */
  predicate IsBold(spans: seq<Span>) {
    exists i :: 0 <= i < |spans| && spans[i].bold
  }

  function BlockLines(b: Block): seq<Line> {
    match b
    case TextBlock(lines) => lines
    case ImageBlock => []
  }

  /** The lines of a page in block order, then line order; image blocks contribute none. */
  function PageLines(blocks: Page): seq<Line> {
    if blocks == [] then []
    else PageLines(blocks[..|blocks| - 1]) + BlockLines(blocks[|blocks| - 1])
  }

  lemma PageLinesStep(blocks: Page, b: nat)
    requires b < |blocks|
    ensures PageLines(blocks[..b + 1]) == PageLines(blocks[..b]) + BlockLines(blocks[b])
  {
    assert blocks[..b + 1][..b] == blocks[..b];
  }
}
