/**
 * The title picker of `extractor_optimized.py`: collect the first page's lines
 * that look like a title, then take the one ranked first by (bold, largest
 * size), the earliest one among equals.
 */
module Title {
  import opened Text
  import opened Patterns
  import opened Layout
  import opened Filters

  /** `(line_text, max_size, is_bold)` */
  datatype Candidate = Candidate(text: string, size: real, bold: bool)

  const MinTitleWords := 3
  const TitleSize: real := 16.0
  const ForbiddenPrefixes: seq<string> := ["page", "chapter", "section"]

  /** `^\d+\.` */
  const NumberedPrefix: Pattern := [Many(Digit), One(Is('.'))]

  function CandidateOf(line: Line): Candidate {
    Candidate(LineText(line), MaxSize(line.spans), IsBold(line.spans))
  }

  /** The filter a line has to pass to be a title candidate. */
  predicate IsTitleLike(c: Candidate) {
    && |Runs(c.text, NonSpace)| >= MinTitleWords
    && !EndsWith(c.text, ":")
    && !Greedy(NumberedPrefix, c.text)
    && (c.size >= TitleSize || c.bold)
    && !StartsWithAny(Lower(c.text), ForbiddenPrefixes)
  }

  /** The title filter with `re.match(r'^\d+\.', ...)` read as a regular
      expression: the filter the picker computes is exactly this one. */
  lemma TitleFilterMeaning(c: Candidate)
    ensures IsTitleLike(c) <==>
      && |Runs(c.text, NonSpace)| >= MinTitleWords
      && !EndsWith(c.text, ":")
      && !Matches(NumberedPrefix, c.text)
      && (c.size >= TitleSize || c.bold)
      && !StartsWithAny(Lower(c.text), ForbiddenPrefixes)
  {
    assert Separated(NumberedPrefix);
    GreedyIsMatches(NumberedPrefix, c.text);
  }

  /** `a` sorts before `b` under `sort(key=(bold, size), reverse=True)`. */
  predicate Outranks(a: Candidate, b: Candidate) {
    (a.bold && !b.bold) || (a.bold == b.bold && a.size > b.size)
  }

  /** Every line of the page as a `(text, size, bold)` triple. */
  function CandidatesOf(lines: seq<Line>): seq<Candidate> {
    seq(|lines|, i requires 0 <= i < |lines| => CandidateOf(lines[i]))
  }

  /** The position of the first sort, after a stable sort in descending order of
      (bold, size), is that of the earliest candidate that no candidate outranks. */
  function FirstBest(cs: seq<Candidate>): (k: nat)
    requires cs != []
    ensures k < |cs|
    ensures forall j :: 0 <= j < |cs| ==> !Outranks(cs[j], cs[k])
    ensures forall j :: 0 <= j < k ==> Outranks(cs[k], cs[j])
  {
    if |cs| == 1 then 0
    else
      var k := FirstBest(cs[..|cs| - 1]);
      if Outranks(cs[|cs| - 1], cs[k]) then |cs| - 1 else k
  }

  /** The title of a page with these lines: "" when no line is a candidate. */
  function TitleOf(lines: seq<Line>): string {
    var cs := Keep(CandidatesOf(lines), IsTitleLike);
    if cs == [] then "" else cs[FirstBest(cs)].text
  }

  /** `extract_title_from_first_page(page)` */
  method ExtractTitle(page: Page) returns (title: string)
    ensures title == TitleOf(PageLines(page))
  {
    var candidates: seq<Candidate> := [];
    for b := 0 to |page|
      invariant candidates == Keep(CandidatesOf(PageLines(page[..b])), IsTitleLike)
    {
      PageLinesStep(page, b);
      if page[b].TextBlock? {
        var lines := page[b].lines;
        assert BlockLines(page[b]) == lines;
        candidates := ScanLines(lines, PageLines(page[..b]), candidates);
        assert PageLines(page[..b + 1]) == PageLines(page[..b]) + lines;
        assert candidates == Keep(CandidatesOf(PageLines(page[..b + 1])), IsTitleLike);
      } else {
        assert PageLines(page[..b]) + [] == PageLines(page[..b]);
        assert PageLines(page[..b + 1]) == PageLines(page[..b]);
      }
    }
    assert page[..|page|] == page;
    if |candidates| > 0 {
      title := candidates[FirstBest(candidates)].text;
    } else {
      title := "";
    }
  }

  /** The inner loop over the lines of one block: appends the triples of its
      non-empty lines that pass the filter to those of the lines scanned before. */
  method ScanLines(lines: seq<Line>, ghost before: seq<Line>, found: seq<Candidate>)
    returns (candidates: seq<Candidate>)
    requires found == Keep(CandidatesOf(before), IsTitleLike)
    ensures candidates == Keep(CandidatesOf(before + lines), IsTitleLike)
  {
    candidates := found;
    assert before + lines[..0] == before;
    for l := 0 to |lines|
      invariant candidates == Keep(CandidatesOf(before + lines[..l]), IsTitleLike)
    {
      ScanStep(before, lines, l);
      var keep, c := ScanLine(lines[l]);
      if keep {
        candidates := candidates + [c];
      }
    }
    assert lines[..|lines|] == lines;
  }

  /** One turn of the inner loop: the line's triple, and whether it is kept. */
  method ScanLine(line: Line) returns (keep: bool, c: Candidate)
    ensures c == CandidateOf(line) && keep == IsTitleLike(c)
  {
    var text := LineText(line);
    c := Candidate(text, MaxSize(line.spans), IsBold(line.spans));
    keep := false;
    if text != "" {
      keep := IsTitleLike(c);
    } else {
      EmptyNotTitleLike(c);
    }
  }

  /** A line with no text is never a candidate. */
  lemma EmptyNotTitleLike(c: Candidate)
    requires c.text == ""
    ensures !IsTitleLike(c)
  {
    assert Runs(c.text, NonSpace) == [];
  }

  /** Scanning one more line appends its triple when it passes the filter. */
  lemma ScanStep(before: seq<Line>, lines: seq<Line>, l: nat)
    requires l < |lines|
    ensures Keep(CandidatesOf(before + lines[..l + 1]), IsTitleLike) ==
      Keep(CandidatesOf(before + lines[..l]), IsTitleLike) +
      (if IsTitleLike(CandidateOf(lines[l])) then [CandidateOf(lines[l])] else [])
  {
    var seen := before + lines[..l];
    assert before + lines[..l + 1] == seen + [lines[l]];
    assert CandidatesOf(seen + [lines[l]]) == CandidatesOf(seen) + [CandidateOf(lines[l])];
    KeepAppend(CandidatesOf(seen), CandidateOf(lines[l]), IsTitleLike);
  }

  /** A string with at least one word is not empty. */
  lemma WordsNonEmpty(s: string)
    requires |Runs(s, NonSpace)| > 0
    ensures s != []
  {
  }

  /** The triple picked from the kept ones comes from a position `k` of `cs` whose
      triple passes, that no passing triple outranks, and that outranks every
      passing triple before it. */
  lemma PickIsFirstBest(cs: seq<Candidate>, pass: Candidate -> bool) returns (k: nat)
    requires Keep(cs, pass) != []
    ensures k < |cs| && pass(cs[k]) && cs[k] == Keep(cs, pass)[FirstBest(Keep(cs, pass))]
    ensures forall j :: 0 <= j < |cs| && pass(cs[j]) ==> !Outranks(cs[j], cs[k])
    ensures forall j :: 0 <= j < k && pass(cs[j]) ==> Outranks(cs[k], cs[j])
  {
    var kept := Keep(cs, pass);
    var o := Origins(cs, pass);
    OriginsMatch(cs, pass);
    OriginsIncreasing(cs, pass);
    OriginsCover(cs, pass);
    var b := FirstBest(kept);
    k := o[b];
    forall j | 0 <= j < |cs| && pass(cs[j])
      ensures !Outranks(cs[j], cs[k])
      ensures j < k ==> Outranks(cs[k], cs[j])
    {
      assert j in o;
      var i :| 0 <= i < |o| && o[i] == j;
      assert kept[i] == cs[j];
      if j < k {
        assert i < b;
      }
    }
  }

  /** The title is "" exactly when no line of the page passes the filter; otherwise
      it is the text of a line that passes it, that no passing line outranks, and
      that outranks every passing line before it: a bold candidate beats every
      regular one, the larger size wins among equals in weight, and the earliest
      line wins a full tie. */
  lemma TitleChoice(lines: seq<Line>)
    ensures TitleOf(lines) == "" <==> forall j :: 0 <= j < |lines| ==> !IsTitleLike(CandidateOf(lines[j]))
    ensures TitleOf(lines) != "" ==> exists k :: IsTitleLine(lines, k)
  {
    var all := CandidatesOf(lines);
    KeepEmpty(all, IsTitleLike);
    assert forall j :: 0 <= j < |lines| ==> all[j] == CandidateOf(lines[j]);
    if Keep(all, IsTitleLike) != [] {
      var k := PickIsFirstBest(all, IsTitleLike);
      WordsNonEmpty(all[k].text);
      assert IsTitleLine(lines, k);
    }
  }

  /** Line `k` is a title candidate whose text is the title, no candidate outranks
      it, and it outranks every candidate before it. */
  predicate IsTitleLine(lines: seq<Line>, k: int) {
    && 0 <= k < |lines| && IsTitleLike(CandidateOf(lines[k]))
    && LineText(lines[k]) == TitleOf(lines)
    && (forall j :: 0 <= j < |lines| && IsTitleLike(CandidateOf(lines[j])) ==> !Outranks(CandidateOf(lines[j]), CandidateOf(lines[k])))
    && (forall j :: 0 <= j < k && IsTitleLike(CandidateOf(lines[j])) ==> Outranks(CandidateOf(lines[k]), CandidateOf(lines[j])))
  }
}
