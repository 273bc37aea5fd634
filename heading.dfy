/**
 * The heading classifier of `extractor_optimized.py`: from one line's text and
 * typography it decides whether the line is a heading, and of which level.
 *
 * The rules are tried in a fixed order: too short or a stop token, then the
 * numbering patterns, then the structural keywords, then font size and weight.
 */
module Heading {
  import opened Wrappers
  import opened Text
  import opened Patterns

  datatype Level = H1 | H2 | H3

  /** Shorter stripped texts are never headings. */
  const MinHeadingLength := 3

  /** Texts that are never headings, compared after stripping and lowering. */
  const StopTokens: seq<string> := ["page", "of", "and", "the", "for"]

  /** `^\d+\.\s`, as in "1. Introduction". */
  const NumberedH1: Pattern := [Many(Digit), One(Is('.')), One(Space)]

  /** `^\d+\.\d+\s`, as in "1.1 Overview". */
  const NumberedH2: Pattern := [Many(Digit), One(Is('.')), Many(Digit), One(Space)]

  /** `^\d+\.\d+\.\d+\s`, as in "1.1.1 Details". */
  const NumberedH3: Pattern :=
    [Many(Digit), One(Is('.')), Many(Digit), One(Is('.')), Many(Digit), One(Space)]

  /** One of the four structural-keyword patterns, each anchored at the start of the
      lowered text: an alternation of words, or a word followed by `\s+\d+`. */
  datatype KeywordRule =
    | AnyOf(words: seq<string>)
    | Numbered(words: seq<string>)

  const KeywordRules: seq<KeywordRule> := [
    AnyOf(["introduction", "overview", "conclusion", "summary", "references", "appendix", "acknowledgements"]),
    AnyOf(["table of contents", "revision history", "abstract", "executive summary"]),
    Numbered(["chapter", "section", "part"]),
    AnyOf(["background", "methodology", "results", "discussion", "future work"])
  ]

  /** `^w\s+\d+` */
  function NumberedWord(w: string): Pattern {
    Literal(w) + [Many(Space), Many(Digit)]
  }

  predicate RuleMatches(rule: KeywordRule, t: string) {
    match rule
    case AnyOf(words) => StartsWithAny(t, words)
    case Numbered(words) => exists w :: w in words && Greedy(NumberedWord(w), t)
  }

  /** Some keyword pattern matches the lowered text. */
  predicate IsStructural(lowered: string) {
    exists rule :: rule in KeywordRules && RuleMatches(rule, lowered)
  }

  /** The regular-expression meaning of a keyword pattern: `re.search` of the
      anchored pattern succeeds. */
  ghost predicate RuleMeaning(rule: KeywordRule, t: string) {
    match rule
    case AnyOf(words) => StartsWithAny(t, words)
    case Numbered(words) => exists w :: w in words && Matches(NumberedWord(w), t)
  }

  /** Some keyword pattern, read as a regular expression, matches the lowered text. */
  ghost predicate IsStructuralRegex(lowered: string) {
    exists rule :: rule in KeywordRules && RuleMeaning(rule, lowered)
  }

  /** In `^w\s+\d+`, the whitespace run is followed by a digit and the digit run
      ends the pattern, so the greedy matcher is exact for it. */
  lemma NumberedWordSeparated(w: string)
    ensures Separated(NumberedWord(w))
  {
    var p := NumberedWord(w);
    assert forall i :: 0 <= i < |w| ==> p[i] == One(Is(w[i]));
    assert p[|w|] == Many(Space) && p[|w| + 1] == Many(Digit);
  }

  /** The keyword test the classifier computes is the regular-expression one. */
  lemma StructuralIsRegex(lowered: string)
    ensures IsStructural(lowered) <==> IsStructuralRegex(lowered)
  {
    forall rule | rule in KeywordRules
      ensures RuleMatches(rule, lowered) <==> RuleMeaning(rule, lowered)
    {
      if rule.Numbered? {
        forall w | w in rule.words
          ensures Greedy(NumberedWord(w), lowered) <==> Matches(NumberedWord(w), lowered)
        {
          NumberedWordSeparated(w);
          GreedyIsMatches(NumberedWord(w), lowered);
        }
      }
    }
  }

  /** Font-size thresholds of the keyword rule and of the typography fallback. */
  const KeywordH1Size: real := 16.0
  const LargeSize: real := 18.0
  const BoldSize: real := 14.0
  const MediumSize: real := 13.0
  const SmallBoldSize: real := 12.0

  /** A bold 14pt line is H1 on the pages with 0-based index up to this, H2 later. */
  const LastEarlyPage := 2

  /** The font-size and weight rules, used when neither numbering nor a keyword decides. */
  function Typography(size: real, bold: bool, pageIndex: int): Option<Level> {
    if size >= LargeSize then Some(H1)
    else if size >= BoldSize && bold then (if pageIndex <= LastEarlyPage then Some(H1) else Some(H2))
    else if size >= MediumSize then (if bold then Some(H2) else Some(H3))
    else if size >= SmallBoldSize && bold then Some(H3)
    else None
  }

  /** `classify_heading_level(text, font_size, is_bold, page_num, y_position)`;
      `pageIndex` is the 0-based page index, `None` means "not a heading". */
  function Classify(text: string, size: real, bold: bool, pageIndex: int, y: real): Option<Level> {
    var t := Strip(text);
    if |t| < MinHeadingLength || Lower(t) in StopTokens then None
    else if Greedy(NumberedH1, t) then Some(H1)
    else if Greedy(NumberedH2, t) then Some(H2)
    else if Greedy(NumberedH3, t) then Some(H3)
    else if IsStructural(Lower(t)) then
      (if size >= KeywordH1Size || bold then Some(H1) else Some(H2))
    else Typography(size, bold, pageIndex)
  }

  lemma NumberingPatternsSeparated()
    ensures Separated(NumberedH1) && Separated(NumberedH2) && Separated(NumberedH3)
  {
  }

  /** The three numbering patterns never match the same text, so the order in which
      they are tried does not matter. */
  lemma {:induction false} NumberingExclusive(t: string)
    ensures !(Greedy(NumberedH1, t) && Greedy(NumberedH2, t))
    ensures !(Greedy(NumberedH1, t) && Greedy(NumberedH3, t))
    ensures !(Greedy(NumberedH2, t) && Greedy(NumberedH3, t))
  {
    var n := RunLength(t, Digit);
    if n >= 1 && n < |t| && t[n] == '.' {
      var u := t[n + 1..];
      assert Greedy(NumberedH1, t) ==> u != [] && IsSpace(u[0]);
      assert Greedy(NumberedH2, t) ==> u != [] && IsDigit(u[0]);
      assert Greedy(NumberedH3, t) ==> u != [] && IsDigit(u[0]);
      var m := RunLength(u, Digit);
      assert Greedy(NumberedH2, t) ==> m < |u| && IsSpace(u[m]);
      assert Greedy(NumberedH3, t) ==> m < |u| && u[m] == '.';
    }
  }

  /** A text that starts with a digit is neither too short for a numbering pattern
      nor a stop token. */
  lemma NumberedIsNotRejected(t: string, p: Pattern)
    requires p == NumberedH1 || p == NumberedH2 || p == NumberedH3
    requires Greedy(p, t)
    ensures |t| >= MinHeadingLength && Lower(t) !in StopTokens
  {
    var n := RunLength(t, Digit);
    assert n >= 1 && n < |t| && t[n] == '.';
    assert t[n + 1..] != [];
    assert IsDigit(Lower(t)[0]);
  }

  /** Numbering overrides everything else: a stripped text that matches
      `^\d+\.\s`, `^\d+\.\d+\s` or `^\d+\.\d+\.\d+\s` is H1, H2 or H3 whatever its
      font size, weight, page and position. */
  lemma NumberingDecides(text: string, size: real, bold: bool, pageIndex: int, y: real)
    ensures Matches(NumberedH1, Strip(text)) ==> Classify(text, size, bold, pageIndex, y) == Some(H1)
    ensures Matches(NumberedH2, Strip(text)) ==> Classify(text, size, bold, pageIndex, y) == Some(H2)
    ensures Matches(NumberedH3, Strip(text)) ==> Classify(text, size, bold, pageIndex, y) == Some(H3)
  {
    var t := Strip(text);
    NumberingPatternsSeparated();
    GreedyIsMatches(NumberedH1, t);
    GreedyIsMatches(NumberedH2, t);
    GreedyIsMatches(NumberedH3, t);
    NumberingExclusive(t);
    if Greedy(NumberedH1, t) { NumberedIsNotRejected(t, NumberedH1); }
    if Greedy(NumberedH2, t) { NumberedIsNotRejected(t, NumberedH2); }
    if Greedy(NumberedH3, t) { NumberedIsNotRejected(t, NumberedH3); }
  }

  /** A stripped text under three characters, or a stop token in any case, is never a
      heading, whatever its typography. */
  lemma ShortOrStopTokenRejected(text: string, size: real, bold: bool, pageIndex: int, y: real)
    ensures Classify(text, size, bold, pageIndex, y).Some? ==>
              |Strip(text)| >= MinHeadingLength && Lower(Strip(text)) !in StopTokens
  {
  }

  /** A text that is not rejected and matches no numbering pattern but starts with a
      structural keyword is H1 when large (16pt) or bold and H2 otherwise: never H3
      and never "not a heading". */
  lemma KeywordDecides(text: string, size: real, bold: bool, pageIndex: int, y: real)
    requires |Strip(text)| >= MinHeadingLength && Lower(Strip(text)) !in StopTokens
    requires !Matches(NumberedH1, Strip(text)) && !Matches(NumberedH2, Strip(text))
    requires !Matches(NumberedH3, Strip(text))
    requires IsStructuralRegex(Lower(Strip(text)))
    ensures Classify(text, size, bold, pageIndex, y) ==
              (if size >= KeywordH1Size || bold then Some(H1) else Some(H2))
  {
    var t := Strip(text);
    StructuralIsRegex(Lower(t));
    NumberingPatternsSeparated();
    GreedyIsMatches(NumberedH1, t);
    GreedyIsMatches(NumberedH2, t);
    GreedyIsMatches(NumberedH3, t);
  }

  /** Without numbering or keyword, only size, weight and (for bold 14pt lines) the
      page decide, by the thresholds 18, 14 bold, 13 and 12 bold. */
  lemma TypographyDecides(text: string, size: real, bold: bool, pageIndex: int, y: real)
    requires |Strip(text)| >= MinHeadingLength && Lower(Strip(text)) !in StopTokens
    requires !Matches(NumberedH1, Strip(text)) && !Matches(NumberedH2, Strip(text))
    requires !Matches(NumberedH3, Strip(text))
    requires !IsStructuralRegex(Lower(Strip(text)))
    ensures var r := Classify(text, size, bold, pageIndex, y);
      && (size >= 18.0 ==> r == Some(H1))
      && (14.0 <= size < 18.0 && bold ==> r == Some(if pageIndex <= 2 then H1 else H2))
      && (13.0 <= size < 14.0 || (14.0 <= size < 18.0 && !bold) ==> r == Some(if bold then H2 else H3))
      && (12.0 <= size < 13.0 && bold ==> r == Some(H3))
      && (size < 12.0 || (size < 13.0 && !bold) ==> r == None)
  {
    var t := Strip(text);
    StructuralIsRegex(Lower(t));
    NumberingPatternsSeparated();
    GreedyIsMatches(NumberedH1, t);
    GreedyIsMatches(NumberedH2, t);
    GreedyIsMatches(NumberedH3, t);
  }

  /** The vertical position is passed in but never looked at. */
  lemma PositionIgnored(text: string, size: real, bold: bool, pageIndex: int, y1: real, y2: real)
    ensures Classify(text, size, bold, pageIndex, y1) == Classify(text, size, bold, pageIndex, y2)
  {
  }

  /** "1. Introduction" in 12pt regular type is H1. */
  lemma NumberedExample(t: string)
    requires t == "1. Introduction"
    ensures Classify(t, 12.0, false, 0, 0.0) == Some(H1)
  {
    assert TrimStart(t) == t && TrimEnd(t) == t;
    assert Strip(t) == t;
    assert RunLength(t, Digit) == 1;
    assert Greedy(NumberedH1[2..], t[2..]);
    assert Greedy(NumberedH1[1..], t[1..]);
    assert Greedy(NumberedH1, t);
    NumberedIsNotRejected(t, NumberedH1);
  }

  /** A text that does not start with a digit matches no numbering pattern. */
  lemma NoLeadingDigit(t: string)
    requires t == [] || !IsDigit(t[0])
    ensures !Greedy(NumberedH1, t) && !Greedy(NumberedH2, t) && !Greedy(NumberedH3, t)
  {
    assert RunLength(t, Digit) == 0;
  }

  /** "Overview" is H1 at 17pt and H2 at 13pt, both regular. */
  lemma KeywordExamples()
    ensures Classify("Overview", 17.0, false, 0, 0.0) == Some(H1)
    ensures Classify("Overview", 13.0, false, 0, 0.0) == Some(H2)
  {
    var t := "Overview";
    assert Strip(t) == t;
    NoLeadingDigit(t);
    var lowered := Lower(t);
    assert lowered == "overview";
    assert StartsWith(lowered, "overview");
    assert RuleMatches(KeywordRules[0], lowered);
    assert lowered !in StopTokens;
  }

  /** "ab" is never a heading. */
  lemma ShortExample(size: real, bold: bool)
    ensures Classify("ab", size, bold, 0, 0.0) == None
  {
    assert Strip("ab") == "ab";
  }
}
