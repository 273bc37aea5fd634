/**
 * `extract_key_sentences` of `summarizer.py`: split the text into sentences at
 * whitespace runs that follow ".", "!" or "?", keep the stripped sentences that
 * mention a keyword (both sides lowered), and join the first `max_sentences` of
 * them with spaces.
 */
module Summarizer {
  import opened Text
  import opened Filters

  /** The characters the look-behind `(?<=[.!?])` accepts. */
  predicate IsMark(c: char) {
    c == '.' || c == '!' || c == '?'
  }

  /** A match of `(?<=[.!?])\s+` can start at `k`: a whitespace character right
      after a mark. (Position 0 has nothing behind it.) */
  predicate IsBreak(s: string, k: int) {
    1 <= k < |s| && IsMark(s[k - 1]) && IsSpace(s[k])
  }

  /** The first break at or after `i`, or `|s|` when there is none. */
  function FirstBreakFrom(s: string, i: nat): (k: nat)
    requires i <= |s|
    ensures i <= k <= |s|
    ensures k < |s| ==> IsBreak(s, k)
    ensures forall j :: i <= j < k ==> !IsBreak(s, j)
    decreases |s| - i
  {
    if i == |s| then |s|
    else if IsBreak(s, i) then i
    else FirstBreakFrom(s, i + 1)
  }

  /** The end of the whitespace run a break at `k` removes: `\s+` is greedy. */
  function GapEnd(s: string, k: nat): (e: nat)
    requires IsBreak(s, k)
    ensures k < e <= |s|
    ensures forall c :: k <= c < e ==> IsSpace(s[c])
    ensures e < |s| ==> !IsSpace(s[e])
  {
    RunEnd(s, k, Space)
  }

  /** The pieces `re.split` makes of `s[i..]`, the search resuming at `i`. */
  function SplitFrom(s: string, i: nat): (pieces: seq<string>)
    requires i <= |s|
    ensures |pieces| >= 1
    decreases |s| - i
  {
    var k := FirstBreakFrom(s, i);
    if k == |s| then [s[i..]]
    else [s[i..k]] + SplitFrom(s, GapEnd(s, k))
  }

  /** `re.split(r'(?<=[.!?])\s+', s)` */
  function SplitSentences(s: string): (pieces: seq<string>)
    ensures |pieces| >= 1
  {
    SplitFrom(s, 0)
  }

  /** The whitespace runs the split of `s[i..]` removes, in order. */
  ghost function GapsFrom(s: string, i: nat): seq<string>
    requires i <= |s|
    decreases |s| - i
  {
    var k := FirstBreakFrom(s, i);
    if k == |s| then []
    else [s[k..GapEnd(s, k)]] + GapsFrom(s, GapEnd(s, k))
  }

  /** The whitespace runs `SplitSentences` removes, in order. */
  ghost function Gaps(s: string): seq<string> {
    GapsFrom(s, 0)
  }

  /** The pieces with the gaps put back between them. */
  function Interleave(pieces: seq<string>, gaps: seq<string>): string
    requires |pieces| == |gaps| + 1
  {
    if gaps == [] then pieces[0]
    else pieces[0] + gaps[0] + Interleave(pieces[1..], gaps[1..])
  }

  lemma InterleaveCons(p: string, g: string, ps: seq<string>, gs: seq<string>)
    requires |ps| == |gs| + 1
    ensures Interleave([p] + ps, [g] + gs) == p + g + Interleave(ps, gs)
  {
    assert ([p] + ps)[1..] == ps;
    assert ([g] + gs)[1..] == gs;
  }

  lemma SliceThree(s: string, i: nat, k: nat, e: nat)
    requires i <= k <= e <= |s|
    ensures s[i..] == s[i..k] + s[k..e] + s[e..]
  {
  }

  lemma {:induction false} RoundTripFrom(s: string, i: nat)
    requires i <= |s|
    ensures |SplitFrom(s, i)| == |GapsFrom(s, i)| + 1
    ensures Interleave(SplitFrom(s, i), GapsFrom(s, i)) == s[i..]
    decreases |s| - i
  {
    var k := FirstBreakFrom(s, i);
    if k < |s| {
      var e := GapEnd(s, k);
      RoundTripFrom(s, e);
      InterleaveCons(s[i..k], s[k..e], SplitFrom(s, e), GapsFrom(s, e));
      SliceThree(s, i, k, e);
    }
  }

  /** Splitting loses nothing but the whitespace at the breaks: putting the removed
      runs back between the pieces gives the text again. */
  lemma SplitRoundTrip(s: string)
    ensures |SplitSentences(s)| == |Gaps(s)| + 1
    ensures Interleave(SplitSentences(s), Gaps(s)) == s
  {
    RoundTripFrom(s, 0);
  }

  /** Every character of `g` is whitespace. */
  predicate AllSpace(g: string) {
    forall c :: 0 <= c < |g| ==> IsSpace(g[c])
  }

  /** Every run in `gs` is non-empty whitespace. */
  predicate SpaceRuns(gs: seq<string>) {
    forall i :: 0 <= i < |gs| ==> gs[i] != [] && AllSpace(gs[i])
  }

  lemma {:induction false} GapsFromAreWhitespace(s: string, i: nat)
    requires i <= |s|
    ensures SpaceRuns(GapsFrom(s, i))
    decreases |s| - i
  {
    var k := FirstBreakFrom(s, i);
    if k < |s| {
      var e := GapEnd(s, k);
      GapsFromAreWhitespace(s, e);
      var g := s[k..e];
      assert forall c :: 0 <= c < |g| ==> g[c] == s[k + c];
      var gs := [g] + GapsFrom(s, e);
      assert forall j :: 1 <= j < |gs| ==> gs[j] == GapsFrom(s, e)[j - 1];
    }
  }

  /** Every removed run is non-empty whitespace. */
  lemma GapsAreWhitespace(s: string)
    ensures forall i :: 0 <= i < |Gaps(s)| ==> Gaps(s)[i] != [] && AllSpace(Gaps(s)[i])
  {
    GapsFromAreWhitespace(s, 0);
  }

  /** Every piece but the last ends with its mark: the mark stays with its
      sentence. */
  predicate MarkEnded(ps: seq<string>) {
    forall i :: 0 <= i < |ps| - 1 ==> ps[i] != [] && IsMark(ps[i][|ps[i]| - 1])
  }

  /** No piece holds a break. */
  ghost predicate BreakFree(ps: seq<string>) {
    forall i, j :: 0 <= i < |ps| ==> !IsBreak(ps[i], j)
  }

  /** Every piece after the first starts after the whole whitespace run. */
  predicate GapFree(ps: seq<string>) {
    forall i :: 1 <= i < |ps| && ps[i] != [] ==> !IsSpace(ps[i][0])
  }

  /** A piece `s[i..k]` ending before the first break from `i` holds no break. */
  lemma NoBreakBefore(s: string, i: nat, k: nat)
    requires i <= k <= |s| && forall j :: i <= j < k ==> !IsBreak(s, j)
    ensures forall j :: !IsBreak(s[i..k], j)
  {
    forall j ensures !IsBreak(s[i..k], j) {
      if IsBreak(s[i..k], j) {
        assert IsBreak(s, i + j);
      }
    }
  }

  /** The first piece of `s[i..]` runs up to the first break. */
  lemma FirstPieceFrom(s: string, i: nat)
    requires i <= |s|
    ensures SplitFrom(s, i)[0] == s[i..FirstBreakFrom(s, i)]
  {
  }

  /** A piece that ends with its mark and holds no break, put before pieces of the
      right shape that do not start with whitespace, keeps the shape. */
  lemma ConsPiece(p: string, qs: seq<string>)
    requires p != [] && IsMark(p[|p| - 1]) && forall j :: !IsBreak(p, j)
    requires qs != [] && (qs[0] != [] ==> !IsSpace(qs[0][0]))
    requires MarkEnded(qs) && BreakFree(qs) && GapFree(qs)
    ensures MarkEnded([p] + qs) && BreakFree([p] + qs) && GapFree([p] + qs)
  {
    var ps := [p] + qs;
    assert forall j :: 1 <= j < |ps| ==> ps[j] == qs[j - 1];
  }

  /** The shape of the pieces of `s[i..]` when the search resumes at the start of
      the text or right after a run of whitespace. */
  lemma {:induction false} PiecesFrom(s: string, i: nat)
    requires i <= |s| && (i == 0 || IsSpace(s[i - 1]))
    ensures MarkEnded(SplitFrom(s, i)) && BreakFree(SplitFrom(s, i))
    ensures GapFree(SplitFrom(s, i))
    decreases |s| - i
  {
    var k := FirstBreakFrom(s, i);
    if k < |s| {
      var e := GapEnd(s, k);
      PiecesFrom(s, e);
      FirstPieceFrom(s, e);
      PieceBeforeBreak(s, i);
      ConsPiece(s[i..k], SplitFrom(s, e));
    } else {
      NoBreakBefore(s, i, k);
      assert s[i..] == s[i..k];
    }
  }

  /** The piece from `i` to the next break is not empty, ends with the break's
      mark and holds no break. */
  lemma PieceBeforeBreak(s: string, i: nat)
    requires i <= |s| && (i == 0 || IsSpace(s[i - 1]))
    requires FirstBreakFrom(s, i) < |s|
    ensures var p := s[i..FirstBreakFrom(s, i)];
      p != [] && IsMark(p[|p| - 1]) && forall j :: !IsBreak(p, j)
  {
    var k := FirstBreakFrom(s, i);
    NoBreakBefore(s, i, k);
    var p := s[i..k];
    assert p[|p| - 1] == s[k - 1];
  }

  /** The shape of the pieces: every piece but the last ends with its mark, no
      piece holds a break (the text is cut at every one), and every piece after
      the first starts after the whole whitespace run. */
  lemma SplitPieces(s: string)
    ensures MarkEnded(SplitSentences(s)) && BreakFree(SplitSentences(s)) && GapFree(SplitSentences(s))
  {
    PiecesFrom(s, 0);
  }

  /** `any(kw.lower() in s.lower() for kw in keywords)` */
  predicate Mentions(sentence: string, keywords: set<string>) {
    exists kw :: kw in keywords && Contains(Lower(sentence), Lower(kw))
  }

  /** `[s.strip() for s in sentences if keep(s)]` */
  function Selected(sentences: seq<string>, keep: string -> bool): seq<string> {
    var kept := Keep(sentences, keep);
    seq(|kept|, i requires 0 <= i < |kept| => Strip(kept[i]))
  }

  /** The selected sentences are the passing sentences of the input, stripped, in
      their order: the `i`th comes from the sentence at origin `i`, the origins
      increase, and every passing sentence is an origin. */
  lemma SelectedOrigins(sentences: seq<string>, keep: string -> bool)
    ensures var picked := Selected(sentences, keep);
      var o := Origins(sentences, keep);
      && |picked| == |o|
      && (forall i :: 0 <= i < |picked| ==> o[i] < |sentences| && keep(sentences[o[i]]) && picked[i] == Strip(sentences[o[i]]))
      && (forall i, j :: 0 <= i < j < |picked| ==> o[i] < o[j])
      && (forall k :: 0 <= k < |sentences| && keep(sentences[k]) ==> k in o)
  {
    OriginsMatch(sentences, keep);
    OriginsIncreasing(sentences, keep);
    OriginsCover(sentences, keep);
  }

  /** Python's `xs[:n]`, a negative `n` counting from the end. */
  function SliceTo<T>(xs: seq<T>, n: int): (ys: seq<T>)
    ensures |ys| <= |xs| && ys == xs[..|ys|]
    ensures 0 <= n <= |xs| ==> |ys| == n
    ensures n > |xs| ==> ys == xs
    ensures n < 0 ==> |ys| == if |xs| + n < 0 then 0 else |xs| + n
  {
    if n >= 0 then (if n <= |xs| then xs[..n] else xs)
    else if |xs| + n < 0 then []
    else xs[..|xs| + n]
  }

  /** The stripped sentences that mention a keyword, in order. */
  function Matched(text: string, keywords: set<string>): seq<string> {
    Selected(SplitSentences(text), s => Mentions(s, keywords))
  }

  /** `extract_key_sentences(section_text, keywords, max_sentences)` */
  function ExtractKeySentences(text: string, keywords: set<string>, maxSentences: int): string {
    Join(SliceTo(Matched(text, keywords), maxSentences), " ")
  }

  /** When no sentence mentions a keyword, the result is "". */
  lemma NoMentionGivesEmpty(text: string, keywords: set<string>, maxSentences: int)
    requires forall k :: 0 <= k < |SplitSentences(text)| ==> !Mentions(SplitSentences(text)[k], keywords)
    ensures ExtractKeySentences(text, keywords, maxSentences) == ""
  {
    KeepEmpty(SplitSentences(text), s => Mentions(s, keywords));
  }

  /** With room for at least one sentence, the result starts with the first
      sentence that mentions a keyword, stripped. */
  lemma FirstMentionLeads(text: string, keywords: set<string>, maxSentences: int, k: nat)
    requires maxSentences >= 1
    requires k < |SplitSentences(text)| && Mentions(SplitSentences(text)[k], keywords)
    requires forall j :: 0 <= j < k ==> !Mentions(SplitSentences(text)[j], keywords)
    ensures StartsWith(ExtractKeySentences(text, keywords, maxSentences), Strip(SplitSentences(text)[k]))
  {
    var sentences := SplitSentences(text);
    var keep := s => Mentions(s, keywords);
    var o := Origins(sentences, keep);
    OriginsMatch(sentences, keep);
    OriginsIncreasing(sentences, keep);
    OriginsCover(sentences, keep);
    assert k in o;
    assert o[0] == k;
    var picked := SliceTo(Matched(text, keywords), maxSentences);
    JoinStartsWithFirst(picked, " ");
  }

  lemma JoinStartsWithFirst(parts: seq<string>, sep: string)
    requires parts != []
    ensures StartsWith(Join(parts, sep), parts[0])
  {
    if |parts| > 1 {
      var j := Join(parts, sep);
      assert j == parts[0] + (sep + Join(parts[1..], sep));
      assert j[..|parts[0]|] == parts[0];
    }
  }

  /** Every sentence joined into the result is a stripped sentence of the text that
      mentions a keyword, and there are at most `maxSentences` of them
      (`KeySentencesInOrder` says which ones and in what order). */
  lemma KeySentencesChosen(text: string, keywords: set<string>, maxSentences: int, i: nat)
    requires i < |SliceTo(Matched(text, keywords), maxSentences)|
    ensures maxSentences >= 0 ==> |SliceTo(Matched(text, keywords), maxSentences)| <= maxSentences
    ensures exists k :: (0 <= k < |SplitSentences(text)| && Mentions(SplitSentences(text)[k], keywords)
      && SliceTo(Matched(text, keywords), maxSentences)[i] == Strip(SplitSentences(text)[k]))
  {
    var sentences := SplitSentences(text);
    var keep := s => Mentions(s, keywords);
    var o := Origins(sentences, keep);
    OriginsMatch(sentences, keep);
    assert SliceTo(Matched(text, keywords), maxSentences)[i] == Matched(text, keywords)[i];
    assert Mentions(sentences[o[i]], keywords);
  }

  /** The first `n` selected sentences (Python's `[:n]`) are the first passing
      sentences of the input, stripped, in their order: the `i`th comes from
      sentence `o[i]`, the origins increase, and every passing sentence before a
      picked one is picked too. */
  lemma {:induction false} PrefixInOrder(sentences: seq<string>, keep: string -> bool, n: int)
    ensures var o := Origins(sentences, keep);
      var picked := SliceTo(Selected(sentences, keep), n);
      && |picked| <= |o|
      && (0 <= n ==> |picked| == if n <= |o| then n else |o|)
      && (forall i :: 0 <= i < |picked| ==>
            o[i] < |sentences| && keep(sentences[o[i]]) && picked[i] == Strip(sentences[o[i]]))
      && (forall i, j :: 0 <= i < j < |picked| ==> o[i] < o[j])
      && (forall i, k :: 0 <= i < |picked| && 0 <= k < o[i] && keep(sentences[k]) ==>
            exists j :: 0 <= j < i && o[j] == k)
  {
    var o := Origins(sentences, keep);
    var picked := SliceTo(Selected(sentences, keep), n);
    SelectedOrigins(sentences, keep);
    forall i, k | 0 <= i < |picked| && 0 <= k < o[i] && keep(sentences[k])
      ensures exists j :: 0 <= j < i && o[j] == k
    {
      var j :| 0 <= j < |o| && o[j] == k;
    }
  }

  /** The joined sentences are the first `maxSentences` sentences of the text that
      mention a keyword, stripped, in the order of the text. */
  lemma KeySentencesInOrder(text: string, keywords: set<string>, maxSentences: int)
    ensures var sentences := SplitSentences(text);
      var o := Origins(sentences, s => Mentions(s, keywords));
      var picked := SliceTo(Matched(text, keywords), maxSentences);
      && |picked| <= |o|
      && (0 <= maxSentences ==> |picked| == if maxSentences <= |o| then maxSentences else |o|)
      && (forall i :: 0 <= i < |picked| ==>
            o[i] < |sentences| && Mentions(sentences[o[i]], keywords) && picked[i] == Strip(sentences[o[i]]))
      && (forall i, j :: 0 <= i < j < |picked| ==> o[i] < o[j])
      && (forall i, k :: 0 <= i < |picked| && 0 <= k < o[i] && Mentions(sentences[k], keywords) ==>
            exists j :: 0 <= j < i && o[j] == k)
  {
    PrefixInOrder(SplitSentences(text), s => Mentions(s, keywords), maxSentences);
  }

  /** "Hi. A beach!" splits after the mark of "Hi.", the space being dropped. */
  lemma SplitExample()
    ensures SplitSentences("Hi. A beach!") == ["Hi.", "A beach!"]
  {
    var s := "Hi. A beach!";
    assert !IsBreak(s, 0) && !IsBreak(s, 1) && !IsBreak(s, 2) && IsBreak(s, 3);
    assert FirstBreakFrom(s, 0) == 3;
    assert !IsSpace(s[4]);
    assert GapEnd(s, 3) == 4;
    assert !IsBreak(s, 4) && !IsBreak(s, 5) && !IsBreak(s, 6) && !IsBreak(s, 7);
    assert !IsBreak(s, 8) && !IsBreak(s, 9) && !IsBreak(s, 10) && !IsBreak(s, 11);
    assert FirstBreakFrom(s, 4) == |s|;
    assert s[4..] == "A beach!" && s[..3] == "Hi.";
    assert SplitFrom(s, 4) == ["A beach!"];
    assert SplitFrom(s, 0) == [s[0..3]] + SplitFrom(s, 4);
  }

  /** "A beach!" mentions "beach" and "Hi." does not. */
  lemma MentionsExample()
    ensures Mentions("A beach!", {"beach"}) && !Mentions("Hi.", {"beach"})
  {
    assert Lower("beach") == "beach";
    assert Lower("Hi.") == "hi.";
    LongerNeverContained("hi.", "beach");
    var second := Lower("A beach!");
    assert second[2..7] == "beach";
    assert OccursAt(second, "beach", 2);
    ContainsMeaning(second, "beach");
  }

  /** Only the second sentence of "Hi. A beach!" mentions "beach", so it alone is
      the result. */
  lemma KeySentenceExample()
    ensures ExtractKeySentences("Hi. A beach!", {"beach"}, 2) == "A beach!"
  {
    SplitExample();
    MentionsExample();
    assert Strip("A beach!") == "A beach!";
    OnlySecondMentions("Hi. A beach!", {"beach"}, "Hi.", "A beach!");
  }

  /** A text of two sentences of which only the second, already stripped,
      mentions a keyword gives that sentence. */
  lemma OnlySecondMentions(text: string, keywords: set<string>, a: string, b: string)
    requires SplitSentences(text) == [a, b] && Strip(b) == b
    requires !Mentions(a, keywords) && Mentions(b, keywords)
    ensures ExtractKeySentences(text, keywords, 2) == b
  {
    var keep := x => Mentions(x, keywords);
    KeepAppend([], a, keep);
    KeepAppend([a], b, keep);
    assert [a] + [b] == [a, b];
  }
}
