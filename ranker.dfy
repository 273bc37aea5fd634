/**
 * `ranker.py`: the score of a section (keywords found in its lowered text, plus
 * 3 for every special phrase in its lowered title) and the ranking, which writes
 * each section's score into the section and returns the sections in a stable
 * descending order of score.
 */
module Ranker {
  import opened Wrappers
  import opened Text
  import opened Sections

  const SpecialPhrases: seq<string> :=
    ["guide", "adventure", "nightlife", "packing", "culinary", "coastal", "experiences"]

  /** What each special phrase found in the title adds. */
  const PhraseBonus := 3

  /** The keywords that occur in the lowered text. The keyword itself is not
      lowered. */
  function KeywordHits(keywords: set<string>, lowered: string): (hits: set<string>)
    ensures hits <= keywords
  {
    set kw | kw in keywords && Contains(lowered, kw)
  }

  /** How many of `phrases` occur in `t`. */
  function PhraseCount(phrases: seq<string>, t: string): (n: nat)
    ensures n <= |phrases|
  {
    if phrases == [] then 0
    else PhraseCount(phrases[..|phrases| - 1], t) + (if Contains(t, phrases[|phrases| - 1]) then 1 else 0)
  }

  /** The title bonus: nothing without a title (None or empty), otherwise 3 for
      every special phrase in the lowered title. */
  function TitleBonus(title: Option<string>): int {
    if title.None? || title.value == "" then 0
    else PhraseBonus * PhraseCount(SpecialPhrases, Lower(title.value))
  }

  /** `score_section(section_text, keywords, section_title)` */
  function Score(text: string, keywords: set<string>, title: Option<string>): int {
    |KeywordHits(keywords, Lower(text))| + TitleBonus(title)
  }

  /** `score_section`: the counting sum, then the bonus loop over the phrases. */
  method ScoreSection(text: string, keywords: set<string>, title: Option<string>) returns (score: int)
    ensures score == Score(text, keywords, title)
  {
    score := |KeywordHits(keywords, Lower(text))|;
    if title.Some? && title.value != "" {
      var titleText := Lower(title.value);
      ghost var base := score;
      for i := 0 to |SpecialPhrases|
        invariant score == base + PhraseBonus * PhraseCount(SpecialPhrases[..i], titleText)
      {
        assert SpecialPhrases[..i + 1][..i] == SpecialPhrases[..i];
        if Contains(titleText, SpecialPhrases[i]) {
          score := score + PhraseBonus;
        }
      }
      assert SpecialPhrases[..|SpecialPhrases|] == SpecialPhrases;
    }
  }

  /** The positions of the phrases that occur in `t`. */
  function Hits(phrases: seq<string>, t: string): set<int> {
    set i | 0 <= i < |phrases| && Contains(t, phrases[i])
  }

  lemma HitsStep(phrases: seq<string>, t: string)
    requires phrases != []
    ensures var n := |phrases| - 1;
      Hits(phrases, t) == Hits(phrases[..n], t) + (if Contains(t, phrases[n]) then {n} else {})
  {
    var n := |phrases| - 1;
    var init := phrases[..n];
    forall x | x in Hits(phrases, t) && x != n ensures x in Hits(init, t) {
      assert init[x] == phrases[x];
    }
    forall x | x in Hits(init, t) ensures x in Hits(phrases, t) {
      assert init[x] == phrases[x];
    }
  }

  /** `PhraseCount` counts the positions of the phrases that occur, so each phrase
      found adds exactly one and the counts of different phrases add up. */
  lemma {:induction false} PhraseCountCounts(phrases: seq<string>, t: string)
    ensures PhraseCount(phrases, t) == |Hits(phrases, t)|
  {
    if phrases != [] {
      var n := |phrases| - 1;
      PhraseCountCounts(phrases[..n], t);
      HitsStep(phrases, t);
      assert n !in Hits(phrases[..n], t);
    }
  }

  lemma SubsetSize<T>(a: set<T>, b: set<T>)
    requires a <= b
    ensures |a| <= |b|
  {
    var d := b - a;
    assert b == a + d;
  }

  /** 0 <= score <= |keywords| + 21: every keyword counts at most once and each of
      the seven phrases adds at most 3. */
  lemma ScoreBounds(text: string, keywords: set<string>, title: Option<string>)
    ensures 0 <= Score(text, keywords, title) <= |keywords| + PhraseBonus * |SpecialPhrases|
  {
    SubsetSize(KeywordHits(keywords, Lower(text)), keywords);
  }

  /** The characters of a substring occur in the string. */
  lemma ContainsChars(s: string, p: string, k: nat)
    requires Contains(s, p) && k < |p|
    ensures p[k] in s
  {
    ContainsMeaning(s, p);
    var i :| OccursAt(s, p, i);
    assert s[i + k] == s[i..i + |p|][k];
  }

  /** A keyword with an upper-case letter never counts, since it is compared with
      the lowered text without being lowered itself. */
  lemma UpperCaseKeywordNeverCounts(text: string, kw: string, k: nat)
    requires k < |kw| && IsUpper(kw[k])
    ensures !Contains(Lower(text), kw)
  {
    if Contains(Lower(text), kw) {
      ContainsChars(Lower(text), kw, k);
    }
  }

  /** In "A beach day" only the lower-case keyword "beach" counts, not "Beach". */
  lemma KeywordHitsExample()
    ensures KeywordHits({"beach", "Beach"}, Lower("A beach day")) == {"beach"}
  {
    var lowered := Lower("A beach day");
    BeachOccurs(lowered);
    UpperCaseKeywordNeverCounts("A beach day", "Beach", 0);
    HitsOfTwo("beach", "Beach", lowered);
  }

  /** Of two keywords, only the one that occurs counts. */
  lemma HitsOfTwo(a: string, b: string, lowered: string)
    requires Contains(lowered, a) && !Contains(lowered, b)
    ensures KeywordHits({a, b}, lowered) == {a}
  {
    assert a in KeywordHits({a, b}, lowered);
  }

  lemma BeachOccurs(lowered: string)
    requires lowered == Lower("A beach day")
    ensures Contains(lowered, "beach")
  {
    assert lowered[2..7] == "beach";
    assert OccursAt(lowered, "beach", 2);
    ContainsMeaning(lowered, "beach");
  }

  /** The title "Guide" holds exactly one special phrase. */
  lemma TitleBonusExample()
    ensures TitleBonus(Some("Guide")) == PhraseBonus
  {
    var t := Lower("Guide");
    assert t == "guide";
    assert StartsWith(t, SpecialPhrases[0]);
    forall i | 1 <= i < |SpecialPhrases| ensures !Contains(t, SpecialPhrases[i]) {
      LongerNeverContained(t, SpecialPhrases[i]);
    }
    assert Hits(SpecialPhrases, t) == {0};
    PhraseCountCounts(SpecialPhrases, t);
  }

  /** One keyword hit and one special phrase in the title: 1 + 3. */
  lemma ScoreExample()
    ensures Score("A beach day", {"beach", "Beach"}, Some("Guide")) == 4
  {
    KeywordHitsExample();
    TitleBonusExample();
  }

  /** Sorting key order: `a` comes before `b` when its score is larger, or when the
      scores are equal and it came first (a stable sort on the negated score). */
  predicate Before(keys: seq<int>, a: nat, b: nat)
    requires a < |keys| && b < |keys|
  {
    keys[a] > keys[b] || (keys[a] == keys[b] && a < b)
  }

  /** `order` lists every index below `n` exactly once. */
  predicate IsIndexPermutation(order: seq<nat>, n: nat) {
    && |order| == n
    && (forall k :: 0 <= k < |order| ==> order[k] < n)
    && (forall j :: 0 <= j < n ==> j in order)
    && (forall p, q :: 0 <= p < q < |order| ==> order[p] != order[q])
  }

  /** `order` is sorted by `Before`. */
  predicate StablyDescending(keys: seq<int>, order: seq<nat>)
    requires forall k :: 0 <= k < |order| ==> order[k] < |keys|
  {
    forall p, q :: 0 <= p < q < |order| ==> Before(keys, order[p], order[q])
  }

  /** The positions `sorted(..., key=lambda x: -x)` takes the keys from: insertion
      of each index after every earlier index whose key is at least as large. */
  method StableOrder(keys: seq<int>) returns (order: seq<nat>)
    ensures IsIndexPermutation(order, |keys|)
    ensures StablyDescending(keys, order)
  {
    order := [];
    for i := 0 to |keys|
      invariant |order| == i
      invariant forall k :: 0 <= k < i ==> order[k] < i
      invariant forall j :: 0 <= j < i ==> j in order
      invariant StablyDescending(keys, order)
    {
      var p := 0;
      while p < |order| && keys[order[p]] >= keys[i]
        invariant p <= |order|
        invariant forall q :: 0 <= q < p ==> keys[order[q]] >= keys[i]
      {
        p := p + 1;
      }
      InsertSorted(keys, order, i, p);
      var next := order[..p] + [i] + order[p..];
      forall j | 0 <= j < i + 1 ensures j in next {
        if j < i {
          assert j in order;
          var k :| 0 <= k < |order| && order[k] == j;
          if k < p { assert next[k] == j; } else { assert next[k + 1] == j; }
        }
      }
      order := next;
    }
    DescendingIsDistinct(keys, order);
  }

  /** Inserting `i`, larger than every index present, after the indices whose key
      is at least its own keeps the order sorted. */
  lemma InsertSorted(keys: seq<int>, order: seq<nat>, i: nat, p: nat)
    requires i < |keys| && p <= |order|
    requires forall k :: 0 <= k < |order| ==> order[k] < i
    requires StablyDescending(keys, order)
    requires forall q :: 0 <= q < p ==> keys[order[q]] >= keys[i]
    requires p < |order| ==> keys[order[p]] < keys[i]
    ensures forall k :: 0 <= k < |order| + 1 ==> (order[..p] + [i] + order[p..])[k] < i + 1
    ensures StablyDescending(keys, order[..p] + [i] + order[p..])
  {
    var next := order[..p] + [i] + order[p..];
    forall q | p <= q < |order| ensures keys[order[q]] < keys[i] {
      if p < q {
        assert Before(keys, order[p], order[q]);
      }
    }
    assert forall k :: 0 <= k < p ==> next[k] == order[k];
    assert forall k :: p < k < |next| ==> next[k] == order[k - 1];
    forall a, b | 0 <= a < b < |next| ensures Before(keys, next[a], next[b]) {
      if b < p {
        assert Before(keys, order[a], order[b]);
      } else if a > p {
        assert Before(keys, order[a - 1], order[b - 1]);
      } else if a < p && b > p {
        assert Before(keys, order[a], order[b - 1]);
      }
    }
  }

  /** The sorted order has no repeated index, so `IsIndexPermutation` needs only
      the cover and the bound. */
  lemma DescendingIsDistinct(keys: seq<int>, order: seq<nat>)
    requires forall k :: 0 <= k < |order| ==> order[k] < |keys|
    requires StablyDescending(keys, order)
    ensures forall p, q :: 0 <= p < q < |order| ==> order[p] != order[q]
  {
    forall p, q | 0 <= p < q < |order| ensures order[p] != order[q] {
      assert Before(keys, order[p], order[q]);
    }
  }

  /** The scores of the sections, in order. */
  function Scores(sections: seq<Section>): seq<int>
    reads set s | s in sections
  {
    seq(|sections|, i reads set s | s in sections requires 0 <= i < |sections| => sections[i].score)
  }

  /** `rank_sections(sections, keywords)`: writes each section's score into it and
      returns the sections in a stable descending order of score; `order` is the
      position in `sections` of each returned section. */
  method RankSections(sections: seq<Section>, keywords: set<string>)
    returns (ranked: seq<Section>, ghost order: seq<nat>)
    modifies set s | s in sections
    ensures forall s :: s in sections ==> s.score == Score(s.text, keywords, Some(s.title))
    ensures IsIndexPermutation(order, |sections|)
    ensures StablyDescending(Scores(sections), order)
    ensures |ranked| == |sections|
    ensures forall k :: 0 <= k < |ranked| ==> ranked[k] == sections[order[k]]
  {
    var unsorted: seq<Section> := [];
    for i := 0 to |sections|
      invariant unsorted == sections[..i]
      invariant forall j :: 0 <= j < i ==>
                  sections[j].score == Score(sections[j].text, keywords, Some(sections[j].title))
    {
      var sec := sections[i];
      var score := ScoreSection(sec.text, keywords, Some(sec.title));
      sec.score := score;
      unsorted := unsorted + [sec];
    }
    assert unsorted == sections;
    var keys := Scores(unsorted);
    var o := StableOrder(keys);
    order := o;
    ranked := seq(|o|, k requires 0 <= k < |o| => unsorted[o[k]]);
  }
}
