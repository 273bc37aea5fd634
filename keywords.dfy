/**
 * `extract_keywords` of `persona_job.py`: the distinct runs of word characters of
 * the lowered text that are longer than two characters and not stopwords.
 * The code returns them as a list built from a set, in no particular order, so
 * the model returns the set.
 */
module Keywords {
  import opened Text

  const Stopwords: set<string> := {
    "the", "and", "for", "this", "with", "are", "that", "from", "can",
    "not", "all", "but", "has", "will", "use", "you", "etc", "per", "who",
    "a", "of", "in", "to", "on", "is", "by", "an", "as", "at", "it", "be",
    "or"
  }

  /** Keywords are longer than this. */
  const MinKeywordLength := 2

  /** `extract_keywords(text)` */
  function ExtractKeywords(text: string): set<string> {
    set w | w in Runs(Lower(text), Word) && w !in Stopwords && |w| > MinKeywordLength
  }

  /** Every keyword is longer than two characters, is not a stopword, and is a
      maximal run of word characters of the lowered text, so it holds no
      whitespace or punctuation. */
  lemma KeywordsSound(text: string, w: string)
    requires w in ExtractKeywords(text)
    ensures |w| > MinKeywordLength && w !in Stopwords
    ensures forall k :: 0 <= k < |w| ==> IsWordChar(w[k])
    ensures exists i, j :: IsMaximalRun(Lower(text), i, j, Word) && Lower(text)[i..j] == w
  {
    RunsSound(Lower(text), Word, w);
    var i, j :| IsMaximalRun(Lower(text), i, j, Word) && Lower(text)[i..j] == w;
    assert forall k :: 0 <= k < |w| ==> w[k] == Lower(text)[i + k];
  }

  /** Every maximal run of word characters of the lowered text that is longer than
      two characters and is not a stopword is a keyword. */
  lemma KeywordsComplete(text: string, i: int, j: int)
    requires IsMaximalRun(Lower(text), i, j, Word)
    requires j - i > MinKeywordLength && Lower(text)[i..j] !in Stopwords
    ensures Lower(text)[i..j] in ExtractKeywords(text)
  {
    RunsComplete(Lower(text), Word, i, j);
  }

  /** No keyword has an upper-case letter. */
  lemma KeywordsLowerCase(text: string, w: string)
    requires w in ExtractKeywords(text)
    ensures forall k :: 0 <= k < |w| ==> !IsUpper(w[k])
  {
    RunsSound(Lower(text), Word, w);
    var i, j :| IsMaximalRun(Lower(text), i, j, Word) && Lower(text)[i..j] == w;
    assert forall k :: 0 <= k < |w| ==> w[k] == Lower(text)[i + k];
  }
}
