# Persona-driven section ranking over PDF outlines: a Dafny model

This project models the core of a batch tool. The tool reads a folder of PDF
documents together with a persona and a job description. It returns the five
document sections most relevant to them, each with a short refined text.
The pipeline has five stages:

- **Outline extraction** (`extract_outline`). Pick a document title from the
  first page's lines: at least three words, large or bold, the boldest and then
  largest wins. Classify every line of every page as a heading of level H1, H2
  or H3, or as no heading. The classifier applies its rules in order: rejection
  of short texts and stop tokens, numbering patterns such as `1.`, `1.1` and
  `1.1.1`, structural keywords, then font size and weight. A heading text that
  was emitted before is dropped.
- **Section bodies** (`get_section_bodies`). Each outline heading gets the text
  of the blocks of its page, from the heading's own block down to the next
  heading on the same page. When that text is empty, the heading text is used.
- **Keywords** (`extract_keywords`). Take the distinct lowered word runs of
  persona and job that are longer than two characters and are not stopwords.
  Add a fixed list of 21 bonus keywords.
- **Ranking** (`rank_sections`). A section scores one point per keyword found in
  its lowered text, plus 3 per special phrase found in its lowered title. The
  score is written into the section. Sections are sorted by score, descending
  and stable.
- **Key sentences** (`extract_key_sentences`). Split the text after `.`, `!` or
  `?` followed by whitespace. Keep the stripped sentences that mention a
  keyword, and join the first two with spaces. When there are none, `main`
  falls back to the first 400 characters of the section text.

The model is split into these modules:

- `Text`: ASCII character classes, `lower`, `strip`, `split`, `\w+` runs and
  substring search.
- `Patterns`: the start-anchored regular expressions of the classifier and the
  title filter. A greedy matcher is proved equal to the backtracking meaning.
- `Layout`: the page content as the PDF library hands it over.
- `Heading`: the classifier.
- `Title`: the title picker, written as a loop.
- `Outline`: the outline builder. It is a nested loop proved to compute the fold
  `Emit` over the document's lines.
- `Filters`: filtering comprehensions and where their elements come from.
- `Sections`: section bodies. `Section` is a class, because the ranker writes the
  score into it in place.
- `Keywords`, `Ranker` and `Summarizer`: the other three stages.
- `Report`: the steps of `main` that connect the stages.

Inputs that the code reads through I/O are parameters of the model:

- the directory listing;
- the PDF pages, as values;
- whether each of the two opens of a file fails;
- persona and job texts.

A PDF file that `get_section_bodies` cannot open raises an exception that
nothing catches, so the run ends without a report. `Report.BuildReport`
returns `None` exactly then.

## Model

| member | source | states |
|---|---|---|
| Text.Lower | persona_job.py:17 | lowering keeps the length and leaves no upper-case letter: each of `A`-`Z` becomes the letter 32 code points above it, every other character is kept |
| Text.ReplaceChar | main.py:52 | `replace('\n', ' ')` keeps the length and leaves no line feed: each line feed becomes a space in its place, every other character is kept |
| Text.StripTrims | extractor_optimized.py:8 | `strip()` returns a slice of the text with only whitespace cut off on either side |
| Text.StripEnds | extractor_optimized.py:8 | a stripped text is empty or starts and ends with a non-whitespace character |
| Text.ContainsMeaning | ranker.py:2 | `p in s` holds exactly when `p` is the slice of `s` at some position |
| Text.LongerNeverContained | ranker.py:2 | a string never contains a longer one |
| Text.RunEnd | persona_job.py:17 | the run of class characters starting at `i` ends right before the first character outside the class |
| Text.RunsSound | persona_job.py:17 | every element of `findall(r'\w+')` / `split()` is a maximal run of the class |
| Text.RunsComplete | persona_job.py:17 | every maximal run of the class is an element of the result |
| Patterns.GreedyIsMatches | extractor_optimized.py:11-16 | for the patterns used, the greedy matcher accepts exactly the strings the regular expression matches at the start |
| Patterns.RepeatTakesLongestRun | extractor_optimized.py:11-16 | a `+` followed by a non-overlapping class can only take the longest run |
| Patterns.MatchesHead | extractor_optimized.py:11 | a start-anchored pattern only matches a text whose first character is in the pattern's first class |
| Patterns.DisjointSound | extractor_optimized.py:11-16 | the disjointness test on character classes is sound |
| Patterns.LiteralMatches | extractor_optimized.py:18-21 | a keyword literal such as `introduction` matches exactly the texts that start with it |
| Heading.NumberingPatternsSeparated | extractor_optimized.py:11-15 | each numbering pattern repeats digits only before a dot or whitespace, so greedy matching is exact for it |
| Heading.NumberingExclusive | extractor_optimized.py:11-16 | no text matches two of `^\d+\.\s`, `^\d+\.\d+\s`, `^\d+\.\d+\.\d+\s`, so the order in which they are tried does not matter |
| Heading.NumberedIsNotRejected | extractor_optimized.py:9-16 | a text matching a numbering pattern is at least 3 characters long and is no stop token |
| Heading.NumberingDecides | extractor_optimized.py:8-16 | a stripped text matching a numbering pattern is H1, H2 or H3 whatever its size, weight, page and position |
| Heading.ShortOrStopTokenRejected | extractor_optimized.py:8-10 | every heading has a stripped text of 3 or more characters that is no stop token in any case |
| Heading.NumberedWordSeparated | extractor_optimized.py:20 | `^(chapter\|section\|part)\s+\d+` repeats whitespace only before a digit, so greedy matching is exact for it |
| Heading.StructuralIsRegex | extractor_optimized.py:17-25 | the keyword test the classifier computes holds exactly when one of the four patterns, read as a regular expression, matches the lowered text |
| Heading.KeywordDecides | extractor_optimized.py:17-29 | an unnumbered text that one of the keyword regular expressions matches is H1 when at 16pt or larger or bold, H2 otherwise |
| Heading.TypographyDecides | extractor_optimized.py:30-38 | with neither a numbering nor a keyword regular expression matching, the level follows the 18 / 14-bold / 13 / 12-bold thresholds, a bold 14pt line being H1 on 0-based pages up to 2 and H2 later |
| Heading.PositionIgnored | extractor_optimized.py:7 | the y position never changes the classification |
| Heading.NumberedExample | extractor_optimized.py:11-12 | "1. Introduction" at 12pt regular is H1 |
| Heading.NoLeadingDigit | extractor_optimized.py:11-16 | a text not starting with a digit matches no numbering pattern |
| Heading.KeywordExamples | extractor_optimized.py:17-29 | "Overview" is H1 at 17pt and H2 at 13pt |
| Heading.ShortExample | extractor_optimized.py:9-10 | "ab" is never a heading |
| Layout.MaxSizeIsMaximum | extractor_optimized.py:50 | the line size is 0 without spans, otherwise the size of some span and no span is larger |
| Layout.PageLinesStep | extractor_optimized.py:43-46 | the lines of a page are those of its blocks in order, image blocks adding none |
| Filters.KeepAppend | summarizer.py:7 | filtering one more element appends it exactly when it passes |
| Filters.OriginsMatch | summarizer.py:7 | every kept element is the element of the input at its origin, and it passes |
| Filters.OriginsIncreasing | summarizer.py:7 | kept elements keep the input order |
| Filters.OriginsCover | summarizer.py:7 | every element that passes is kept |
| Filters.KeepEmpty | summarizer.py:7 | nothing is kept exactly when nothing passes |
| Title.TitleFilterMeaning | extractor_optimized.py:52-56 | the candidate filter is the code's five conditions, with `^\d+\.` read as a regular expression |
| Title.FirstBest | extractor_optimized.py:58-60 | the first element after a stable descending sort on (bold, size) is outranked by none and outranks every earlier one |
| Title.ExtractTitle | extractor_optimized.py:40-61 | the loops return the title function of the page's lines |
| Title.ScanLines | extractor_optimized.py:46-57 | the inner loop appends exactly the passing triples of the block's lines |
| Title.ScanLine | extractor_optimized.py:47-57 | one line gives its (text, size, bold) triple and whether it passes the filter |
| Title.EmptyNotTitleLike | extractor_optimized.py:48-49 | a line without text is never a candidate |
| Title.ScanStep | extractor_optimized.py:46-57 | scanning one more line appends its triple exactly when it passes |
| Title.WordsNonEmpty | extractor_optimized.py:52 | a text of at least one word is not empty |
| Title.PickIsFirstBest | extractor_optimized.py:57-60 | the picked candidate comes from a passing line that no passing line outranks and that outranks every earlier passing line |
| Title.TitleChoice | extractor_optimized.py:40-61 | the title is "" exactly when no line passes the filter; otherwise it is the text of a passing line, boldest, then largest, then earliest |
| Outline.ExtractOutline | extractor_optimized.py:63-101 | the nested loops compute the fold over the document's lines; a file that fails to open gives an empty title and outline |
| Outline.ScanPage | extractor_optimized.py:72-90 | the block loop of a page extends the outline by the fold over the page's lines and keeps the seen set equal to the emitted texts |
| Outline.ScanLines | extractor_optimized.py:76-90 | the line loop of a block extends the outline by the fold over its lines and keeps the seen set equal to the emitted texts |
| Outline.TagStep | extractor_optimized.py:76-90 | one more line is one more step of the fold |
| Outline.EmitFromAppend | extractor_optimized.py:71-90 | folding over two runs of lines is folding over the first, then the second |
| Outline.TagAppend | extractor_optimized.py:71-76 | tagging lines with their page index distributes over concatenation |
| Outline.TextsAppend | extractor_optimized.py:90 | adding an entry adds its text to the seen set |
| Outline.TextsMembers | extractor_optimized.py:78 | a text is seen exactly when some emitted entry has it |
| Outline.EmitDistinct | extractor_optimized.py:78-90 | the outline's texts are pairwise distinct |
| Outline.EmitPrefix | extractor_optimized.py:71-90 | the outline of the lines before position `i` does not depend on later lines |
| Outline.SourcesStep | extractor_optimized.py:78-90 | one more line adds its position to the sources exactly when it adds an entry |
| Outline.SourcesMatch | extractor_optimized.py:83-89 | entry `k` is the entry of the line at source position `k`, which has a level |
| Outline.SourcesAdded | extractor_optimized.py:78-90 | the line of every entry was added at its turn of the scan |
| Outline.SourcesIncreasing | extractor_optimized.py:71-90 | entries keep the scan order of their lines |
| Outline.SourcesComplete | extractor_optimized.py:78-90 | a line gives an entry exactly when its text is non-empty, not emitted before and classified as a heading |
| Outline.SourcesAt | extractor_optimized.py:78-90 | the same for one position |
| Outline.SourcesBelow | extractor_optimized.py:78-90 | every source position lies within the scan |
| Outline.ScanOrderPages | extractor_optimized.py:71-76 | scanned lines carry page indices below the page count, never decreasing |
| Outline.TagPages | extractor_optimized.py:71-88 | each line of a page is tagged with that page's index |
| Outline.OutlinePages | extractor_optimized.py:71-89 | every outline page lies in [1, page count] and pages never decrease along the outline |
| Outline.PagesFromSources | extractor_optimized.py:88 | entries taken in scan order from lines on pages below `n` have pages in [1, n], non-decreasing |
| Outline.OutlineLines | extractor_optimized.py:77-89 | every entry records a line of the document: its non-empty text, the classifier's level for it and its 1-based page |
| Sections.Section.constructor | main.py:53-58 | a new record holds document, title, text and page, and has no score yet |
| Sections.FirstMatchYMeaning | main.py:26-31 | the heading's y is that of the first block whose stripped text equals the heading, and there is none exactly when no block matches |
| Sections.FindY | main.py:26-41 | the search loops compute that first match |
| Sections.StopIndex | main.py:45-50 | the collection stops at the first eligible block at or below the end boundary |
| Sections.CollectTexts | main.py:44-50 | the collection loop appends the eligible texts up to the break |
| Sections.CollectIsPrefix | main.py:45-50 | collecting gives the eligible blocks before the stop and nothing after it: a break, not a filter |
| Sections.EligiblesHas | main.py:46-50 | every eligible block's text is among the eligible texts |
| Sections.HeadingBlockCollected | main.py:27-50 | the heading's own block is collected when the scan has not stopped at or before it |
| Sections.CollectWithoutStart | main.py:47 | when the heading's block is missing, nothing is collected |
| Sections.BodyText | main.py:52-56 | the body is the joined, line-feed-free, stripped text, or the title when that is empty; it is never empty for a non-empty title |
| Sections.MissingHeadingGivesTitle | main.py:26-56 | a heading absent from its page's blocks gets its own text as body |
| Sections.FindBody | main.py:20-56 | one loop turn computes the body of heading `idx` |
| Sections.GetSectionBodies | main.py:10-61 | one fresh, distinct section per heading, in outline order, with the heading's text and page and its body on that page |
| Keywords.KeywordsSound | persona_job.py:8-18 | every keyword has more than two characters, is no stopword, and is a maximal word run of the lowered text |
| Keywords.KeywordsComplete | persona_job.py:17-18 | every such run of the lowered text is a keyword |
| Keywords.KeywordsLowerCase | persona_job.py:17 | no keyword has an upper-case letter |
| Ranker.KeywordHits | ranker.py:2 | the counted keywords are among the keywords |
| Ranker.PhraseCount | ranker.py:7-9 | at most one count per phrase |
| Ranker.ScoreSection | ranker.py:1-10 | the counting sum plus the bonus loop compute the score |
| Ranker.HitsStep | ranker.py:7-9 | one more phrase adds its position exactly when it occurs |
| Ranker.PhraseCountCounts | ranker.py:7-9 | the bonus counts exactly the phrases that occur in the title |
| Ranker.ScoreBounds | ranker.py:1-10 | 0 <= score <= number of keywords + 21 |
| Ranker.ContainsChars | ranker.py:2 | the characters of a substring occur in the string |
| Ranker.UpperCaseKeywordNeverCounts | ranker.py:2 | a keyword with an upper-case letter never occurs in the lowered text |
| Ranker.HitsOfTwo | ranker.py:2 | of two keywords only the one occurring in the lowered text counts |
| Ranker.BeachOccurs | ranker.py:2 | "beach" occurs in the lowered "A beach day" |
| Ranker.KeywordHitsExample | ranker.py:2 | in "A beach day" the keyword "beach" counts and "Beach" does not |
| Ranker.TitleBonusExample | ranker.py:4-9 | the title "Guide" earns one bonus of 3 |
| Ranker.ScoreExample | ranker.py:1-10 | "A beach day" with keywords {"beach", "Beach"} and title "Guide" scores 1 + 3 |
| Ranker.StableOrder | ranker.py:18 | the sort order is a permutation of the positions, by descending score, ties in input order |
| Ranker.InsertSorted | ranker.py:18 | inserting the next position after every position of equal or larger score keeps that order |
| Ranker.DescendingIsDistinct | ranker.py:18 | a sorted order repeats no position |
| Ranker.RankSections | ranker.py:12-18 | every section's score is written in place, and the result is the sections in stable descending order of score |
| Summarizer.FirstBreakFrom | summarizer.py:6 | the first position at or after `i` where `(?<=[.!?])\s+` can match, or the end |
| Summarizer.GapEnd | summarizer.py:6 | the removed whitespace run is the whole run after the mark |
| Summarizer.SplitFrom | summarizer.py:6 | splitting always gives at least one piece |
| Summarizer.SplitSentences | summarizer.py:6 | `re.split` always gives at least one piece |
| Summarizer.RoundTripFrom | summarizer.py:6 | the pieces of `s[i..]` with the removed runs put back give `s[i..]` |
| Summarizer.SplitRoundTrip | summarizer.py:6 | the split loses nothing but the whitespace runs at the breaks: interleaving them back gives the text |
| Summarizer.GapsFromAreWhitespace | summarizer.py:6 | every run removed from `s[i..]` is non-empty whitespace |
| Summarizer.GapsAreWhitespace | summarizer.py:6 | every removed run is non-empty whitespace |
| Summarizer.NoBreakBefore | summarizer.py:6 | a piece ending before the next break holds no break |
| Summarizer.FirstPieceFrom | summarizer.py:6 | the first piece runs up to the first break |
| Summarizer.ConsPiece | summarizer.py:6 | a mark-ended, break-free piece before well-shaped pieces keeps the shape |
| Summarizer.PieceBeforeBreak | summarizer.py:6 | the piece before a break is non-empty, ends with its mark and holds no break |
| Summarizer.PiecesFrom | summarizer.py:6 | the pieces from a resume point have the shape below |
| Summarizer.SplitPieces | summarizer.py:6 | every piece but the last ends with its mark, no piece holds a break, and every later piece starts after the whole whitespace run |
| Summarizer.SelectedOrigins | summarizer.py:7 | the kept sentences are exactly the mentioning sentences, stripped, in the order of the text |
| Summarizer.SliceTo | summarizer.py:8 | Python's `xs[:n]`, including negative `n` |
| Summarizer.NoMentionGivesEmpty | summarizer.py:6-8 | when no sentence mentions a keyword, the result is "" |
| Summarizer.FirstMentionLeads | summarizer.py:6-8 | with room for a sentence, the result starts with the first mentioning sentence, stripped |
| Summarizer.SplitExample | summarizer.py:6 | "Hi. A beach!" splits into "Hi." and "A beach!" |
| Summarizer.MentionsExample | summarizer.py:7 | "A beach!" mentions "beach" and "Hi." does not |
| Summarizer.OnlySecondMentions | summarizer.py:6-8 | a two-sentence text whose second, already stripped sentence alone mentions a keyword gives that sentence |
| Summarizer.KeySentenceExample | summarizer.py:6-8 | the key sentences of "Hi. A beach!" for "beach" are "A beach!" |
| Summarizer.JoinStartsWithFirst | summarizer.py:8 | a join starts with its first part |
| Summarizer.KeySentencesChosen | summarizer.py:6-8 | every joined sentence is a stripped mentioning sentence of the text, and at most `max_sentences` are joined |
| Summarizer.PrefixInOrder | summarizer.py:7-8 | `[:n]` of the kept sentences is the first min(n, count) passing sentences, stripped, in text order, with no passing sentence skipped before a picked one |
| Summarizer.KeySentencesInOrder | summarizer.py:6-8 | the joined sentences are the first min(max_sentences, count) sentences that mention a keyword, stripped, in the order of the text |
| Report.ReportKeywordsMeaning | main.py:78-84 | a keyword is a bonus keyword, or a maximal word run of the lowered `persona + " " + job` that is longer than two characters, lower-case and no stopword |
| Report.ReportKeywordsComplete | main.py:78-84 | every bonus keyword and every persona/job keyword is used |
| Report.FallbackCut | main.py:95 | `text[:400]` takes 400 characters, or the whole shorter text |
| Report.RefinedTextEmpty | main.py:93-95 | the refined text is empty exactly when the section text is |
| Report.NoMentionGivesHead | main.py:93-95 | a section mentioning no keyword gets the first 400 characters of its text |
| Report.FirstMentionGivesKeySentences | main.py:93-95 | a section whose first mentioning sentence is not blank gets its key sentences, led by that sentence |
| Report.AnalyseSection | main.py:92-100 | one loop turn gives the section's document, page and refined text |
| Report.AnalyseSections | main.py:91-100 | one analysis entry per top section, in order |
| Report.HeadingsInRange | main.py:73-74 | every heading of the outline of a file that the section step can open lies on one of its pages, so its body can be read |
| Report.RecordsFor | main.py:10-61 | one record per heading |
| Report.SectionsAreRecords | main.py:53-58 | the sections returned hold the records of the headings, one to one |
| Report.AppendRecords | main.py:74 | extending the section list appends the records |
| Report.AllRecordsFail | main.py:16 | the run ends with an exception exactly when some PDF file of the listing cannot be opened by the section step |
| Report.AllRecordsStep | main.py:70-74 | one more file of the listing adds its records when its name ends in ".pdf", in any case, and ends the run when that file cannot be opened |
| Report.FileSections | main.py:72-74 | one file gives fresh, distinct, unscored sections holding its records, or `None` exactly when the open at main.py:16 fails |
| Report.CollectSections | main.py:69-74 | step 1 collects fresh, distinct, unscored sections holding the records of every PDF file, file after file, or `None` exactly when the run ends with an exception |
| Report.BuildReport | main.py:69-118 | no report exactly when a PDF file cannot be opened for its sections; otherwise the sections are scored against the report keywords and ranked stably, and the report holds the best min(5, count), ranked from 1, each with its refined text |
| Report.ReportTop | main.py:88-118 | the first five ranked sections, numbered from 1, with their refined texts |
| Report.TopAreBest | main.py:87-88 | a section ranked earlier scored at least as much as one ranked later, and ties keep the input order |

## Left out

- Reading PDFs is not modelled: PyMuPDF, file opening and page decoding are
  outside the model. The pages are given as values (`Layout`). An exception
  while the outline is extracted (opening or reading) is the `ReadError` case,
  which the code catches. A failing open in the section step is a `None`
  page list, which ends the run.
- `load_persona_and_job`, file reading, the output JSON, its `metadata` block
  (document list, persona, job, timestamp) and the messages printed are I/O.
  They are left out.
- The standalone `__main__` block of the extractor (per-file JSON output) is
  I/O and is left out.
- Text handling is ASCII only. Whitespace is the set of ASCII characters
  Python's `isspace()` accepts, `\w` is ASCII letters, digits and `_`, and
  `lower()` maps `A`-`Z` only. Non-ASCII letters and Unicode whitespace are not
  modelled.
- Font sizes are `real`, not floating point.
- `Keywords.ExtractKeywords`: returns the set of keywords and not the list the
  code builds from a set, because that list's order depends on set iteration
  order.
- Keyword set iteration order does not matter anywhere in the pipeline: scores
  count keywords and sentences are kept if any keyword matches.
- `Sections.Section.constructor`: a section starts with score 0. The code's
  record has no score key until ranking; nothing reads it before then.
- The `document` of a section is taken as given. `os.path.basename` and the
  path join are not modelled.
- `Sections.GetSectionBodies`: requires every heading page to lie in
  [1, page count]. The code would raise on a larger page and use negative
  indexing on page 0. `Report.HeadingsInRange` shows that every outline the
  extractor produces meets this when both readings of a file see the same pages.
- `Report.Consistent`: when both opens of a file succeed, they are taken to
  see the same number of pages.
- The outline builder is proved for any classifier passed to it, and
  `ExtractOutline` passes `Heading.Classify`. Examples of literal
  classifications are limited to the three in `Heading`.
- The directory listing is a parameter and is taken as already sorted; the
  sort itself is not modelled.
- Three details of the code that the model keeps as they are:
  - The classifier's page argument is the 0-based page index
    (extractor_optimized.py:71-88), so a bold 14pt line is H1 on the first
    three pages.
  - The structural keyword patterns are anchored with `^`, so they only match
    at the start of the lowered text.
  - The numbering patterns are tried H1, then H2, then H3.
    `Heading.NumberingExclusive` shows that this order decides nothing.
