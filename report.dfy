/**
 * The pipeline of `main` in `main.py`: collect the sections of every PDF of the
 * input listing, build the keyword set (persona and job keywords plus a fixed
 * bonus list), rank the sections, keep the best five, number them from 1 and
 * give each a refined text (its key sentences, or the head of its text when it
 * has none).
 */
module Report {
  import opened Wrappers
  import opened Text
  import opened Outline
  import opened Sections
  import opened Keywords
  import opened Ranker
  import opened Summarizer

  const BonusKeywords: seq<string> := [
    "guide", "coastal", "adventure", "nightlife", "culinary", "experiences", "packing", "activities",
    "things to do", "restaurants", "hotels", "entertainment", "culture", "friends", "group", "tips",
    "trip", "planning", "must-see", "recommendations", "itinerary"
  ]

  /** How many ranked sections the report keeps. */
  const TopCount := 5
  /** How many key sentences a refined text holds at most. */
  const KeySentenceCount := 2
  /** How much of the section text the fallback refined text takes. */
  const FallbackLength := 400

  /** `set(extract_keywords(persona + " " + job)) | set(bonus_keywords)` */
  function ReportKeywords(persona: string, job: string): set<string> {
    ExtractKeywords(persona + " " + job) + set w | w in BonusKeywords
  }

  /** A keyword of the report is a bonus keyword, or a lower-case word of the
      persona or the job that is longer than two characters and not a stopword. */
  lemma ReportKeywordsMeaning(persona: string, job: string, w: string)
    requires w in ReportKeywords(persona, job)
    ensures w in BonusKeywords || (|w| > MinKeywordLength && w !in Stopwords)
    ensures w !in BonusKeywords ==> forall k :: 0 <= k < |w| ==> IsWordChar(w[k]) && !IsUpper(w[k])
    ensures w !in BonusKeywords ==>
      exists i, j :: IsMaximalRun(Lower(persona + " " + job), i, j, Word) && Lower(persona + " " + job)[i..j] == w
  {
    if w !in BonusKeywords {
      KeywordsSound(persona + " " + job, w);
      KeywordsLowerCase(persona + " " + job, w);
    }
  }

  /** Every bonus keyword and every keyword of the persona and job is used. */
  lemma ReportKeywordsComplete(persona: string, job: string, w: string)
    requires w in BonusKeywords || w in ExtractKeywords(persona + " " + job)
    ensures w in ReportKeywords(persona, job)
  {
  }

  /** The length of the fallback: `text[:400]`. */
  function FallbackCut(text: string): (n: nat)
    ensures n <= |text| && n <= FallbackLength
    ensures n < FallbackLength ==> n == |text|
  {
    if |text| < FallbackLength then |text| else FallbackLength
  }

  /** The refined text of a section: its key sentences, or the first 400
      characters of its text when that is "". */
  function RefinedText(text: string, keywords: set<string>): string {
    var summary := ExtractKeySentences(text, keywords, KeySentenceCount);
    if summary != "" then summary else text[..FallbackCut(text)]
  }

  /** The refined text is empty exactly when the section text is. */
  lemma RefinedTextEmpty(text: string, keywords: set<string>)
    ensures RefinedText(text, keywords) == "" <==> text == ""
  {
    if text == "" {
      assert FirstBreakFrom(text, 0) == 0;
      assert SplitSentences(text) == [""];
      var keep := s => Mentions(s, keywords);
      assert Selected([""], keep) == Selected([], keep) + (if keep("") then [Strip("")] else []);
      assert Strip("") == "";
    }
  }

  /** A section whose sentences mention no keyword gets the head of its text. */
  lemma NoMentionGivesHead(text: string, keywords: set<string>)
    requires forall k :: 0 <= k < |SplitSentences(text)| ==> !Mentions(SplitSentences(text)[k], keywords)
    ensures RefinedText(text, keywords) == text[..FallbackCut(text)]
  {
    NoMentionGivesEmpty(text, keywords, KeySentenceCount);
  }

  /** A section whose first sentence mentioning a keyword is not blank gets its key
      sentences, led by that sentence. */
  lemma FirstMentionGivesKeySentences(text: string, keywords: set<string>, k: nat)
    requires k < |SplitSentences(text)| && Mentions(SplitSentences(text)[k], keywords)
    requires forall j :: 0 <= j < k ==> !Mentions(SplitSentences(text)[j], keywords)
    requires Strip(SplitSentences(text)[k]) != ""
    ensures RefinedText(text, keywords) == ExtractKeySentences(text, keywords, KeySentenceCount)
    ensures StartsWith(RefinedText(text, keywords), Strip(SplitSentences(text)[k]))
  {
    FirstMentionLeads(text, keywords, KeySentenceCount, k);
  }

  /** An entry of `extracted_sections`. */
  datatype ExtractedSection = ExtractedSection(document: string, sectionTitle: string, importanceRank: int, pageNumber: int)

  /** An entry of `subsection_analysis`. */
  datatype SubsectionAnalysis = SubsectionAnalysis(document: string, refinedText: string, pageNumber: int)

  /** The `extracted_sections` comprehension: the top sections numbered from 1. */
  function ExtractedSections(top: seq<Section>): seq<ExtractedSection> {
    seq(|top|, i requires 0 <= i < |top| => ExtractedSection(top[i].document, top[i].title, i + 1, top[i].page))
  }

  /** `a` is the entry of `subsection_analysis` for section `s`. */
  predicate IsAnalysisOf(a: SubsectionAnalysis, s: Section, keywords: set<string>)
    reads s
  {
    a == SubsectionAnalysis(s.document, RefinedText(s.text, keywords), s.page)
  }

  /** The entry for one section: its key sentences, or the head of its text when
      there are none. */
  method AnalyseSection(sec: Section, keywords: set<string>) returns (a: SubsectionAnalysis)
    ensures IsAnalysisOf(a, sec, keywords)
  {
    var refined := ExtractKeySentences(sec.text, keywords, KeySentenceCount);
    if refined == "" {
      refined := sec.text[..FallbackCut(sec.text)];
    }
    a := SubsectionAnalysis(sec.document, refined, sec.page);
  }

  /** The loop that builds `subsection_analysis`. */
  method AnalyseSections(top: seq<Section>, keywords: set<string>) returns (analysis: seq<SubsectionAnalysis>)
    ensures |analysis| == |top|
    ensures forall i :: 0 <= i < |top| ==> IsAnalysisOf(analysis[i], top[i], keywords)
  {
    analysis := [];
    for i := 0 to |top|
      invariant |analysis| == i
      invariant forall j :: 0 <= j < i ==> IsAnalysisOf(analysis[j], top[j], keywords)
    {
      var a := AnalyseSection(top[i], keywords);
      analysis := analysis + [a];
    }
  }

  /** A file of the input listing: its name, what opening and reading it for the
      outline gives, and what opening it again for the section bodies gives: the
      blocks of its pages, or `None` when that `fitz.open` raises. */
  datatype PdfFile = PdfFile(name: string, doc: PdfRead, blocks: Option<BlockPages>)

  /** `pdf_file.lower().endswith(".pdf")` */
  predicate IsPdfName(name: string) {
    EndsWith(Lower(name), ".pdf")
  }

  /** Both readings of a file that opens twice see the same pages. */
  predicate Consistent(f: PdfFile) {
    f.doc.Read? && f.blocks.Some? ==> |f.doc.pages| == |f.blocks.value|
  }

  /** A PDF file of the listing that the section step cannot open: the exception
      raised by `get_section_bodies` is not caught, so the run ends there. */
  predicate Fails(f: PdfFile) {
    IsPdfName(f.name) && f.blocks.None?
  }

  /** Every heading of the outline of a consistent file lies on one of the pages
      the section step reads. */
  lemma HeadingsInRange(f: PdfFile)
    requires Consistent(f) && f.blocks.Some?
    ensures forall i :: 0 <= i < |OutlineOf(f.doc).outline| ==>
      1 <= OutlineOf(f.doc).outline[i].page <= |f.blocks.value|
  {
    if f.doc.Read? {
      OutlinePages(f.doc.pages, Heading.Classify);
    }
  }

  /** What a section record holds, apart from its score. */
  datatype SectionRecord = SectionRecord(document: string, title: string, text: string, page: int)

  predicate IsRecordOf(s: Section, r: SectionRecord) {
    s.document == r.document && s.title == r.title && s.text == r.text && s.page == r.page
  }

  /** Every heading lies on one of the pages. */
  predicate OnPages(headings: seq<Entry>, pages: BlockPages) {
    forall i :: 0 <= i < |headings| ==> 1 <= headings[i].page <= |pages|
  }

  /** The records `get_section_bodies` makes for a document with these headings:
      one per heading, in outline order. */
  function RecordsFor(document: string, pages: BlockPages, headings: seq<Entry>): (rs: seq<SectionRecord>)
    requires OnPages(headings, pages)
    ensures |rs| == |headings|
  {
    seq(|headings|, i requires 0 <= i < |headings| =>
      SectionRecord(document, headings[i].text, SectionBody(pages[headings[i].page - 1], headings, i), headings[i].page))
  }

  /** The sections of one file that opens: one per heading of its outline. */
  function FileRecords(f: PdfFile): (rs: seq<SectionRecord>)
    requires Consistent(f) && f.blocks.Some?
  {
    HeadingsInRange(f);
    RecordsFor(f.name, f.blocks.value, OutlineOf(f.doc).outline)
  }

  /** The records after one more file of the listing: unchanged for a file that
      is not a PDF, none at all once a PDF file could not be opened. */
  function AddFile(before: Option<seq<SectionRecord>>, f: PdfFile): Option<seq<SectionRecord>>
    requires Consistent(f)
  {
    if !IsPdfName(f.name) then before
    else if before.None? || f.blocks.None? then None
    else Some(before.value + FileRecords(f))
  }

  /** The sections of all PDF files of the listing, file after file, or `None`
      when the run ends with an exception. */
  function AllRecords(files: seq<PdfFile>): Option<seq<SectionRecord>>
    requires forall i :: 0 <= i < |files| ==> Consistent(files[i])
  {
    if files == [] then Some([])
    else AddFile(AllRecords(files[..|files| - 1]), files[|files| - 1])
  }

  /** The run ends with an exception exactly when some PDF file of the listing
      cannot be opened by the section step. */
  lemma {:induction false} AllRecordsFail(files: seq<PdfFile>)
    requires forall i :: 0 <= i < |files| ==> Consistent(files[i])
    ensures AllRecords(files).None? <==> exists i :: 0 <= i < |files| && Fails(files[i])
  {
    if files != [] {
      var n := |files| - 1;
      var init := files[..n];
      AllRecordsFail(init);
      assert forall i :: 0 <= i < n ==> init[i] == files[i];
      if Fails(files[n]) {
        assert AllRecords(files).None?;
      } else if AllRecords(files).None? {
        assert AllRecords(init).None?;
        var i :| 0 <= i < n && Fails(init[i]);
        assert Fails(files[i]);
      }
    }
  }

  /** The sections hold the records, one to one and in order. */
  predicate AreRecords(sections: seq<Section>, rs: seq<SectionRecord>)
    reads set s | s in sections
  {
    |sections| == |rs| && forall i :: 0 <= i < |sections| ==> IsRecordOf(sections[i], rs[i])
  }

  /** The sections `get_section_bodies` returns are the records of the headings. */
  lemma SectionsAreRecords(document: string, pages: BlockPages, headings: seq<Entry>, sections: seq<Section>)
    requires OnPages(headings, pages) && |sections| == |headings|
    requires forall i :: 0 <= i < |sections| ==> IsSectionFor(sections[i], document, pages, headings, i)
    ensures AreRecords(sections, RecordsFor(document, pages, headings))
  {
  }

  /** Sections of two runs, one after the other, hold the records of both. */
  lemma AppendRecords(a: seq<Section>, ra: seq<SectionRecord>, b: seq<Section>, rb: seq<SectionRecord>)
    requires AreRecords(a, ra) && AreRecords(b, rb)
    ensures AreRecords(a + b, ra + rb)
  {
    forall i | 0 <= i < |a + b| ensures IsRecordOf((a + b)[i], (ra + rb)[i]) {
      if i >= |a| {
        assert (a + b)[i] == b[i - |a|];
      }
    }
  }

  /** One more file of the listing is one more step of `AddFile`. */
  lemma AllRecordsStep(files: seq<PdfFile>, f: nat)
    requires f < |files| && forall i :: 0 <= i < |files| ==> Consistent(files[i])
    ensures AllRecords(files[..f + 1]) == AddFile(AllRecords(files[..f]), files[f])
  {
    assert files[..f + 1][..f] == files[..f];
  }

  /** Step 1 of `main`: the sections of every PDF file of the (sorted) listing, or
      `None` when a PDF file cannot be opened and the run ends. */
  method CollectSections(files: seq<PdfFile>) returns (all: Option<seq<Section>>)
    requires forall i :: 0 <= i < |files| ==> Consistent(files[i])
    ensures all.None? <==> AllRecords(files).None?
    ensures all.Some? ==> AreRecords(all.value, AllRecords(files).value)
    ensures all.Some? ==> forall i :: 0 <= i < |all.value| ==> fresh(all.value[i]) && all.value[i].score == 0
    ensures all.Some? ==> forall i, j :: 0 <= i < j < |all.value| ==> all.value[i] != all.value[j]
  {
    var sections: seq<Section> := [];
    for f := 0 to |files|
      invariant AllRecords(files[..f]).Some?
      invariant AreRecords(sections, AllRecords(files[..f]).value)
      invariant forall i :: 0 <= i < |sections| ==> fresh(sections[i]) && sections[i].score == 0
      invariant forall i, j :: 0 <= i < j < |sections| ==> sections[i] != sections[j]
    {
      var file := files[f];
      AllRecordsStep(files, f);
      if IsPdfName(file.name) {
        var found := FileSections(file);
        if found.None? {
          AllRecordsFail(files);
          assert Fails(files[f]);
          return None;
        }
        AppendRecords(sections, AllRecords(files[..f]).value, found.value, FileRecords(file));
        sections := sections + found.value;
      }
    }
    assert files[..|files|] == files;
    all := Some(sections);
  }

  /** The body of the loop of step 1 for one PDF file: its outline, then the
      sections of the outline's headings; `None` when `get_section_bodies` cannot
      open the file. */
  method FileSections(file: PdfFile) returns (sections: Option<seq<Section>>)
    requires Consistent(file)
    ensures sections.None? <==> file.blocks.None?
    ensures sections.Some? ==> AreRecords(sections.value, FileRecords(file))
    ensures sections.Some? ==> forall i :: 0 <= i < |sections.value| ==>
      fresh(sections.value[i]) && sections.value[i].score == 0
    ensures sections.Some? ==> forall i, j :: 0 <= i < j < |sections.value| ==>
      sections.value[i] != sections.value[j]
  {
    var outline := ExtractOutline(file.doc);
    var headings := outline.outline;
    if file.blocks.None? {
      return None;
    }
    var pages := file.blocks.value;
    HeadingsInRange(file);
    assert OnPages(headings, pages);
    var found := GetSectionBodies(file.name, pages, headings);
    SectionsAreRecords(file.name, pages, headings, found);
    sections := Some(found);
  }

  /** The report's two lists: `extracted_sections` and `subsection_analysis`. */
  datatype Output = Output(extracted: seq<ExtractedSection>, analysis: seq<SubsectionAnalysis>)

  /** `main` from the input listing on: collect the sections, rank them against
      the report keywords, keep the best five and build both lists of the report;
      `None` when the run ends with an exception before writing a report. `all`
      are the collected sections, `ranked` all of them in rank order and `order`
      the position in `all` of each ranked section. */
  method BuildReport(files: seq<PdfFile>, persona: string, job: string)
    returns (report: Option<Output>, ghost all: seq<Section>, ghost ranked: seq<Section>, ghost order: seq<nat>)
    requires forall i :: 0 <= i < |files| ==> Consistent(files[i])
    ensures report.None? <==> exists i :: 0 <= i < |files| && Fails(files[i])
    ensures report.Some? ==> AllRecords(files).Some? && AreRecords(all, AllRecords(files).value)
    ensures report.Some? ==> forall i :: 0 <= i < |all| ==> fresh(all[i])
    ensures report.Some? ==> forall s :: s in all ==> s.score == Score(s.text, ReportKeywords(persona, job), Some(s.title))
    ensures report.Some? ==> IsIndexPermutation(order, |all|) && StablyDescending(Scores(all), order)
    ensures report.Some? ==> |ranked| == |all| && forall k :: 0 <= k < |ranked| ==> ranked[k] == all[order[k]]
    ensures report.Some? ==>
      |report.value.extracted| == |report.value.analysis| == if |all| < TopCount then |all| else TopCount
    ensures report.Some? ==> forall i :: 0 <= i < |report.value.extracted| ==>
      report.value.extracted[i] == ExtractedSection(ranked[i].document, ranked[i].title, i + 1, ranked[i].page)
    ensures report.Some? ==> forall i :: 0 <= i < |report.value.analysis| ==>
      IsAnalysisOf(report.value.analysis[i], ranked[i], ReportKeywords(persona, job))
  {
    AllRecordsFail(files);
    var collected := CollectSections(files);
    if collected.None? {
      return None, [], [], [];
    }
    var sections := collected.value;
    all := sections;
    var keywords := ReportKeywords(persona, job);
    var r;
    r, order := RankSections(sections, keywords);
    ranked := r;
    var extracted, analysis := ReportTop(r, keywords);
    report := Some(Output(extracted, analysis));
  }

  /** Steps 4 and 5 of `main`: the best five ranked sections, numbered from 1, and
      their refined texts. */
  method ReportTop(ranked: seq<Section>, keywords: set<string>)
    returns (extracted: seq<ExtractedSection>, analysis: seq<SubsectionAnalysis>)
    ensures |extracted| == |analysis| == if |ranked| < TopCount then |ranked| else TopCount
    ensures forall i :: 0 <= i < |extracted| ==>
      extracted[i] == ExtractedSection(ranked[i].document, ranked[i].title, i + 1, ranked[i].page)
    ensures forall i :: 0 <= i < |analysis| ==> IsAnalysisOf(analysis[i], ranked[i], keywords)
  {
    var top := ranked[..if |ranked| < TopCount then |ranked| else TopCount];
    analysis := AnalyseSections(top, keywords);
    extracted := ExtractedSections(top);
  }

  /** Every section left out of the report scored no more than each section in
      it, and a section in it scored at least as much as every section ranked
      after it. */
  lemma TopAreBest(all: seq<Section>, ranked: seq<Section>, order: seq<nat>, i: nat, j: nat)
    requires IsIndexPermutation(order, |all|) && StablyDescending(Scores(all), order)
    requires |ranked| == |all| && forall k :: 0 <= k < |ranked| ==> ranked[k] == all[order[k]]
    requires i < j < |ranked|
    ensures ranked[i].score >= ranked[j].score
    ensures ranked[i].score == ranked[j].score ==> order[i] < order[j]
  {
    assert Before(Scores(all), order[i], order[j]);
  }
}
