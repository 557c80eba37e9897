/** The mock analysis service: length-based scoring with a random choice of
    suggestions, the sentence-transition "humanizer", and the dispatch of an
    uploaded file to the plain-text, PDF or Word-document extractor.

    The random sources are parameters: `order` is the permutation of the
    suggestion pool the shuffle produced, and `picks[i]` is the transition
    index `Math.floor(Math.random() * 5)` drawn for sentence `i` (entries for
    sentences that get no transition are ignored). The PDF and Word-document
    libraries are represented by what they would extract from the file. */
module MockAiService {
  import opened Wrappers
  import opened Strings
  import opened Types

  // ---------------------------------------------------------------------------
  // analyzeContent
  // ---------------------------------------------------------------------------

  const SuggestionPool: seq<string> := [
    "Use more active verbs to describe your achievements.",
    "Include specific metrics (e.g., 'increased revenue by 20%') to ground your claims.",
    "Vary your sentence structure to avoid a robotic rhythm.",
    "Inject more personal voice when describing your career objectives.",
    "Replace generic buzzwords with specific industry terminology.",
    "Focus on 'storytelling' for your major projects rather than just listing tasks."
  ]

  /** How many suggestions one analysis reports. */
  const SuggestionCount: nat := 3

  /** The file name `analyzeContent` uses when it is given none. */
  const DefaultFileName: string := "Raw Text"

  /** `order` is a permutation of the pool's indices: the outcome of sorting a
      copy of the pool with a random comparator. */
  predicate IsShuffle(order: seq<int>) {
    && |order| == |SuggestionPool|
    && (forall i :: 0 <= i < |order| ==> 0 <= order[i] < |SuggestionPool|)
    && (forall i, j :: 0 <= i < j < |order| ==> order[i] != order[j])
  }

  lemma PoolDistinct()
    ensures forall i, j :: 0 <= i < j < |SuggestionPool| ==> SuggestionPool[i] != SuggestionPool[j]
  {
    var p := SuggestionPool;
    // The six suggestions have six different lengths.
    assert |p[0]| == 52 && |p[1]| == 82 && |p[2]| == 55;
    assert |p[3]| == 66 && |p[4]| == 61 && |p[5]| == 79;
  }

  /** The first three entries of the shuffled pool, in shuffle order. */
  function PickSuggestions(order: seq<int>): (r: seq<string>)
    requires IsShuffle(order)
    ensures |r| == SuggestionCount
    ensures forall k :: 0 <= k < |r| ==> r[k] in SuggestionPool
    ensures forall i, j :: 0 <= i < j < |r| ==> r[i] != r[j]
  {
    PoolDistinct();
    [SuggestionPool[order[0]], SuggestionPool[order[1]], SuggestionPool[order[2]]]
  }

  function MinReal(a: real, b: real): real {
    if a <= b then a else b
  }

  /** The AI probability of a text of `len` characters: `Math.floor` of
      `min(95, 40 + (len % 100) / 2)` above 500 characters (a real division),
      and of `min(90, 20 + len % 100)` otherwise. */
  function AiProbability(len: nat): (p: int)
    ensures 20 <= p <= 90
    ensures len > 500 ==> 40 <= p
  {
    var pseudoRandom := len % 100;
    var aiProb: real :=
      if len > 500 then MinReal(95.0, 40.0 + pseudoRandom as real / 2.0)
      else MinReal(90.0, 20.0 + pseudoRandom as real);
    assert len > 500 ==> 40.0 <= aiProb < 90.0;
    assert len <= 500 ==> 20.0 <= aiProb <= 90.0;
    aiProb.Floor
  }

  /** The score in integer terms: above 500 characters it is
      `40 + (len % 100) / 2` (so the cap of 95 never binds), otherwise
      `min(90, 20 + len % 100)`; either way it lies in [20, 90]. */
  lemma AiProbabilityClosedForm(len: nat)
    ensures len > 500 ==> AiProbability(len) == 40 + (len % 100) / 2
    ensures len > 500 ==> 40 <= AiProbability(len) <= 89
    ensures len <= 500 ==> AiProbability(len) == if 20 + len % 100 < 90 then 20 + len % 100 else 90
    ensures 20 <= AiProbability(len) <= 90
  {
    var pr := len % 100;
    if len > 500 {
      var h := pr / 2;
      assert pr == 2 * h + pr % 2;
      var x := 40.0 + pr as real / 2.0;
      assert x == (40 + h) as real + (pr % 2) as real / 2.0;
      assert x < 95.0;
      assert MinReal(95.0, x) == x;
      assert x.Floor == 40 + h;
    } else {
      var x := 20.0 + pr as real;
      assert x == (20 + pr) as real;
    }
  }

  /** `analyzeContent(text, fileName)` with the random and clock inputs given:
      the scores are fixed by the text's length and always sum to 100. */
  function Analyze(text: string, fileName: Option<string>, id: string, now: int, order: seq<int>): (r: AnalysisResult)
    requires IsShuffle(order)
    ensures r.aiProbability + r.humanProbability == 100
    ensures 20 <= r.aiProbability <= 90 && 10 <= r.humanProbability <= 80
    ensures |text| > 500 ==> r.aiProbability == 40 + (|text| % 100) / 2
    ensures |text| <= 500 ==> r.aiProbability == if 20 + |text| % 100 < 90 then 20 + |text| % 100 else 90
    ensures |r.suggestions| == SuggestionCount
    ensures forall k :: 0 <= k < |r.suggestions| ==> r.suggestions[k] in SuggestionPool
    ensures forall i, j :: 0 <= i < j < |r.suggestions| ==> r.suggestions[i] != r.suggestions[j]
    ensures forall k :: 0 <= k < |r.suggestions| ==> r.suggestions[k] == SuggestionPool[order[k]]
    ensures r.id == id && r.timestamp == now && r.originalText == text
    ensures r.fileName == Some(fileName.GetOr(DefaultFileName)) && r.humanizedText == None
  {
    AiProbabilityClosedForm(|text|);
    var ai := AiProbability(|text|);
    AnalysisResult(id, Some(fileName.GetOr(DefaultFileName)), text, ai, 100 - ai, now,
                   PickSuggestions(order), None)
  }

  /** Texts of equal length get equal scores, whatever their content. */
  lemma ScoreDependsOnlyOnLength(a: string, b: string, fa: Option<string>, fb: Option<string>,
                                 ida: string, idb: string, ta: int, tb: int, oa: seq<int>, ob: seq<int>)
    requires IsShuffle(oa) && IsShuffle(ob)
    requires |a| == |b|
    ensures Analyze(a, fa, ida, ta, oa).aiProbability == Analyze(b, fb, idb, tb, ob).aiProbability
    ensures Analyze(a, fa, ida, ta, oa).humanProbability == Analyze(b, fb, idb, tb, ob).humanProbability
  {
  }

  // ---------------------------------------------------------------------------
  // humanizeContent
  // ---------------------------------------------------------------------------

  const Transitions: seq<string> := ["Furthermore,", "Additionally,", "In my experience,", "Notably,", "To elaborate,"]

  const HumanizeSuffix: string := " (Enhanced for personal tone and flow)"

  /** A value of `Math.floor(Math.random() * transitions.length)`. */
  type TransitionIndex = i: int | 0 <= i < 5

  /** Sentences 3, 6, 9, ... get a transition phrase; sentence 0 never does. */
  predicate GetsTransition(index: nat) {
    index % 3 == 0 && index != 0
  }

  /** The mapping callback of the humanizer for one sentence. */
  function RewriteSentence(sentence: string, index: nat, pick: TransitionIndex): (r: string)
    ensures !GetsTransition(index) ==> r == sentence
    ensures GetsTransition(index) ==>
              && |r| == |Transitions[pick]| + 1 + |sentence|
              && r[..|Transitions[pick]| + 1] == Transitions[pick] + " "
              && r[|Transitions[pick]| + 1..] == LowerFirst(sentence)
  {
    if GetsTransition(index) then Transitions[pick] + " " + LowerFirst(sentence) else sentence
  }

  function RewriteAll(sentences: seq<string>, picks: seq<TransitionIndex>): seq<string>
    requires |picks| >= |sentences|
  {
    seq(|sentences|, i requires 0 <= i < |sentences| => RewriteSentence(sentences[i], i, picks[i]))
  }

  /** `humanizeContent(text)`: split on ". ", rewrite every third sentence,
      join with ". " and append the fixed suffix. The suffix is appended even
      when the text already ends with it. */
  function Humanize(text: string, picks: seq<TransitionIndex>): (r: string)
    requires |picks| >= |Sentences(text)|
    ensures EndsWith(r, HumanizeSuffix)
    ensures |r| >= |text| + |HumanizeSuffix|
  {
    var sentences := Sentences(text);
    var rewritten := RewriteAll(sentences, picks);
    RewriteShiftedNeverShrinks(sentences, picks, 0);
    assert rewritten[0..] == rewritten && sentences[0..] == sentences;
    JoinSentences(text);
    Join(rewritten, SentenceBreak) + HumanizeSuffix
  }

  /** Joining the sentences from `from` on, rewritten with their indices in
      the whole text, is never shorter than joining them unchanged. */
  lemma {:induction false} RewriteShiftedNeverShrinks(sentences: seq<string>, picks: seq<TransitionIndex>, from: nat)
    requires |picks| >= |sentences| && from <= |sentences|
    ensures |Join(RewriteAll(sentences, picks)[from..], SentenceBreak)| >= |Join(sentences[from..], SentenceBreak)|
    decreases |sentences| - from
  {
    var rw := RewriteAll(sentences, picks);
    if |sentences| - from >= 2 {
      RewriteShiftedNeverShrinks(sentences, picks, from + 1);
      assert rw[from..][1..] == rw[from + 1..];
      assert sentences[from..][1..] == sentences[from + 1..];
    }
  }

  /** Every rewritten sentence is still free of ". ". */
  lemma RewriteSentenceNoBreak(sentence: string, index: nat, pick: TransitionIndex)
    requires NoBreak(sentence)
    ensures NoBreak(RewriteSentence(sentence, index, pick))
  {
    if GetsTransition(index) {
      var t := Transitions[pick];
      assert forall i :: 0 <= i < |t| ==> t[i] != '.' by {
        assert forall k :: 0 <= k < |Transitions| ==>
          forall i :: 0 <= i < |Transitions[k]| ==> Transitions[k][i] != '.';
      }
      NoBreakConcat(t, " ");
      LowerFirstNoBreak(sentence);
      NoBreakConcat(t + " ", LowerFirst(sentence));
    }
  }

  /** The sentence structure of a humanized text: the text without the suffix
      splits into exactly as many sentences as the input; sentence 0 and every
      sentence whose index is not a multiple of 3 is unchanged, and each other
      one is a transition phrase, a space and the sentence with its first
      character lower-cased (an empty sentence becomes the phrase and a space). */
  lemma HumanizeSentences(text: string, picks: seq<TransitionIndex>)
    requires |picks| >= |Sentences(text)|
    ensures var r := Humanize(text, picks);
            var body := r[..|r| - |HumanizeSuffix|];
            var before := Sentences(text);
            var after := Sentences(body);
            && |after| == |before|
            && (forall i :: 0 <= i < |before| && !GetsTransition(i) ==> after[i] == before[i])
            && (forall i :: 0 <= i < |before| && GetsTransition(i) ==>
                  after[i] == Transitions[picks[i]] + " " + LowerFirst(before[i]))
  {
    var before := Sentences(text);
    var rewritten := RewriteAll(before, picks);
    forall k | 0 <= k < |rewritten|
      ensures NoBreak(rewritten[k])
    {
      RewriteSentenceNoBreak(before[k], k, picks[k]);
    }
    SentencesOfJoin(rewritten);
    var r := Humanize(text, picks);
    assert r[..|r| - |HumanizeSuffix|] == Join(rewritten, SentenceBreak);
  }

  /** A text with fewer than three ". " delimiters has no sentence that gets a
      transition, so humanizing only appends the suffix. */
  lemma {:induction false} HumanizeShortText(text: string, picks: seq<TransitionIndex>)
    requires |picks| >= |Sentences(text)|
    requires |Sentences(text)| <= 3
    ensures Humanize(text, picks) == text + HumanizeSuffix
  {
    var before := Sentences(text);
    assert RewriteAll(before, picks) == before;
    JoinSentences(text);
  }

  /** So a short text that already ends with the suffix ends with it twice. */
  lemma HumanizeRepeatsSuffix(text: string, picks: seq<TransitionIndex>)
    requires |picks| >= |Sentences(text)|
    requires |Sentences(text)| <= 3 && EndsWith(text, HumanizeSuffix)
    ensures EndsWith(Humanize(text, picks), HumanizeSuffix + HumanizeSuffix)
  {
    HumanizeShortText(text, picks);
    EndsWithAppend(text, HumanizeSuffix, HumanizeSuffix);
  }

  // ---------------------------------------------------------------------------
  // parsePdf, parseDocx and parseFile
  // ---------------------------------------------------------------------------

  /** The text fragments of one PDF page, in the order the text layer reports them. */
  type Page = seq<string>

  /** The fragments of a page joined with single spaces. */
  function PageText(page: Page): string {
    Join(page, " ")
  }

  /** The text `parsePdf` accumulates before trimming: each page's text
      followed by a blank line, pages in order. */
  function PagesText(pages: seq<Page>): string
    decreases |pages|
  {
    if |pages| == 0 then ""
    else PagesText(pages[..|pages| - 1]) + PageText(pages[|pages| - 1]) + "\n\n"
  }

  /** The text `parsePdf` returns for a readable document: the accumulated
      text, trimmed. */
  function PdfText(pages: seq<Page>): (r: string)
    ensures Trimmed(r)
    ensures |pages| == 0 ==> r == ""
  {
    Trim(PagesText(pages))
  }

  /** The loop of `parsePdf`, page by page; it computes `PdfText`. */
  method AssemblePdfText(pages: seq<Page>) returns (text: string)
    ensures text == PdfText(pages)
    ensures Trimmed(text)
  {
    var fullText := "";
    var i := 0;
    while i < |pages|
      invariant 0 <= i <= |pages|
      invariant fullText == PagesText(pages[..i])
    {
      assert pages[..i + 1][..i] == pages[..i];
      fullText := fullText + PageText(pages[i]) + "\n\n";
      i := i + 1;
    }
    assert pages[..|pages|] == pages;
    text := Trim(fullText);
  }

  function PageTexts(pages: seq<Page>): (r: seq<string>)
    ensures |r| == |pages|
    ensures forall k :: 0 <= k < |pages| ==> r[k] == PageText(pages[k])
  {
    seq(|pages|, k requires 0 <= k < |pages| => PageText(pages[k]))
  }

  /** When every page has text with no surrounding whitespace, the extracted
      text is the page texts separated by a blank line. */
  lemma PdfTextSeparatesPages(pages: seq<Page>)
    requires |pages| >= 1
    requires forall k :: 0 <= k < |pages| ==> PageText(pages[k]) != "" && Trimmed(PageText(pages[k]))
    ensures PdfText(pages) == Join(PageTexts(pages), "\n\n")
  {
    var j := Join(PageTexts(pages), "\n\n");
    PagesTextIsJoin(pages);
    JoinTrimmedEnds(PageTexts(pages));
    TrimIgnoresSurroundingWhitespace([], j, "\n\n");
    assert [] + j + "\n\n" == j + "\n\n";
    TrimOfTrimmed(j);
  }

  /** For any non-empty document the extracted text is the page texts
      separated by blank lines, trimmed: the blank line after the last page
      never survives. */
  lemma PdfTextIsTrimmedJoin(pages: seq<Page>)
    requires |pages| >= 1
    ensures PdfText(pages) == Trim(Join(PageTexts(pages), "\n\n"))
  {
    PagesTextIsJoin(pages);
    TrimIgnoresTrailingWhitespace(Join(PageTexts(pages), "\n\n"), "\n\n");
  }

  lemma {:induction false} PagesTextIsJoin(pages: seq<Page>)
    requires |pages| >= 1
    ensures PagesText(pages) == Join(PageTexts(pages), "\n\n") + "\n\n"
    decreases |pages|
  {
    var n := |pages|;
    if n == 1 {
      assert PagesText(pages[..0]) == "";
    } else {
      PagesTextIsJoin(pages[..n - 1]);
      assert PageTexts(pages) == PageTexts(pages[..n - 1]) + [PageText(pages[n - 1])];
      JoinSnoc(PageTexts(pages[..n - 1]), PageText(pages[n - 1]), "\n\n");
    }
  }

  lemma {:induction false} JoinTrimmedEnds(parts: seq<string>)
    requires |parts| >= 1
    requires forall k :: 0 <= k < |parts| ==> parts[k] != "" && Trimmed(parts[k])
    ensures var j := Join(parts, "\n\n"); j != "" && Trimmed(j) && !AllWhitespace(j)
    decreases |parts|
  {
    var j := Join(parts, "\n\n");
    if |parts| > 1 {
      JoinTrimmedEnds(parts[1..]);
      var rest := Join(parts[1..], "\n\n");
      assert j == parts[0] + "\n\n" + rest;
      assert j[0] == parts[0][0];
      assert j[|j| - 1] == rest[|rest| - 1];
    }
    assert !IsWhitespace(j[0]);
  }

  /** What the Word-document library returns for a readable document, trimmed. */
  function DocxText(raw: string): (r: string)
    ensures Trimmed(r)
    ensures Trimmed(raw) ==> r == raw
  {
    TrimOfTrimmed(raw);
    Trim(raw)
  }

  /** Whitespace around the raw Word text never reaches the result; with the
      second ensures of `DocxText` this makes it the raw text trimmed. */
  lemma DocxTextIgnoresSurroundingWhitespace(a: string, raw: string, b: string)
    requires AllWhitespace(a) && AllWhitespace(b)
    ensures DocxText(a + raw + b) == DocxText(raw)
  {
    TrimIgnoresSurroundingWhitespace(a, raw, b);
  }

  /** What the two extraction libraries and `file.text()` make of one file's
      bytes: the text `file.text()` reads (`None` when the read rejects),
      the pages of a readable PDF (`None` when reading or opening it with
      pdf.js fails) and the raw text of a readable Word document (`None` when
      reading it or mammoth fails). */
  datatype Blob = Blob(asText: Option<string>, pdfPages: Option<seq<Page>>, docxRaw: Option<string>)

  /** An uploaded file: its name, declared MIME type and contents. */
  datatype UploadedFile = UploadedFile(name: string, mime: string, blob: Blob)

  /** The errors `parseFile` throws. A failed `file.text()` is not caught,
      so the browser's own error propagates; its text is not modelled. */
  datatype ParseError = TextUnreadable | PdfUnreadable | DocxUnreadable | UnsupportedType(mime: string) {
    function Message(): Option<string> {
      match this
      case TextUnreadable => None
      case PdfUnreadable => Some("Could not extract text from PDF. Please ensure it is a valid text-based PDF.")
      case DocxUnreadable => Some("Could not extract text from DOCX.")
      case UnsupportedType(m) => Some("Unsupported file type: " + m)
    }
  }

  const DocxSuffix: string := ".docx"

  /** `parseFile(file)`: plain text is returned as read; then a PDF MIME type
      takes the PDF path; then a Word MIME type or a ".docx" name takes the
      Word path; anything else is unsupported. */
  function ParseFile(f: UploadedFile): (r: Result<string, ParseError>)
    ensures f.mime == TextMime ==>
              r == if f.blob.asText.Some? then Success(f.blob.asText.value) else Failure(TextUnreadable)
    ensures f.mime == PdfMime ==>
              r == if f.blob.pdfPages.Some? then Success(PdfText(f.blob.pdfPages.value)) else Failure(PdfUnreadable)
    ensures f.mime != TextMime && f.mime != PdfMime && (f.mime == DocxMime || EndsWith(f.name, DocxSuffix)) ==>
              r == if f.blob.docxRaw.Some? then Success(DocxText(f.blob.docxRaw.value)) else Failure(DocxUnreadable)
    ensures r.Success? && f.mime != TextMime ==> Trimmed(r.value)
    ensures r.Failure? && r.error == TextUnreadable ==> f.mime == TextMime
    ensures r.Failure? && r.error == PdfUnreadable ==> f.mime == PdfMime
    ensures r.Failure? && r.error == DocxUnreadable ==>
              f.blob.docxRaw.None? && (f.mime == DocxMime || EndsWith(f.name, DocxSuffix))
    ensures r.Failure? && r.error.UnsupportedType? <==>
              FileTypeOf(f.mime).None? && !EndsWith(f.name, DocxSuffix)
    ensures r.Failure? && r.error.UnsupportedType? ==> r.error.mime == f.mime
  {
    if f.mime == TextMime then
      match f.blob.asText
      case None => Failure(TextUnreadable)
      case Some(text) => Success(text)
    else if f.mime == PdfMime then
      match f.blob.pdfPages
      case None => Failure(PdfUnreadable)
      case Some(pages) => Success(PdfText(pages))
    else if f.mime == DocxMime || EndsWith(f.name, DocxSuffix) then
      match f.blob.docxRaw
      case None => Failure(DocxUnreadable)
      case Some(raw) => Success(DocxText(raw))
    else Failure(UnsupportedType(f.mime))
  }

  /** A recognised MIME type decides the path on its own: the file name plays
      no part, and a PDF or text MIME type wins over a ".docx" name. */
  lemma ParseFileIgnoresNameForKnownType(f: UploadedFile, otherName: string)
    requires FileTypeOf(f.mime).Some?
    ensures ParseFile(f) == ParseFile(f.(name := otherName))
    ensures ParseFile(f).Failure? ==> !ParseFile(f).error.UnsupportedType?
  {
  }
}
