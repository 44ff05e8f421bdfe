/**
 * app/services/qualitative_tool.py: transcript discovery (document links filtered
 * by keyword, downloaded, text extracted), the chunk index built from the texts,
 * and the five retrieval questions whose answers form the analysis.
 *
 * The HTTP fetch, the downloads, the PDF text extractor, the embeddings store and
 * the retrieval chain are inputs; the store is modelled by the chunks it holds.
 */
module QualitativeTool {
  import opened Wrappers
  import opened PyStr
  import opened PyDict
  import opened JsonValue
  import HtmlScraper
  import TextChunker

  // ---------------------------------------------------------------------------
  // extract_earnings_transcripts

  /** The words whose presence in a lower-cased link marks it as a transcript or results document. */
  const Keywords: seq<string> := ["concall", "results", "quarter", "q1", "q2", "q3", "q4", "qtr", "earnings", "transcript"]

  predicate IsTranscriptLink(l: string) {
    exists k :: k in Keywords && Contains(Lower(l), k)
  }

  /** The comprehension over the document links. */
  function FilterLinks(links: seq<string>): (r: seq<string>)
    ensures |r| <= |links|
    ensures forall l :: l in r <==> l in links && IsTranscriptLink(l)
  {
    if links == [] then []
    else (if IsTranscriptLink(links[0]) then [links[0]] else []) + FilterLinks(links[1..])
  }

  /** The filter works link by link, so it keeps the links' order. */
  lemma {:induction false} FilterLinksConcat(a: seq<string>, b: seq<string>)
    ensures FilterLinks(a + b) == FilterLinks(a) + FilterLinks(b)
  {
    if a == [] {
      assert a + b == b;
    } else {
      assert (a + b)[1..] == a[1..] + b;
      FilterLinksConcat(a[1..], b);
    }
  }

  /** `max(quarters * 2, 4)`. */
  function TranscriptLimit(quarters: int): (r: int)
    ensures r >= 4 && r >= 2 * quarters
  {
    Max(quarters * 2, 4)
  }

  /** The links that are downloaded: the first TranscriptLimit(quarters) that pass the filter. */
  function SelectLinks(links: seq<string>, quarters: int): (r: seq<string>)
    ensures |r| == Min(TranscriptLimit(quarters), |FilterLinks(links)|)
    ensures r == FilterLinks(links)[..|r|]
  {
    var filtered := FilterLinks(links);
    SliceTo(filtered, TranscriptLimit(quarters))
  }

  /** `if txt and len(txt.strip()) > 50`. */
  predicate Substantial(txt: string) {
    txt != [] && |Strip(txt)| > 50
  }

  /** The texts the loop keeps, in download order; `extract` is extract_pdf_text ("" on failure). */
  function KeptTexts(paths: seq<string>, extract: string -> string): (r: seq<string>)
    ensures |r| <= |paths|
    ensures forall i :: 0 <= i < |r| ==> Substantial(r[i])
  {
    if paths == [] then []
    else
      var init := KeptTexts(paths[..|paths| - 1], extract);
      var txt := extract(paths[|paths| - 1]);
      if Substantial(txt) then init + [txt] else init
  }

  /** A text is kept exactly when some downloaded file yields it and it is substantial. */
  lemma {:induction false} KeptTextsExactly(paths: seq<string>, extract: string -> string, t: string)
    ensures t in KeptTexts(paths, extract) <==> Substantial(t) && exists p :: p in paths && extract(p) == t
  {
    if paths != [] {
      var init := paths[..|paths| - 1];
      var last := paths[|paths| - 1];
      KeptTextsExactly(init, extract, t);
      assert paths == init + [last];
      if Substantial(t) && extract(last) == t {
        assert t in KeptTexts(paths, extract);
      }
      if exists p :: p in paths && extract(p) == t {
        var p :| p in paths && extract(p) == t;
        assert p in init || p == last;
      }
    }
  }

  method KeepTexts(paths: seq<string>, extract: string -> string) returns (texts: seq<string>)
    ensures texts == KeptTexts(paths, extract)
  {
    texts := [];
    var i := 0;
    while i < |paths|
      invariant 0 <= i <= |paths|
      invariant texts == KeptTexts(paths[..i], extract)
    {
      var txt := extract(paths[i]);
      assert paths[..i + 1][..i] == paths[..i] && paths[..i + 1][i] == paths[i];
      assert KeptTexts(paths[..i + 1], extract) == if Substantial(txt) then texts + [txt] else texts;
      if txt != [] && |Strip(txt)| > 50 {
        texts := texts + [txt];
      }
      i := i + 1;
    }
    assert paths[..|paths|] == paths;
  }

  /**
   * What extract_earnings_transcripts returns: the fetch of the company page and
   * the downloads propagate their exceptions; `download` stands for download_pdfs.
   */
  function Transcripts(url: string, quarters: int, page: Outcome<HtmlScraper.HtmlPage>, join: (string, string) -> string,
                       download: seq<string> -> Outcome<seq<string>>, extract: string -> string): Outcome<seq<string>>
  {
    match page
    case Raised(e) => Raised(e)
    case Returned(p) =>
      var links := HtmlScraper.Dedupe(HtmlScraper.PdfLinks(url, HtmlScraper.SelectedHrefs(p), join));
      match download(SelectLinks(links, quarters))
      case Raised(e) => Raised(e)
      case Returned(paths) => Returned(KeptTexts(paths, extract))
  }

  method ExtractEarningsTranscripts(url: string, quarters: int, page: Outcome<HtmlScraper.HtmlPage>,
                                    join: (string, string) -> string,
                                    download: seq<string> -> Outcome<seq<string>>, extract: string -> string)
    returns (r: Outcome<seq<string>>)
    ensures r == Transcripts(url, quarters, page, join, download, extract)
  {
    var links := HtmlScraper.FindDocumentLinks(url, page, join);
    if links.Raised? {
      return Raised(links.error);
    }
    var filtered := FilterLinks(links.value);
    filtered := SliceTo(filtered, Max(quarters * 2, 4));
    var pdfs := download(filtered);
    if pdfs.Raised? {
      return Raised(pdfs.error);
    }
    var texts := KeepTexts(pdfs.value, extract);
    r := Returned(texts);
  }

  // ---------------------------------------------------------------------------
  // build_rag_index

  /**
   * The documents the nested loop collects: the chunks of every text in order. A
   * chunker that never returns on some text stops the loop there for good.
   */
  function AllChunks(texts: seq<string>, chunker: string -> Run<seq<string>>): Run<seq<string>> {
    if texts == [] then Finishes([])
    else
      match AllChunks(texts[..|texts| - 1], chunker)
      case Diverges => Diverges
      case Finishes(docs) =>
        match chunker(texts[|texts| - 1])
        case Diverges => Diverges
        case Finishes(cs) => Finishes(docs + cs)
  }

  /** build_rag_index: None when no chunk was collected, otherwise the store of the chunks. */
  function RagIndex(texts: seq<string>, chunker: string -> Run<seq<string>>): Run<Option<seq<string>>> {
    match AllChunks(texts, chunker)
    case Diverges => Diverges
    case Finishes(docs) => Finishes(if docs == [] then None else Some(docs))
  }

  method BuildRagIndex(texts: seq<string>, chunker: string -> Run<seq<string>>) returns (r: Run<Option<seq<string>>>)
    ensures r == RagIndex(texts, chunker)
  {
    var docs: seq<string> := [];
    var i := 0;
    while i < |texts|
      invariant 0 <= i <= |texts|
      invariant AllChunks(texts[..i], chunker) == Finishes(docs)
    {
      assert texts[..i + 1][..i] == texts[..i];
      var chunks := chunker(texts[i]);
      if chunks.Diverges? {
        DivergenceStays(texts, chunker, i + 1);
        return Diverges;
      }
      var j := 0;
      ghost var before := docs;
      while j < |chunks.value|
        invariant 0 <= j <= |chunks.value|
        invariant docs == before + chunks.value[..j]
      {
        docs := docs + [chunks.value[j]];
        assert chunks.value[..j + 1] == chunks.value[..j] + [chunks.value[j]];
        j := j + 1;
      }
      assert chunks.value[..j] == chunks.value;
      i := i + 1;
    }
    assert texts[..|texts|] == texts;
    r := Finishes(if docs == [] then None else Some(docs));
  }

  /** Once the chunker has not returned on a text, no longer prefix returns either. */
  lemma {:induction false} DivergenceStays(texts: seq<string>, chunker: string -> Run<seq<string>>, n: nat)
    requires 0 < n <= |texts|
    requires AllChunks(texts[..n], chunker).Diverges?
    ensures AllChunks(texts, chunker).Diverges?
    decreases |texts| - n
  {
    if n < |texts| {
      assert texts[..n + 1][..n] == texts[..n];
      DivergenceStays(texts, chunker, n + 1);
    } else {
      assert texts[..n] == texts;
    }
  }

  /** When the chunker returns on every text, the index is None exactly when it returned no chunk for any of them. */
  lemma {:induction false} RagIndexNoneExactly(texts: seq<string>, chunker: string -> Run<seq<string>>)
    requires forall i :: 0 <= i < |texts| ==> chunker(texts[i]).Finishes?
    ensures RagIndex(texts, chunker).Finishes?
    ensures RagIndex(texts, chunker).value.None? <==> forall i :: 0 <= i < |texts| ==> chunker(texts[i]).value == []
  {
    if texts != [] {
      var init := texts[..|texts| - 1];
      RagIndexNoneExactly(init, chunker);
      assert forall i :: 0 <= i < |init| ==> init[i] == texts[i];
    }
  }

  /**
   * chunk_text called with its defaults (1000 and 200): on a non-empty text the loop
   * never exits (TextChunker.DefaultCallNeverReturns), on the empty text it returns [].
   */
  function DefaultChunking(t: string): Run<seq<string>> {
    if t == [] then Finishes([]) else Diverges
  }

  /** The divergence DefaultChunking records is the loop of chunk_text staying below the end after every pass. */
  lemma DefaultChunkingDiverges(t: string, n: nat)
    requires DefaultChunking(t).Diverges?
    ensures 0 <= TextChunker.StartAfter(n, |t|, TextChunker.CHUNK_SIZE, TextChunker.CHUNK_OVERLAP) < |t|
  {
    TextChunker.DefaultCallNeverReturns(t, n);
  }

  /** With the default chunking, building the index never returns once any text is non-empty. */
  lemma {:induction false} DefaultIndexDiverges(texts: seq<string>, i: nat)
    requires i < |texts| && texts[i] != []
    ensures RagIndex(texts, DefaultChunking).Diverges?
  {
    assert texts[..i + 1][..i] == texts[..i];
    assert texts[..i + 1][i] == texts[i];
    DivergenceStays(texts, DefaultChunking, i + 1);
  }

  /** chunk_text with the defaults once its loop stops at the end of the text (TextChunker.ChunkTextStopping). */
  function StoppingChunking(t: string): Run<seq<string>> {
    Finishes(TextChunker.StoppingChunks(t, TextChunker.CHUNK_SIZE, TextChunker.CHUNK_OVERLAP))
  }

  /** The stopping chunker gives a non-empty text at least one chunk. */
  lemma StoppingChunkingNonEmpty(t: string)
    requires t != []
    ensures StoppingChunking(t).value != []
  {
    TextChunker.StoppingStep(t, TextChunker.CHUNK_SIZE, TextChunker.CHUNK_OVERLAP, 0);
  }

  // ---------------------------------------------------------------------------
  // qualitative_analysis

  /** The five questions, by the result key they answer. */
  const Queries: seq<(string, string)> := [
    ("management_outlook", "Summarize management's forward-looking statements and guidance in a short paragraph (use evidence)."),
    ("recurring_themes", "List recurring themes mentioned by management (hiring, demand, margin, pricing)."),
    ("risks", "List explicit risks management highlighted."),
    ("opportunities", "List opportunities management mentioned."),
    ("sentiment", "Provide a one-line sentiment (positive/neutral/negative) with reasoning.")
  ]

  const ErrorAnswer: string := "Error in retrieval/LLM"

  /** One question's answer, with an exception from the chain caught. */
  function AnswerOf(a: Outcome<string>): string {
    match a
    case Returned(text) => text
    case Raised(_) => ErrorAnswer
  }

  /** The results dict after the loop over the questions; their keys are distinct, so each one is appended. */
  function Answers(qs: seq<(string, string)>, qa: string -> Outcome<string>): (r: Dict<string>)
    ensures |r| == |qs|
  {
    if qs == [] then []
    else
      var last := qs[|qs| - 1];
      Answers(qs[..|qs| - 1], qa) + [(last.0, AnswerOf(qa(last.1)))]
  }

  /** Every question's key gets its own answer, the error text only where that question's call raised. */
  lemma {:induction false} AnswersPerKey(qs: seq<(string, string)>, qa: string -> Outcome<string>, i: nat)
    requires i < |qs|
    ensures Answers(qs, qa)[i] == (qs[i].0, AnswerOf(qa(qs[i].1)))
  {
    if i < |qs| - 1 {
      AnswersPerKey(qs[..|qs| - 1], qa, i);
    }
  }

  method AskQueries(qs: seq<(string, string)>, qa: string -> Outcome<string>) returns (results: Dict<string>)
    ensures results == Answers(qs, qa)
  {
    results := [];
    var i := 0;
    while i < |qs|
      invariant 0 <= i <= |qs|
      invariant results == Answers(qs[..i], qa)
    {
      var (k, q) := qs[i];
      var answer: string;
      var call := qa(q);
      if call.Raised? {
        answer := ErrorAnswer;
      } else {
        answer := call.value;
      }
      results := results + [(k, answer)];
      assert qs[..i + 1][..i] == qs[..i];
      i := i + 1;
    }
    assert qs[..|qs|] == qs;
  }

  /** The three shapes qualitative_analysis returns. */
  datatype Analysis =
    | NoTranscripts
    | NoContent
    | Analysed(summary: string, themes: string, risks: string, opportunities: string, sentiment: string)

  /** The dict each shape stands for. */
  function AsJson(a: Analysis): Json {
    match a
    case NoTranscripts => JObject([("summary", JStr("No transcripts found")), ("themes", JList([])), ("sentiment", JObject([]))])
    case NoContent => JObject([("summary", JStr("No textual content to analyze"))])
    case Analysed(s, t, r, o, m) =>
      JObject([("summary", JStr(s)), ("themes", JStr(t)), ("risks", JStr(r)), ("opportunities", JStr(o)), ("sentiment", JStr(m))])
  }

  /** The answers renamed to the output keys. */
  function FromAnswers(results: Dict<string>): Analysis {
    Analysed(Get(results, "management_outlook", ""), Get(results, "recurring_themes", ""), Get(results, "risks", ""),
             Get(results, "opportunities", ""), Get(results, "sentiment", ""))
  }

  /**
   * What qualitative_analysis does: finishes with an exception or one of the three
   * shapes, or never returns while chunking. `qa` is the retrieval chain over the
   * store's chunks.
   */
  function AnalysisOf(url: string, quarters: int, page: Outcome<HtmlScraper.HtmlPage>, join: (string, string) -> string,
                      download: seq<string> -> Outcome<seq<string>>, extract: string -> string,
                      chunker: string -> Run<seq<string>>, qa: (seq<string>, string) -> Outcome<string>): Run<Outcome<Analysis>>
  {
    match Transcripts(url, quarters, page, join, download, extract)
    case Raised(e) => Finishes(Raised(e))
    case Returned(texts) =>
      if texts == [] then Finishes(Returned(NoTranscripts))
      else
        match RagIndex(texts, chunker)
        case Diverges => Diverges
        case Finishes(None) => Finishes(Returned(NoContent))
        case Finishes(Some(docs)) => Finishes(Returned(FromAnswers(Answers(Queries, q => qa(docs, q)))))
  }

  method QualitativeAnalysis(url: string, quarters: int, page: Outcome<HtmlScraper.HtmlPage>, join: (string, string) -> string,
                             download: seq<string> -> Outcome<seq<string>>, extract: string -> string,
                             chunker: string -> Run<seq<string>>, qa: (seq<string>, string) -> Outcome<string>)
    returns (r: Run<Outcome<Analysis>>)
    ensures r == AnalysisOf(url, quarters, page, join, download, extract, chunker, qa)
  {
    var transcripts := ExtractEarningsTranscripts(url, quarters, page, join, download, extract);
    if transcripts.Raised? {
      return Finishes(Raised(transcripts.error));
    }
    if transcripts.value == [] {
      return Finishes(Returned(NoTranscripts));
    }
    var store := BuildRagIndex(transcripts.value, chunker);
    if store.Diverges? {
      return Diverges;
    }
    if store.value.None? {
      return Finishes(Returned(NoContent));
    }
    var docs := store.value.value;
    var results := AskQueries(Queries, q => qa(docs, q));
    r := Finishes(Returned(FromAnswers(results)));
  }

  /**
   * The two early returns: no kept transcript reports "No transcripts found", and
   * transcripts the chunker returns no chunk for report "No textual content to analyze".
   */
  lemma EarlyReturns(url: string, quarters: int, page: Outcome<HtmlScraper.HtmlPage>, join: (string, string) -> string,
                     download: seq<string> -> Outcome<seq<string>>, extract: string -> string,
                     chunker: string -> Run<seq<string>>, qa: (seq<string>, string) -> Outcome<string>)
    requires Transcripts(url, quarters, page, join, download, extract).Returned?
    ensures var texts := Transcripts(url, quarters, page, join, download, extract).value;
            var r := AnalysisOf(url, quarters, page, join, download, extract, chunker, qa);
            && (texts == [] ==> r == Finishes(Returned(NoTranscripts)))
            && (texts != [] && (forall i :: 0 <= i < |texts| ==> chunker(texts[i]) == Finishes([]))
                ==> r == Finishes(Returned(NoContent)))
  {
    var texts := Transcripts(url, quarters, page, join, download, extract).value;
    if texts != [] && (forall i :: 0 <= i < |texts| ==> chunker(texts[i]) == Finishes([])) {
      RagIndexNoneExactly(texts, chunker);
    }
  }

  /** The output keys carry the answers of their questions: summary is management_outlook, themes is recurring_themes. */
  lemma AnalysedFields(qa: string -> Outcome<string>)
    ensures FromAnswers(Answers(Queries, qa))
            == Analysed(AnswerOf(qa(Queries[0].1)), AnswerOf(qa(Queries[1].1)), AnswerOf(qa(Queries[2].1)),
                        AnswerOf(qa(Queries[3].1)), AnswerOf(qa(Queries[4].1)))
  {
    var res := Answers(Queries, qa);
    forall i | 0 <= i < 5 ensures res[i] == (Queries[i].0, AnswerOf(qa(Queries[i].1))) {
      AnswersPerKey(Queries, qa, i);
    }
    assert UniqueKeys(res);
    GetPresent(res, 0, "");
    GetPresent(res, 1, "");
    GetPresent(res, 2, "");
    GetPresent(res, 3, "");
    GetPresent(res, 4, "");
  }

  /**
   * With chunk_text's defaults the analysis never gets past the index: every kept
   * transcript is non-empty, so it either raises, reports no transcripts, or never returns.
   */
  lemma AsWrittenNeverAnalyses(url: string, quarters: int, page: Outcome<HtmlScraper.HtmlPage>, join: (string, string) -> string,
                               download: seq<string> -> Outcome<seq<string>>, extract: string -> string,
                               qa: (seq<string>, string) -> Outcome<string>)
    ensures var r := AnalysisOf(url, quarters, page, join, download, extract, DefaultChunking, qa);
            r.Diverges? || r.value.Raised? || r.value.value == NoTranscripts
  {
    var t := Transcripts(url, quarters, page, join, download, extract);
    var r := AnalysisOf(url, quarters, page, join, download, extract, DefaultChunking, qa);
    if t.Raised? {
      assert r == Finishes(Raised(t.error));
    } else if t.value == [] {
      assert r == Finishes(Returned(NoTranscripts));
    } else {
      assert Substantial(t.value[0]);
      DefaultIndexDiverges(t.value, 0);
      assert r == Diverges;
    }
  }

  /**
   * With the stopping chunker the analysis always returns, and once a transcript
   * was kept it answers the five questions.
   */
  lemma CorrectedAnalyses(url: string, quarters: int, page: Outcome<HtmlScraper.HtmlPage>, join: (string, string) -> string,
                          download: seq<string> -> Outcome<seq<string>>, extract: string -> string,
                          qa: (seq<string>, string) -> Outcome<string>)
    ensures var r := AnalysisOf(url, quarters, page, join, download, extract, StoppingChunking, qa);
            var t := Transcripts(url, quarters, page, join, download, extract);
            && r.Finishes?
            && (t.Returned? && t.value != [] ==> r.value.Returned? && r.value.value.Analysed?)
  {
    var t := Transcripts(url, quarters, page, join, download, extract);
    if t.Returned? && t.value != [] {
      assert Substantial(t.value[0]);
      forall i | 0 <= i < |t.value| ensures StoppingChunking(t.value[i]).Finishes? {
      }
      RagIndexNoneExactly(t.value, StoppingChunking);
      StoppingChunkingNonEmpty(t.value[0]);
      assert RagIndex(t.value, StoppingChunking).value.Some?;
    }
  }
}
