/**
 * app/tools/qualitative_analysis.py: the RAG tool over earnings-call
 * transcripts. Its index is set lazily: `query` first tries to load the saved
 * index, then to build one from the PDF folder, and only then reports that no
 * transcript data is available. Retrieval, the splitter, the PDF loaders and
 * the LLM are parameters.
 */
module QualitativeAnalysis {
  import opened Wrappers
  import opened PyStr
  import opened PyDict
  import opened Documents

  /** settings.RAG_K. */
  const RagK := 5

  /** What the FAISS index directory holds: nothing, something load_local raises on, or a saved index. */
  datatype Stored = Missing | Corrupt | Saved(idx: Index)

  /** The tool's index field together with the index directory. */
  datatype State = State(index: Option<Index>, disk: Stored)

  /** The result dictionary of `query`: chunks and answer, or an error entry with an empty chunk list. */
  datatype QueryResult = Answered(chunks: seq<Doc>, answer: string) | Failed(error: string, answer: string)

  /**
   * The outside world `build_vector_store` and `query` see: whether the PDF
   * folder exists and what it lists (glob order), the two PDF loaders, the text
   * splitter, whether saving the index succeeds, and the retriever.
   */
  datatype Env = Env(
    dirExists: bool,
    listing: seq<string>,
    pyPdf: string -> Outcome<seq<Doc>>,
    pdfMiner: string -> Outcome<seq<Doc>>,
    split: seq<Doc> -> seq<Doc>,
    saveOk: bool,
    retrieve: (Index, string, int) -> Outcome<seq<Doc>>)

  /** An LLM call on (context, question); it may raise. */
  type Llm = (string, string) -> Outcome<string>

  const NoData := Failed("Unable to load or build vector store", "No transcript data available for analysis.")

  // ---------------------------------------------------------------------------
  // build_vector_store: file selection and loading

  /** `Path.glob("*.pdf")` matches case-sensitively. */
  predicate IsPdf(name: string) {
    EndsWith(name, ".pdf")
  }

  predicate IsTranscript(name: string) {
    IsPdf(name) && Contains(Lower(name), "transcript")
  }

  /** The PDFs of the listing, in order. */
  function AllPdfs(listing: seq<string>): (r: seq<string>)
    ensures forall n :: n in r <==> n in listing && IsPdf(n)
  {
    if listing == [] then []
    else
      var init := AllPdfs(listing[..|listing| - 1]);
      var last := listing[|listing| - 1];
      assert listing == listing[..|listing| - 1] + [last];
      if IsPdf(last) then init + [last] else init
  }

  /** The PDFs whose lowercased name contains "transcript", in order. */
  function TranscriptPdfs(listing: seq<string>): (r: seq<string>)
    ensures forall n :: n in r <==> n in listing && IsTranscript(n)
  {
    if listing == [] then []
    else
      var init := TranscriptPdfs(listing[..|listing| - 1]);
      var last := listing[|listing| - 1];
      assert listing == listing[..|listing| - 1] + [last];
      if IsTranscript(last) then init + [last] else init
  }

  /** The transcript PDFs, or every PDF when there is none. */
  function SelectedFiles(listing: seq<string>): seq<string> {
    var transcripts := TranscriptPdfs(listing);
    if transcripts != [] then transcripts else AllPdfs(listing)
  }

  /**
   * The files loaded are the transcript PDFs when the folder has any, and
   * otherwise all of its PDFs; nothing is selected only when it has no PDF.
   */
  lemma SelectedFilesMeans(listing: seq<string>)
    ensures (exists n :: n in listing && IsTranscript(n)) ==>
      forall n :: n in SelectedFiles(listing) <==> n in listing && IsTranscript(n)
    ensures (forall n :: n in listing ==> !IsTranscript(n)) ==>
      forall n :: n in SelectedFiles(listing) <==> n in listing && IsPdf(n)
    ensures SelectedFiles(listing) == [] <==> forall n :: n in listing ==> !IsPdf(n)
  {
    if exists n :: n in listing && IsTranscript(n) {
      var n :| n in listing && IsTranscript(n);
      assert n in TranscriptPdfs(listing);
    }
    if SelectedFiles(listing) == [] {
      forall n | n in listing ensures !IsPdf(n) {
        assert n !in AllPdfs(listing);
      }
    } else {
      var n := SelectedFiles(listing)[0];
      assert n in SelectedFiles(listing);
    }
  }

  /** The glob loops of build_vector_store. */
  method SelectTranscriptFiles(listing: seq<string>) returns (files: seq<string>)
    ensures files == SelectedFiles(listing)
  {
    files := [];
    var i := 0;
    while i < |listing|
      invariant 0 <= i <= |listing|
      invariant files == TranscriptPdfs(listing[..i])
    {
      assert listing[..i + 1][..i] == listing[..i];
      if IsTranscript(listing[i]) {
        files := files + [listing[i]];
      }
      i := i + 1;
    }
    assert listing[..|listing|] == listing;
    if files == [] {
      files := AllPdfs(listing);
    }
  }

  predicate NonBlank(d: Doc) {
    Strip(d.content) != ""
  }

  /** `docs and any(doc.page_content.strip() for doc in docs)`. */
  predicate AnyNonBlank(docs: seq<Doc>) {
    exists i :: 0 <= i < |docs| && NonBlank(docs[i])
  }

  /**
   * _load_pdf_robust: the first loader's pages if one of them has non-blank
   * content, else the second loader's under the same test, else [].
   */
  function LoadPdfRobust(name: string, env: Env): (r: seq<Doc>)
    ensures r != [] ==> AnyNonBlank(r)
    ensures r == [] || (env.pyPdf(name).Returned? && r == env.pyPdf(name).value)
                    || (env.pdfMiner(name).Returned? && r == env.pdfMiner(name).value)
  {
    var first := env.pyPdf(name);
    if first.Returned? && AnyNonBlank(first.value) then first.value
    else
      var second := env.pdfMiner(name);
      if second.Returned? && AnyNonBlank(second.value) then second.value
      else []
  }

  /** `doc.metadata["source_file"] = name` on every page. */
  function Tag(docs: seq<Doc>, name: string): (r: seq<Doc>)
    ensures |r| == |docs|
    ensures forall i :: 0 <= i < |r| ==> r[i] == Doc(docs[i].content, Some(name))
  {
    seq(|docs|, i requires 0 <= i < |docs| => Doc(docs[i].content, Some(name)))
  }

  /** all_documents after the loop has loaded `files`. */
  function Loaded(files: seq<string>, env: Env): seq<Doc> {
    if files == [] then []
    else
      var name := files[|files| - 1];
      Loaded(files[..|files| - 1], env) + Tag(LoadPdfRobust(name, env), name)
  }

  /** Every loaded page is tagged with the name of one of the files it was loaded from. */
  lemma {:induction false} LoadedTagged(files: seq<string>, env: Env)
    ensures forall d :: d in Loaded(files, env) ==> d.sourceFile.Some? && d.sourceFile.value in files
  {
    if files != [] {
      var init := files[..|files| - 1];
      var name := files[|files| - 1];
      LoadedTagged(init, env);
      var tagged := Tag(LoadPdfRobust(name, env), name);
      forall d | d in Loaded(files, env) ensures d.sourceFile.Some? && d.sourceFile.value in files {
        if d in Loaded(init, env) {
          assert d.sourceFile.value in init;
        } else {
          assert d in tagged;
        }
      }
    }
  }

  /** What build_vector_store assigns to the index field, if it gets that far. */
  function Built(env: Env): Option<Index> {
    if !env.dirExists then None
    else
      var files := SelectedFiles(env.listing);
      if files == [] then None
      else
        var docs := Loaded(files, env);
        if docs == [] then None
        else
          match FromDocuments(env.split(docs))
          case Returned(idx) => Some(idx)
          case Raised(_) => None
  }

  /** build_vector_store returns True only once the index is built and saved. */
  predicate BuildOk(env: Env) {
    Built(env).Some? && env.saveOk
  }

  /** The state after build_vector_store: the index is set even when saving it fails. */
  function AfterBuild(s: State, env: Env): State {
    var b := Built(env);
    if b.None? then s
    else State(b, if env.saveOk then Saved(b.value) else s.disk)
  }

  // ---------------------------------------------------------------------------
  // query

  /** `k or settings.RAG_K`. */
  function KOf(k: Option<int>): (r: int)
    ensures k.None? || k.value == 0 ==> r == RagK
    ensures k.Some? && k.value != 0 ==> r == k.value
  {
    if k.None? || k.value == 0 then RagK else k.value
  }

  /** The state once `query` has tried to load and then to build an index. */
  function Prepared(s: State, env: Env): State {
    if s.index.Some? then s
    else if s.disk.Saved? then State(Some(s.disk.idx), s.disk)
    else AfterBuild(s, env)
  }

  /** Whether `query` gets past its load-then-build guard. */
  predicate Ready(s: State, env: Env) {
    s.index.Some? || s.disk.Saved? || BuildOk(env)
  }

  lemma ReadyHasIndex(s: State, env: Env)
    requires Ready(s, env)
    ensures Prepared(s, env).index.Some?
  {
  }

  const ChunksHeader := "Relevant excerpts from earnings call transcripts:\n\n"
  const NoChunksMessage := "No relevant information found in transcripts."

  function SourceOf(d: Doc): string {
    d.sourceFile.GetOr("Unknown")
  }

  /** The entry of chunk number i: its source and its first 300 characters followed by "...". */
  function ChunkEntry(i: nat, d: Doc): (r: string)
    ensures StartsWith(r, NatToString(i) + ". [From: " + SourceOf(d) + "]\n")
  {
    var head := NatToString(i) + ". [From: " + SourceOf(d) + "]\n";
    var r := head + SliceTo(d.content, 300) + "...\n\n";
    assert r[..|head|] == head;
    r
  }

  /** The entries of `chunks`, numbered from 1 in retrieval order. */
  function ChunkEntries(chunks: seq<Doc>): string {
    if chunks == [] then ""
    else ChunkEntries(chunks[..|chunks| - 1]) + ChunkEntry(|chunks|, chunks[|chunks| - 1])
  }

  /** _format_chunks. */
  function FormattedChunks(chunks: seq<Doc>): string {
    if chunks == [] then NoChunksMessage else ChunksHeader + ChunkEntries(chunks)
  }

  /** The entries of a prefix of the chunks open the entries of all of them. */
  lemma {:induction false} ChunkEntriesPrefix(chunks: seq<Doc>, k: nat)
    requires k <= |chunks|
    ensures StartsWith(ChunkEntries(chunks), ChunkEntries(chunks[..k]))
    decreases |chunks| - k
  {
    if k == |chunks| {
      assert chunks[..k] == chunks;
    } else {
      ChunkEntriesPrefix(chunks, k + 1);
      assert chunks[..k + 1][..k] == chunks[..k];
      var a := ChunkEntries(chunks[..k]);
      var b := ChunkEntries(chunks[..k + 1]);
      assert b == a + ChunkEntry(k + 1, chunks[k]);
      var all := ChunkEntries(chunks);
      assert all[..|b|] == b;
      assert all[..|a|] == b[..|a|];
    }
  }

  /**
   * _format_chunks: no chunks give the fixed message; otherwise the header comes first,
   * then entry 1 for the first chunk, and the last chunk's entry closes the text.
   */
  lemma FormattedChunksShape(chunks: seq<Doc>)
    ensures chunks == [] ==> FormattedChunks(chunks) == NoChunksMessage
    ensures chunks != [] ==> StartsWith(FormattedChunks(chunks), ChunksHeader + ChunkEntry(1, chunks[0]))
    ensures chunks != [] ==> EndsWith(FormattedChunks(chunks), ChunkEntry(|chunks|, chunks[|chunks| - 1]))
  {
    if chunks != [] {
      var e := ChunkEntries(chunks);
      var first := ChunkEntry(1, chunks[0]);
      assert StartsWith(e, first) by {
        ChunkEntriesPrefix(chunks, 1);
        assert chunks[..1][..0] == [];
        assert ChunkEntries(chunks[..1]) == first;
      }
      StartsWithPrepend(ChunksHeader, e, first);
      var init := ChunkEntries(chunks[..|chunks| - 1]);
      var last := ChunkEntry(|chunks|, chunks[|chunks| - 1]);
      assert ChunksHeader + e == (ChunksHeader + init) + last;
      ConcatEndsWith(ChunksHeader + init, last);
    }
  }

  /** `"\n\n".join(...)` of the source-tagged chunks handed to the LLM. */
  function Context(chunks: seq<Doc>): string {
    if chunks == [] then ""
    else if |chunks| == 1 then "[Source: " + SourceOf(chunks[0]) + "]\n" + chunks[0].content
    else Context(chunks[..|chunks| - 1]) + "\n\n" + "[Source: " + SourceOf(chunks[|chunks| - 1]) + "]\n" + chunks[|chunks| - 1].content
  }

  /** _synthesize_answer: the LLM's text, or the formatted chunks when the call raises. */
  function SynthesizedAnswer(question: string, chunks: seq<Doc>, llm: Llm): string {
    var response := llm(Context(chunks), question);
    if response.Returned? then response.value else FormattedChunks(chunks)
  }

  /** The result of `query` once an index is available. */
  function Answer(idx: Index, question: string, k: Option<int>, env: Env, llm: Option<Llm>): QueryResult {
    match env.retrieve(idx, question, KOf(k))
    case Raised(e) => Failed(e, "Error during analysis: " + e)
    case Returned(chunks) =>
      Answered(chunks, if llm.Some? then SynthesizedAnswer(question, chunks, llm.value) else FormattedChunks(chunks))
  }

  /** What `query` returns and the state it leaves. */
  function QueryOutcome(s: State, question: string, k: Option<int>, env: Env, llm: Option<Llm>): (QueryResult, State) {
    var s2 := Prepared(s, env);
    if !Ready(s, env) then (NoData, s2)
    else (Answer(s2.index.value, question, k, env, llm), s2)
  }

  /**
   * "No transcript data" is reported exactly when there is no index in memory,
   * none on disk, and building one does not succeed.
   */
  lemma NoDataExactly(s: State, question: string, k: Option<int>, env: Env, llm: Option<Llm>)
    ensures QueryOutcome(s, question, k, env, llm).0 == NoData <==>
      s.index.None? && !s.disk.Saved? && !BuildOk(env)
  {
    var r := QueryOutcome(s, question, k, env, llm).0;
    if Ready(s, env) {
      var idx := Prepared(s, env).index.value;
      match env.retrieve(idx, question, KOf(k))
      case Raised(e) =>
        assert r.answer[0] == 'E' && NoData.answer[0] == 'N';
      case Returned(_) =>
    }
  }

  /** Without an LLM, or when the LLM raises, the answer is the formatted chunk list. */
  lemma AnswerFallsBackToChunks(idx: Index, question: string, k: Option<int>, env: Env, llm: Option<Llm>)
    requires env.retrieve(idx, question, KOf(k)).Returned?
    requires llm.None? || llm.value(Context(env.retrieve(idx, question, KOf(k)).value), question).Raised?
    ensures Answer(idx, question, k, env, llm) ==
      var chunks := env.retrieve(idx, question, KOf(k)).value; Answered(chunks, FormattedChunks(chunks))
  {
  }

  /** After one query the state no longer changes: later queries load or build nothing new. */
  lemma QueryStateSettles(s: State, q1: string, k1: Option<int>, q2: string, k2: Option<int>, env: Env, llm: Option<Llm>)
    ensures var s1 := QueryOutcome(s, q1, k1, env, llm).1;
            QueryOutcome(s1, q2, k2, env, llm).1 == s1
  {
    var s1 := Prepared(s, env);
    assert QueryOutcome(s, q1, k1, env, llm).1 == s1;
    if s.index.None? && !s.disk.Saved? {
      if Built(env).Some? {
        assert s1.index.Some?;
      } else {
        assert s1 == s;
      }
    }
  }

  // ---------------------------------------------------------------------------
  // analyze_comprehensive and run

  /** The five (key, question) pairs of analyze_comprehensive, in dict order. */
  const ComprehensiveQueries: seq<(string, string)> := [
    ("sentiment", "What is management's overall sentiment and outlook for the business?"),
    ("themes", "What are the key recurring themes and focus areas mentioned?"),
    ("risks", "What risks, challenges, or concerns has management identified?"),
    ("opportunities", "What growth opportunities and positive developments were discussed?"),
    ("forward_statements", "What specific forward-looking statements did management make?")
  ]

  /** The results dictionary after asking `qs` with k = 3, and the state left behind. */
  function AskAll(s: State, qs: seq<(string, string)>, env: Env, llm: Option<Llm>): (r: (Dict<string>, State))
    ensures |r.0| == |qs|
  {
    if qs == [] then ([], s)
    else
      var prev := AskAll(s, qs[..|qs| - 1], env, llm);
      var out := QueryOutcome(prev.1, qs[|qs| - 1].1, Some(3), env, llm);
      (prev.0 + [(qs[|qs| - 1].0, out.0.answer)], out.1)
  }

  /** Asking one more question appends one entry under that question's key. */
  lemma AskAllSnoc(s: State, qs: seq<(string, string)>, env: Env, llm: Option<Llm>)
    requires qs != []
    ensures var r := AskAll(s, qs, env, llm).0;
      r == AskAll(s, qs[..|qs| - 1], env, llm).0 + [(qs[|qs| - 1].0, r[|qs| - 1].1)]
  {
  }

  /** The results hold one entry per question key, in question order. */
  lemma {:induction false} AskAllKeys(s: State, qs: seq<(string, string)>, env: Env, llm: Option<Llm>)
    ensures var ks := Keys(AskAll(s, qs, env, llm).0);
      |ks| == |qs| && forall i :: 0 <= i < |qs| ==> ks[i] == qs[i].0
  {
    if qs != [] {
      var init := qs[..|qs| - 1];
      var prev := AskAll(s, init, env, llm).0;
      var r := AskAll(s, qs, env, llm).0;
      AskAllKeys(s, init, env, llm);
      AskAllSnoc(s, qs, env, llm);
      KeysSnoc(prev, r[|qs| - 1]);
      assert Keys(r) == Keys(prev) + [qs[|qs| - 1].0];
      forall i | 0 <= i < |qs| ensures Keys(r)[i] == qs[i].0 {
        if i < |init| {
          assert init[i] == qs[i];
        }
      }
    }
  }

  /** With an index in memory, `query` neither loads nor builds and answers from that index. */
  lemma QueryWithIndex(s: State, question: string, k: Option<int>, env: Env, llm: Option<Llm>)
    requires s.index.Some?
    ensures QueryOutcome(s, question, k, env, llm) == (Answer(s.index.value, question, k, env, llm), s)
  {
  }

  /** With an index already in memory, the comprehensive questions change nothing. */
  lemma {:induction false} AskAllKeepsState(s: State, qs: seq<(string, string)>, env: Env, llm: Option<Llm>)
    requires s.index.Some?
    ensures AskAll(s, qs, env, llm).1 == s
  {
    if qs != [] {
      AskAllKeepsState(s, qs[..|qs| - 1], env, llm);
    }
  }

  /** With an index already in memory, every comprehensive answer comes from that index. */
  lemma {:induction false} AskAllWithIndex(s: State, qs: seq<(string, string)>, env: Env, llm: Option<Llm>)
    requires s.index.Some?
    ensures forall i :: 0 <= i < |qs| ==>
      AskAll(s, qs, env, llm).0[i].1 == Answer(s.index.value, qs[i].1, Some(3), env, llm).answer
  {
    if qs != [] {
      var init := qs[..|qs| - 1];
      var last := qs[|qs| - 1];
      AskAllWithIndex(s, init, env, llm);
      AskAllKeepsState(s, init, env, llm);
      var prev := AskAll(s, init, env, llm).0;
      QueryWithIndex(s, last.1, Some(3), env, llm);
      var a := Answer(s.index.value, last.1, Some(3), env, llm).answer;
      var r := AskAll(s, qs, env, llm).0;
      assert r == prev + [(last.0, a)];
      forall i | 0 <= i < |qs|
        ensures r[i].1 == Answer(s.index.value, qs[i].1, Some(3), env, llm).answer
      {
        if i < |init| {
          assert r[i] == prev[i];
          assert init[i] == qs[i];
        } else {
          assert r[i] == (last.0, a);
        }
      }
    }
  }

  const ComprehensiveHeader := "Comprehensive Qualitative Analysis:\n\n"

  /** The report `run` builds from the comprehensive results. */
  function ComprehensiveReport(results: Dict<string>): (r: string)
    ensures StartsWith(r, ComprehensiveHeader)
  {
    var body :=
      "Management Sentiment:\n" + Get(results, "sentiment", "N/A") + "\n\n"
      + "Key Themes:\n" + Get(results, "themes", "N/A") + "\n\n"
      + "Risks & Challenges:\n" + Get(results, "risks", "N/A") + "\n\n"
      + "Opportunities:\n" + Get(results, "opportunities", "N/A") + "\n\n"
      + "Forward-Looking Statements:\n" + Get(results, "forward_statements", "N/A") + "\n";
    var r := ComprehensiveHeader + body;
    assert r[..|ComprehensiveHeader|] == ComprehensiveHeader;
    r
  }

  predicate WantsComprehensive(input: string) {
    Contains(Lower(input), "comprehensive") || Contains(Lower(input), "overall")
  }

  /** What `run` returns and the state it leaves. */
  function RunOutcome(s: State, input: string, env: Env, llm: Option<Llm>): (string, State) {
    if WantsComprehensive(input) then
      var (results, s1) := AskAll(s, ComprehensiveQueries, env, llm);
      (ComprehensiveReport(results), s1)
    else
      var (res, s1) := QueryOutcome(s, input, None, env, llm);
      (res.answer, s1)
  }

  // ---------------------------------------------------------------------------
  // The tool object

  class QualitativeAnalysisTool {
    /** self.vector_store. */
    var index: Option<Index>
    /** Whether self.embeddings has been set (the model itself is opaque). */
    var embeddings: bool
    /** The directory at FAISS_INDEX_PATH, which the tool reads and writes. */
    var disk: Stored
    /** self.llm. */
    const llm: Option<Llm>

    constructor (llm: Option<Llm>, disk: Stored)
      ensures this.llm == llm && this.disk == disk
      ensures index.None? && !embeddings
    {
      this.llm := llm;
      this.disk := disk;
      index := None;
      embeddings := false;
    }

    function Current(): State
      reads this
    {
      State(index, disk)
    }

    /** initialize_embeddings: a failing model falls back to fake embeddings, so it always ends set. */
    method InitializeEmbeddings()
      modifies this
      ensures embeddings && index == old(index) && disk == old(disk)
    {
      if !embeddings {
        embeddings := true;
      }
    }

    /** load_vector_store: succeeds exactly when a readable index is saved on disk. */
    method LoadVectorStore() returns (ok: bool)
      modifies this
      ensures ok == old(disk).Saved?
      ensures index == (if ok then Some(old(disk).idx) else old(index))
      ensures disk == old(disk) && embeddings
    {
      InitializeEmbeddings();
      match disk
      case Missing => ok := false;
      case Corrupt => ok := false;
      case Saved(idx) =>
        index := Some(idx);
        ok := true;
    }

    /** The loading loop of build_vector_store. */
    static method LoadFiles(files: seq<string>, env: Env) returns (allDocuments: seq<Doc>)
      ensures allDocuments == Loaded(files, env)
    {
      allDocuments := [];
      var i := 0;
      while i < |files|
        invariant 0 <= i <= |files|
        invariant allDocuments == Loaded(files[..i], env)
      {
        assert files[..i + 1][..i] == files[..i];
        var docs := LoadPdfRobust(files[i], env);
        if docs != [] {
          allDocuments := allDocuments + Tag(docs, files[i]);
        }
        i := i + 1;
      }
      assert files[..|files|] == files;
    }

    /** build_vector_store. */
    method BuildVectorStore(env: Env) returns (ok: bool)
      modifies this
      ensures ok == BuildOk(env)
      ensures Current() == AfterBuild(old(Current()), env)
      ensures embeddings
    {
      InitializeEmbeddings();
      if !env.dirExists {
        return false;
      }
      var transcriptFiles := SelectTranscriptFiles(env.listing);
      if transcriptFiles == [] {
        return false;
      }
      var allDocuments := LoadFiles(transcriptFiles, env);
      if allDocuments == [] {
        return false;
      }
      var chunks := env.split(allDocuments);
      var built := FromDocuments(chunks);
      if built.Raised? {
        return false;
      }
      index := Some(built.value);
      if !env.saveOk {
        return false;
      }
      disk := Saved(built.value);
      ok := true;
    }

    /** _format_chunks, building its output with `+=`. */
    static method FormatChunks(chunks: seq<Doc>) returns (output: string)
      ensures output == FormattedChunks(chunks)
    {
      if chunks == [] {
        return NoChunksMessage;
      }
      var entries := "";
      var i := 0;
      while i < |chunks|
        invariant 0 <= i <= |chunks|
        invariant entries == ChunkEntries(chunks[..i])
      {
        assert chunks[..i + 1][..i] == chunks[..i];
        entries := entries + ChunkEntry(i + 1, chunks[i]);
        i := i + 1;
      }
      assert chunks[..|chunks|] == chunks;
      output := ChunksHeader + entries;
    }

    /** query. */
    method Query(question: string, k: Option<int>, env: Env) returns (r: QueryResult)
      modifies this
      ensures (r, Current()) == QueryOutcome(old(Current()), question, k, env, llm)
    {
      if index.None? {
        var loaded := LoadVectorStore();
        if !loaded {
          var built := BuildVectorStore(env);
          if !built {
            return NoData;
          }
        }
      }
      var kk := KOf(k);
      var retrieved := env.retrieve(index.value, question, kk);
      if retrieved.Raised? {
        return Failed(retrieved.error, "Error during analysis: " + retrieved.error);
      }
      var chunks := retrieved.value;
      var answer;
      if llm.Some? {
        var response := llm.value(Context(chunks), question);
        if response.Returned? {
          answer := response.value;
        } else {
          answer := FormatChunks(chunks);
        }
      } else {
        answer := FormatChunks(chunks);
      }
      r := Answered(chunks, answer);
    }

    /** analyze_comprehensive: the five fixed questions, asked in order. */
    method AnalyzeComprehensive(env: Env) returns (results: Dict<string>)
      modifies this
      ensures (results, Current()) == AskAll(old(Current()), ComprehensiveQueries, env, llm)
    {
      results := AskEach(ComprehensiveQueries, env);
    }

    /** The loop of analyze_comprehensive: each question with k = 3, its answer stored under its key. */
    method AskEach(qs: seq<(string, string)>, env: Env) returns (results: Dict<string>)
      modifies this
      ensures (results, Current()) == AskAll(old(Current()), qs, env, llm)
    {
      results := [];
      var i := 0;
      while i < |qs|
        invariant 0 <= i <= |qs|
        invariant (results, Current()) == AskAll(old(Current()), qs[..i], env, llm)
      {
        assert qs[..i + 1][..i] == qs[..i];
        var (key, q) := qs[i];
        var result := Query(q, Some(3), env);
        results := results + [(key, result.answer)];
        i := i + 1;
      }
      assert qs[..|qs|] == qs;
    }

    /** run: comprehensive requests ask the five fixed questions, anything else is one query. */
    method Run(input: string, env: Env) returns (output: string)
      modifies this
      ensures (output, Current()) == RunOutcome(old(Current()), input, env, llm)
    {
      if WantsComprehensive(input) {
        var results := AnalyzeComprehensive(env);
        output := ComprehensiveReport(results);
      } else {
        var result := Query(input, None, env);
        output := result.answer;
      }
    }
  }
}
