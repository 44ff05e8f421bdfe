/**
 * research/raw_code.py: the second research copy of the pipeline. Its
 * scrape_screener_pdfs, clean_filename, classify_transcript_or_ppt,
 * maybe_rename_transcript_or_ppt, download_direct_pdf and current_market_price
 * have the same text as research/raw.py's and are ResearchRaw's members; what
 * differs is modelled here: the direct-only download, the retention rule with a
 * maximum age, the download loop that sweeps after every link, and the shared
 * index built from the folder and an optional URL.
 */
module ResearchRawCode {
  import opened Wrappers
  import opened PyStr
  import opened Documents
  import opened PdfDates
  import ResearchRaw
  import Scraper
  import Sweep

  /** The default `max_age_days` of delete_old_pdfs. */
  const DefaultMaxAgeDays := 365

  // ---------------------------------------------------------------------------
  // download_pdf_generic

  /** `download_pdf_generic`: the cleaned name fetched directly; any exception gives None. */
  method DownloadPdfGeneric(folder: Folder, url: string, filename: string, get: string -> Option<Response>)
    returns (r: Option<string>)
    modifies folder
    ensures r.Some? <==> get(url).Some? && ResearchRaw.CleanFilename(filename) != []
    ensures r.Some? ==> r.value == ResearchRaw.CleanFilename(filename)
                        && folder.files == old(folder.files)[r.value := get(url).value.body]
    ensures r.None? ==> folder.files == old(folder.files)
  {
    var name := ResearchRaw.CleanFilename(filename);
    var saved := ResearchRaw.DownloadDirectPdf(folder, url, name, get);
    r := if saved.Raised? then None else Some(saved.value);
  }

  // ---------------------------------------------------------------------------
  // delete_old_pdfs

  /** `metadata.get("/CreationDate") or metadata.get("/ModDate")`: an empty string counts as missing. */
  function DateString(doc: PdfDoc): (r: Option<string>)
    ensures r.Some? ==> r.value != []
    ensures r.Some? ==> r == doc.creationDate || r == doc.modDate
  {
    if doc.creationDate.Some? && doc.creationDate.value != [] then doc.creationDate
    else if doc.modDate.Some? && doc.modDate.value != [] then doc.modDate
    else None
  }

  /** `strptime(date_str[2:16], "%Y%m%d%H%M%S")`, whatever the first two characters are. */
  function SliceDate(s: string): Option<DateTime> {
    ParseCompact(Slice(s, 2, 16))
  }

  function RecordedDate(doc: PdfDoc): Option<DateTime> {
    var s := DateString(doc);
    if s.None? then None else SliceDate(s.value)
  }

  /** A readable PDF whose date parses and is more than maxAgeDays whole days before now. */
  predicate Expired(name: string, doc: PdfDoc, now: int, maxAgeDays: int) {
    && ResearchRaw.IsPdfName(name)
    && doc.pages.Some?
    && var d := RecordedDate(doc);
       d.Some? && Valid(d.value) && AgeDays(now, d.value) > maxAgeDays
  }

  /** The folder without its expired files. */
  function Swept(files: map<string, PdfDoc>, now: int, maxAgeDays: int): (r: map<string, PdfDoc>)
    ensures forall n :: n in r <==> n in files && !Expired(n, files[n], now, maxAgeDays)
    ensures forall n :: n in r ==> r[n] == files[n]
  {
    Sweep.Without(files, (n, d) => Expired(n, d, now, maxAgeDays))
  }

  /** `delete_old_pdfs`: removes every expired file and returns how many went. */
  method DeleteOldPdfs(folder: Folder, now: int, maxAgeDays: int) returns (deleted: int)
    modifies folder
    ensures folder.files == Swept(old(folder.files), now, maxAgeDays)
    ensures deleted == |old(folder.files)| - |folder.files| >= 0
  {
    var listing := folder.ListDir();
    var count := Sweep.SweepListing(folder, listing, (n, d) => Expired(n, d, now, maxAgeDays));
    deleted := count;
  }

  /** Only characters 2..15 of the date string matter: the "D:" prefix is never checked. */
  lemma PrefixIgnored(s: string, t: string)
    requires |s| >= 2 && |t| >= 2 && s[2..] == t[2..]
    ensures SliceDate(s) == SliceDate(t)
  {
    assert Slice(s, 2, 16) == Slice(t, 2, 16) by {
      if |s| >= 16 {
        assert s[2..16] == s[2..][..14] == t[2..][..14] == t[2..16];
      } else {
        assert s[2..|s|] == s[2..] == t[2..] == t[2..|t|];
      }
    }
  }

  /** An empty /CreationDate falls through to /ModDate. */
  lemma EmptyCreationUsesModDate(doc: PdfDoc)
    requires doc.creationDate == Some("") && doc.modDate.Some? && doc.modDate.value != []
    ensures DateString(doc) == doc.modDate
  {
  }

  /** A file is removed exactly when more than maxAgeDays whole days of seconds separate its date from now. */
  lemma ExpiredMeans(name: string, doc: PdfDoc, now: int, maxAgeDays: int)
    ensures Expired(name, doc, now, maxAgeDays) <==>
              && ResearchRaw.IsPdfName(name) && doc.pages.Some? && RecordedDate(doc).Some? && Valid(RecordedDate(doc).value)
              && now - ToSeconds(RecordedDate(doc).value) >= (maxAgeDays + 1) * 86400
  {
    var d := RecordedDate(doc);
    if d.Some? && Valid(d.value) {
      AgeExceeds(now, d.value, maxAgeDays);
    }
  }

  /** A larger maximum age keeps at least the files a smaller one keeps. */
  lemma SweptMonotoneInAge(files: map<string, PdfDoc>, now: int, a1: int, a2: int)
    requires a1 <= a2
    ensures Swept(files, now, a1).Keys <= Swept(files, now, a2).Keys
  {
  }

  /**
   * The two copies disagree: a date string whose first two characters are not
   * "D:" but whose next fourteen are an old datetime is deleted here and kept by
   * research/raw.py, whose parser needs the "D:" prefix.
   */
  lemma PrefixCheckDiffers(dt: DateTime, now: int, name: string)
    requires Valid(dt) && AgeDays(now, dt) > DefaultMaxAgeDays && ResearchRaw.IsPdfName(name)
    ensures var doc := PdfDoc(Some("X:" + FormatCompact(dt)), None, Some([]));
            Expired(name, doc, now, DefaultMaxAgeDays) && !ResearchRaw.Expired(name, doc, now)
  {
    var s := "X:" + FormatCompact(dt);
    CompactRoundTrip(dt);
    assert Slice(s, 2, 16) == FormatCompact(dt);
    assert !StartsWith(s, "D:") by {
      assert s[0] == 'X';
    }
    assert ResearchRaw.ParsePdfDate(s) == None;
  }

  // ---------------------------------------------------------------------------
  // download_pdfs

  /** No file left in the folder is expired under the default maximum age. */
  predicate NoneExpired(files: map<string, PdfDoc>, now: int) {
    forall n :: n in files ==> !Expired(n, files[n], now, DefaultMaxAgeDays)
  }

  /** The folder after download_pdf_generic and the rename of what it saved, for one link. */
  function Downloaded(files: map<string, PdfDoc>, link: (string, string), get: string -> Option<Response>): map<string, PdfDoc> {
    var name := ResearchRaw.CleanFilename(link.1);
    if get(link.0).Some? && name != [] then ResearchRaw.Renamed(files[name := get(link.0).value.body], name) else files
  }

  /** The folder after one pass of download_pdfs' loop: download, rename, sweep. */
  function AfterLink(files: map<string, PdfDoc>, link: (string, string), get: string -> Option<Response>, now: int): map<string, PdfDoc> {
    Swept(Downloaded(files, link, get), now, DefaultMaxAgeDays)
  }

  /** The folder after the loop has handled `links` in order. */
  function AfterLinks(files: map<string, PdfDoc>, links: seq<(string, string)>, get: string -> Option<Response>, now: int): map<string, PdfDoc> {
    if links == [] then files
    else AfterLink(AfterLinks(files, links[..|links| - 1], get, now), links[|links| - 1], get, now)
  }

  /**
   * `download_pdfs`: for each scraped link in order, download, rename a saved
   * file, then sweep the folder; `now` stands for every `datetime.now()` of the
   * run.
   */
  method DownloadPdfs(folder: Folder, anchors: seq<Scraper.Anchor>, get: string -> Option<Response>, now: int)
    returns (message: string)
    modifies folder
    ensures message == "Finished downloading PDFs."
    ensures folder.files == AfterLinks(old(folder.files), ResearchRaw.ScrapedEntries(anchors), get, now)
  {
    var pdfs := ResearchRaw.ScrapeScreenerPdfs(anchors);
    var i := 0;
    while i < |pdfs|
      invariant 0 <= i <= |pdfs|
      invariant folder.files == AfterLinks(old(folder.files), pdfs[..i], get, now)
    {
      assert pdfs[..i + 1][..i] == pdfs[..i];
      DownloadLink(folder, pdfs[i], get, now);
      i := i + 1;
    }
    assert pdfs[..|pdfs|] == pdfs;
    message := "Finished downloading PDFs.";
  }

  /** One pass of download_pdfs' loop. */
  method DownloadLink(folder: Folder, link: (string, string), get: string -> Option<Response>, now: int)
    modifies folder
    ensures folder.files == AfterLink(old(folder.files), link, get, now)
  {
    var (url, filename) := link;
    var path := DownloadPdfGeneric(folder, url, filename, get);
    if path.Some? {
      var _ := ResearchRaw.MaybeRename(folder, path.value);
    }
    var _ := DeleteOldPdfs(folder, now, DefaultMaxAgeDays);
  }

  /** After at least one link no expired file is left; with none the folder is untouched. */
  lemma AfterLinksSwept(files: map<string, PdfDoc>, links: seq<(string, string)>, get: string -> Option<Response>, now: int)
    ensures links == [] ==> AfterLinks(files, links, get, now) == files
    ensures links != [] ==> NoneExpired(AfterLinks(files, links, get, now), now)
  {
  }

  /** One pass keeps a file that is not expired and is not the link's cleaned name, with its contents. */
  lemma AfterLinkKeeps(files: map<string, PdfDoc>, link: (string, string), get: string -> Option<Response>, now: int, n: string)
    requires n in files && n != ResearchRaw.CleanFilename(link.1) && !Expired(n, files[n], now, DefaultMaxAgeDays)
    ensures n in AfterLink(files, link, get, now) && AfterLink(files, link, get, now)[n] == files[n]
  {
    var name := ResearchRaw.CleanFilename(link.1);
    if get(link.0).Some? && name != [] {
      var saved := files[name := get(link.0).value.body];
      assert n in saved && saved[n] == files[n];
      if ResearchRaw.Classify(ResearchRaw.FileAt(saved, name)).Some? {
        assert ResearchRaw.RenameTarget(saved, name) != n;
      }
    }
  }

  /**
   * The loop never touches a file that is not expired and is not the cleaned
   * name of a link: it stays, with its contents.
   */
  lemma {:induction false} AfterLinksKeeps(files: map<string, PdfDoc>, links: seq<(string, string)>, get: string -> Option<Response>, now: int, n: string)
    requires n in files && !Expired(n, files[n], now, DefaultMaxAgeDays)
    requires forall j :: 0 <= j < |links| ==> ResearchRaw.CleanFilename(links[j].1) != n
    ensures n in AfterLinks(files, links, get, now) && AfterLinks(files, links, get, now)[n] == files[n]
  {
    if links != [] {
      var i := |links| - 1;
      AfterLinksKeeps(files, links[..i], get, now, n);
      AfterLinkKeeps(AfterLinks(files, links[..i], get, now), links[i], get, now, n);
    }
  }

  /** n is `name` or a numbered name made from it. */
  ghost predicate NamedFrom(n: string, name: string) {
    n == name || exists k: nat :: n == ResearchRaw.Numbered(name, k)
  }

  /** n is the cleaned name of one of the links, or a numbered name made from it. */
  ghost predicate FromLink(n: string, links: seq<(string, string)>) {
    exists j :: 0 <= j < |links| && NamedFrom(n, ResearchRaw.CleanFilename(links[j].1))
  }

  /** Every file in the folder afterwards was there before or was saved from one of the links. */
  lemma {:induction false} AfterLinksFromLinks(files: map<string, PdfDoc>, links: seq<(string, string)>, get: string -> Option<Response>, now: int, n: string)
    requires n in AfterLinks(files, links, get, now)
    ensures n in files || FromLink(n, links)
  {
    if links != [] {
      var i := |links| - 1;
      var init := links[..i];
      var before := AfterLinks(files, init, get, now);
      AfterLinkFrom(before, links[i], get, now, n);
      if n in before {
        AfterLinksFromLinks(files, init, get, now, n);
        if n !in files {
          FromLinkSnoc(n, init, links);
        }
      }
    }
  }

  /** A name made from one of the first links is made from one of all the links. */
  lemma FromLinkSnoc(n: string, init: seq<(string, string)>, links: seq<(string, string)>)
    requires |init| <= |links| && init == links[..|init|] && FromLink(n, init)
    ensures FromLink(n, links)
  {
    var j :| 0 <= j < |init| && NamedFrom(n, ResearchRaw.CleanFilename(init[j].1));
    assert init[j] == links[j];
    assert NamedFrom(n, ResearchRaw.CleanFilename(links[j].1));
  }

  /** A file after one pass of the loop was there before, or is named from the link. */
  lemma AfterLinkFrom(before: map<string, PdfDoc>, link: (string, string), get: string -> Option<Response>, now: int, n: string)
    requires n in AfterLink(before, link, get, now)
    ensures n in before || NamedFrom(n, ResearchRaw.CleanFilename(link.1))
  {
    assert n in Downloaded(before, link, get);
    if n !in before {
      var name := ResearchRaw.CleanFilename(link.1);
      var saved := before[name := get(link.0).value.body];
      assert n == name || n == ResearchRaw.RenameTarget(saved, name);
    }
  }

  /** The last link's file, once saved and renamed, is still there exactly when the sweep does not find it expired. */
  lemma LastLinkStays(files: map<string, PdfDoc>, links: seq<(string, string)>, get: string -> Option<Response>, now: int)
    requires links != [] && get(links[|links| - 1].0).Some? && ResearchRaw.CleanFilename(links[|links| - 1].1) != []
    ensures var link := links[|links| - 1];
            var name := ResearchRaw.CleanFilename(link.1);
            var saved := AfterLinks(files, links[..|links| - 1], get, now)[name := get(link.0).value.body];
            var target := ResearchRaw.RenameTarget(saved, name);
            target in AfterLinks(files, links, get, now) <==> !Expired(target, get(link.0).value.body, now, DefaultMaxAgeDays)
  {
  }

  // ---------------------------------------------------------------------------
  // create_vector_store, load_existing_vector_store, user_query_answer

  /** The index a sequence of splits builds, or None when there are none. */
  function Gathered(splits: seq<Doc>): (r: Option<Index>)
    ensures r.None? <==> splits == []
    ensures r.Some? ==> r.value.docs == splits
  {
    if splits == [] then None else Some(Index(splits))
  }

  /** One batch of create_vector_store: a fresh index from the first non-empty batch, an append after. */
  function Merge(index: Option<Index>, batch: seq<Doc>): Option<Index> {
    if batch == [] then index
    else if index.None? then Some(Index(batch))
    else Some(AddDocuments(index.value, batch))
  }

  /** Merging batch by batch gathers their concatenation. */
  lemma MergeGathers(done: seq<Doc>, batch: seq<Doc>)
    ensures Merge(Gathered(done), batch) == Gathered(done + batch)
  {
    if batch == [] {
      assert done + batch == done;
    } else if done == [] {
      assert done + batch == batch;
    } else {
      assert |done + batch| > 0;
    }
  }

  /** PyPDFLoader, then PDFMinerLoader when it raises; None when both raise. */
  function LoadPdf(name: string, pyPdf: string -> Option<seq<Doc>>, pdfMiner: string -> Option<seq<Doc>>): Option<seq<Doc>> {
    if pyPdf(name).Some? then pyPdf(name) else pdfMiner(name)
  }

  /** The splits one listed name contributes: none for a non-PDF or a file neither loader reads. */
  function FileSplits(name: string, pyPdf: string -> Option<seq<Doc>>, pdfMiner: string -> Option<seq<Doc>>,
                      split: seq<Doc> -> seq<Doc>): seq<Doc>
  {
    if !ResearchRaw.IsPdfName(name) then []
    else
      var docs := LoadPdf(name, pyPdf, pdfMiner);
      if docs.None? then [] else split(docs.value)
  }

  /** The splits of the listed files, in listing order. */
  function PdfSplits(listing: seq<string>, pyPdf: string -> Option<seq<Doc>>, pdfMiner: string -> Option<seq<Doc>>,
                     split: seq<Doc> -> seq<Doc>): seq<Doc>
  {
    if listing == [] then []
    else PdfSplits(listing[..|listing| - 1], pyPdf, pdfMiner, split) + FileSplits(listing[|listing| - 1], pyPdf, pdfMiner, split)
  }

  /** The URL's splits: none without a URL (None or ""), or when its loader raises. */
  function UrlSplits(url: Option<string>, loadUrl: string -> Option<seq<Doc>>, split: seq<Doc> -> seq<Doc>): seq<Doc> {
    if url.None? || url.value == [] then []
    else
      var docs := loadUrl(url.value);
      if docs.None? then [] else split(docs.value)
  }

  /** A non-PDF name adds nothing to the index. */
  lemma NonPdfAddsNothing(listing: seq<string>, name: string, pyPdf: string -> Option<seq<Doc>>,
                          pdfMiner: string -> Option<seq<Doc>>, split: seq<Doc> -> seq<Doc>)
    requires !ResearchRaw.IsPdfName(name)
    ensures PdfSplits(listing + [name], pyPdf, pdfMiner, split) == PdfSplits(listing, pyPdf, pdfMiner, split)
  {
    assert (listing + [name])[..|listing|] == listing;
  }

  /**
   * The module's global `vector_store`, and the index persisted under
   * "faiss_index" by create_vector_store.
   */
  class Store {
    var index: Option<Index>
    var saved: Option<Index>

    /** The module is imported with `vector_store = None` and no saved index. */
    constructor ()
      ensures index == None && saved == None
    {
      index := None;
      saved := None;
    }

    /**
     * `create_vector_store`: the splits of every readable *.pdf of `listing`
     * (`os.listdir`) in order, then the URL's; the first non-empty batch creates
     * the index and later ones are appended. A non-empty result is saved.
     */
    method CreateVectorStore(listing: seq<string>, url: Option<string>,
                             pyPdf: string -> Option<seq<Doc>>, pdfMiner: string -> Option<seq<Doc>>,
                             split: seq<Doc> -> seq<Doc>, loadUrl: string -> Option<seq<Doc>>)
      returns (r: Option<Index>)
      modifies this
      ensures r == index == Gathered(PdfSplits(listing, pyPdf, pdfMiner, split) + UrlSplits(url, loadUrl, split))
      ensures saved == if r.None? then old(saved) else r
    {
      index := None;
      var i := 0;
      while i < |listing|
        invariant 0 <= i <= |listing|
        invariant index == Gathered(PdfSplits(listing[..i], pyPdf, pdfMiner, split))
        invariant saved == old(saved)
      {
        var name := listing[i];
        assert listing[..i + 1][..i] == listing[..i];
        MergeGathers(PdfSplits(listing[..i], pyPdf, pdfMiner, split), FileSplits(name, pyPdf, pdfMiner, split));
        if ResearchRaw.IsPdfName(name) {
          var docs := pyPdf(name);
          if docs.None? {
            docs := pdfMiner(name);
          }
          if docs.Some? {
            var splits := split(docs.value);
            if splits != [] {
              if index.None? {
                index := Some(Index(splits));
              } else {
                index := Some(AddDocuments(index.value, splits));
              }
            }
          }
        }
        i := i + 1;
      }
      assert listing[..|listing|] == listing;
      MergeGathers(PdfSplits(listing, pyPdf, pdfMiner, split), UrlSplits(url, loadUrl, split));
      if url.Some? && url.value != [] {
        var urlDocs := loadUrl(url.value);
        if urlDocs.Some? {
          var urlSplits := split(urlDocs.value);
          if index.None? && urlSplits != [] {
            index := Some(Index(urlSplits));
          } else if urlSplits != [] {
            index := Some(AddDocuments(index.value, urlSplits));
          }
        }
      }
      if index.Some? {
        saved := index;
      }
      r := index;
    }

    /** `load_existing_vector_store`: the saved index, or None when there is none. */
    method LoadExistingVectorStore()
      modifies this
      ensures index == saved && saved == old(saved)
    {
      index := saved;
    }

    /**
     * `user_query_answer`: RuntimeError before any retrieval when there is no
     * index; otherwise the `k` documents retrieved and the language model's
     * answer over them (`llm` raises as get_llm and the chain do).
     */
    method UserQueryAnswer(query: string, k: int, search: (Index, string, int) -> seq<Doc>,
                           llm: (seq<Doc>, string) -> Outcome<string>)
      returns (r: Outcome<(string, seq<Doc>)>)
      ensures index.None? ==> r == Raised("RuntimeError: vector_store is not initialized. Call create_vector_store() first.")
      ensures index.Some? ==>
                var docs := search(index.value, query, k);
                var answer := llm(docs, query);
                r == if answer.Raised? then Raised(answer.error) else Returned((answer.value, docs))
    {
      if index.None? {
        return Raised("RuntimeError: vector_store is not initialized. Call create_vector_store() first.");
      }
      var docs := search(index.value, query, k);
      var answer := llm(docs, query);
      if answer.Raised? {
        return Raised(answer.error);
      }
      r := Returned((answer.value, docs));
    }
  }
}
