/**
 * research/raw.py: the notebook-style pipeline. It scrapes the ".documents a"
 * anchors of a Screener page, downloads each PDF under a cleaned name, renames
 * transcripts and presentations with a numeric suffix, sweeps PDFs older than a
 * year, and builds FAISS indexes from PDF and URL chunks.
 *
 * The helpers research/raw_code.py shares with it unchanged (the anchor
 * filename rule, clean_filename, the classifier and the rename step) are
 * defined here once. `get` is `requests.get` without a status check: None is a
 * connection error, which this file never catches.
 */
module ResearchRaw {
  import opened Wrappers
  import opened PyStr
  import opened Documents
  import opened PdfDates
  import PdfDownloader
  import Scraper
  import Sweep

  // ---------------------------------------------------------------------------
  // scrape_screener_pdfs

  /** The anchor text, stripped, with newlines and then spaces turned into '_', or "Document"; then ".pdf". */
  function AnchorFilename(text: string): (r: string)
    ensures EndsWith(r, ".pdf") && |r| > 4
  {
    var t := ReplaceAll(ReplaceAll(Strip(text), "\n", "_"), " ", "_");
    (if t == [] then "Document" else t) + ".pdf"
  }

  /** The derived name never holds a space or a newline. */
  lemma AnchorFilenameNoBlanks(text: string)
    ensures ' ' !in AnchorFilename(text) && '\n' !in AnchorFilename(text)
  {
    var a := ReplaceAll(Strip(text), "\n", "_");
    var t := ReplaceAll(a, " ", "_");
    ReplaceCharGone(Strip(text), '\n', "_");
    ReplaceCharGone(a, ' ', "_");
    if '\n' in t {
      ReplaceCharKeeps(a, ' ', "_", '\n');
    }
  }

  /** The (href, filename) pairs of the hrefs ending exactly in ".pdf", in page order. */
  function ScrapedEntries(anchors: seq<Scraper.Anchor>): seq<(string, string)> {
    if anchors == [] then []
    else
      var init := ScrapedEntries(anchors[..|anchors| - 1]);
      var a := anchors[|anchors| - 1];
      if EndsWith(a.href, ".pdf") then init + [(a.href, AnchorFilename(a.text))] else init
  }

  method ScrapeScreenerPdfs(anchors: seq<Scraper.Anchor>) returns (r: seq<(string, string)>)
    ensures r == ScrapedEntries(anchors)
  {
    r := [];
    var i := 0;
    while i < |anchors|
      invariant 0 <= i <= |anchors|
      invariant r == ScrapedEntries(anchors[..i])
    {
      var a := anchors[i];
      if EndsWith(a.href, ".pdf") {
        r := r + [(a.href, AnchorFilename(a.text))];
      }
      assert anchors[..i + 1][..i] == anchors[..i];
      i := i + 1;
    }
    assert anchors[..|anchors|] == anchors;
  }

  /** Anchor a yields the pair e. */
  predicate ScrapedFrom(a: Scraper.Anchor, e: (string, string)) {
    EndsWith(a.href, ".pdf") && e == (a.href, AnchorFilename(a.text))
  }

  /** A pair is scraped exactly when some anchor has a ".pdf" href and that filename. */
  lemma {:induction false} ScrapedEntriesExactly(anchors: seq<Scraper.Anchor>, e: (string, string))
    ensures e in ScrapedEntries(anchors) <==> exists k :: 0 <= k < |anchors| && ScrapedFrom(anchors[k], e)
  {
    if anchors != [] {
      var init := anchors[..|anchors| - 1];
      var last := anchors[|anchors| - 1];
      ScrapedEntriesExactly(init, e);
      assert e in ScrapedEntries(anchors) <==> e in ScrapedEntries(init) || ScrapedFrom(last, e);
      ScrapedFromSnoc(init, last, e);
      assert anchors == init + [last];
    }
  }

  lemma ScrapedFromSnoc(init: seq<Scraper.Anchor>, last: Scraper.Anchor, e: (string, string))
    ensures (exists k :: 0 <= k < |init + [last]| && ScrapedFrom((init + [last])[k], e)) <==>
              (exists k :: 0 <= k < |init| && ScrapedFrom(init[k], e)) || ScrapedFrom(last, e)
  {
    var s := init + [last];
    if exists k :: 0 <= k < |s| && ScrapedFrom(s[k], e) {
      var k :| 0 <= k < |s| && ScrapedFrom(s[k], e);
      if k < |init| {
        assert s[k] == init[k];
      }
    }
    if exists k :: 0 <= k < |init| && ScrapedFrom(init[k], e) {
      var k :| 0 <= k < |init| && ScrapedFrom(init[k], e);
      assert s[k] == init[k];
    }
    assert s[|init|] == last;
  }

  // ---------------------------------------------------------------------------
  // clean_filename (the 180-character variant)

  /** The characters of the class `[\/:*?"<>|;,]`. */
  predicate Forbidden(c: char) {
    c == '/' || c == ':' || c == '*' || c == '?' || c == '"' || c == '<' || c == '>' || c == '|' || c == ';' || c == ','
  }

  predicate NoForbidden(s: string) {
    forall i :: 0 <= i < |s| ==> !Forbidden(s[i])
  }

  function SubForbidden(s: string): (r: string)
    ensures |r| == |s|
    ensures forall i :: 0 <= i < |s| ==> r[i] == if Forbidden(s[i]) then '_' else s[i]
  {
    seq(|s|, i requires 0 <= i < |s| => if Forbidden(s[i]) then '_' else s[i])
  }

  /** The substitutions and the strip, before the length limit. */
  function CleanUncapped(name: string): string {
    StripChars(PdfDownloader.CollapseUnderscores(SubForbidden(name)), {' ', '.'})
  }

  /** `clean_filename`: the cleaned name, cut to its first 180 characters. */
  function CleanFilename(name: string): string {
    SliceTo(CleanUncapped(name), 180)
  }

  lemma CleanUncappedShape(name: string)
    ensures var c := CleanUncapped(name);
            && NoForbidden(c) && PdfDownloader.NoDoubleUnderscore(c)
            && (|c| > 0 ==> c[0] != ' ' && c[0] != '.' && c[|c| - 1] != ' ' && c[|c| - 1] != '.')
  {
    var sub := SubForbidden(name);
    var col := PdfDownloader.CollapseUnderscores(sub);
    PdfDownloader.CollapseDrawsFrom(sub);
    assert NoForbidden(col) by {
      forall i | 0 <= i < |col| ensures !Forbidden(col[i]) {
        var j :| 0 <= j < |sub| && sub[j] == col[i];
      }
    }
    StripCharsIsInfix(col, {' ', '.'});
  }

  /** The result has at most 180 characters, none of the forbidden ones and no "__". */
  lemma CleanFilenameSafe(name: string)
    ensures var r := CleanFilename(name);
            |r| <= 180 && NoForbidden(r) && PdfDownloader.NoDoubleUnderscore(r)
  {
    CleanUncappedShape(name);
  }

  /** A name that comes out at most 180 characters long is cleaned already. */
  lemma CleanFilenameIdempotent(name: string)
    requires |CleanUncapped(name)| <= 180
    ensures CleanFilename(CleanFilename(name)) == CleanFilename(name)
  {
    var c := CleanUncapped(name);
    CleanUncappedShape(name);
    assert CleanFilename(name) == c;
    assert SubForbidden(c) == c;
    assert PdfDownloader.CollapseUnderscores(c) == c by {
      PdfDownloader.CollapseKeeps(c);
    }
    StripCharsNoop(c, {' ', '.'});
  }

  /**
   * The cut keeps a prefix: a stem of 180 or more letters loses its ".pdf", so the
   * saved file is missed by every later scan for names ending in ".pdf".
   */
  lemma LongNameLosesPdfSuffix(stem: string)
    requires |stem| >= 180 && forall i :: 0 <= i < |stem| ==> 'a' <= stem[i] <= 'z'
    ensures CleanFilename(stem + ".pdf") == stem[..180]
    ensures !EndsWithIgnoreCase(CleanFilename(stem + ".pdf"), ".pdf")
  {
    var f := stem + ".pdf";
    LetterNameIsClean(stem);
    assert f[..180] == stem[..180];
    var r := stem[..180];
    assert Lower(r)[|r| - 4] == LowerChar(stem[176]) != '.';
  }

  lemma LetterNameIsClean(stem: string)
    requires |stem| > 0 && forall i :: 0 <= i < |stem| ==> 'a' <= stem[i] <= 'z'
    ensures CleanUncapped(stem + ".pdf") == stem + ".pdf"
  {
    var f := stem + ".pdf";
    assert PdfDownloader.CollapseUnderscores(SubForbidden(f)) == f by {
      LetterNameNoForbidden(stem);
      LetterNameNoUnderscore(stem);
      PdfDownloader.CollapseKeeps(f);
    }
    assert StripChars(f, {' ', '.'}) == f by {
      assert f[0] == stem[0];
      assert f[|f| - 1] == 'f';
      StripCharsNoop(f, {' ', '.'});
    }
  }

  lemma LetterNameNoUnderscore(stem: string)
    requires forall i :: 0 <= i < |stem| ==> 'a' <= stem[i] <= 'z'
    ensures PdfDownloader.NoDoubleUnderscore(stem + ".pdf")
  {
    var f := stem + ".pdf";
    forall i | 0 <= i < |f| - 1 ensures f[i] != '_' {
      if i < |stem| { assert f[i] == stem[i]; }
    }
  }

  lemma LetterNameNoForbidden(stem: string)
    requires forall i :: 0 <= i < |stem| ==> 'a' <= stem[i] <= 'z'
    ensures SubForbidden(stem + ".pdf") == stem + ".pdf"
  {
    var f := stem + ".pdf";
    forall i | 0 <= i < |f| ensures !Forbidden(f[i]) {
      if i < |stem| { assert f[i] == stem[i]; }
    }
  }

  // ---------------------------------------------------------------------------
  // classify_transcript_or_ppt

  /**
   * The lower-cased first 800 characters of page 1 decide: "transcript" or
   * "earnings call" first, then "presentation"; an unreadable file or one without
   * pages gives None.
   */
  function Classify(doc: Option<PdfDoc>): Option<string> {
    if doc.None? || doc.value.pages.None? || |doc.value.pages.value| == 0 then None
    else
      var text := Lower(SliceTo(doc.value.pages.value[0], 800));
      if Contains(text, "transcript") || Contains(text, "earnings call") then Some("transcript")
      else if Contains(text, "presentation") || Contains(text, "investor presentation") then Some("presentation")
      else None
  }

  /** The file stored under a name, if any. */
  function FileAt(files: map<string, PdfDoc>, name: string): Option<PdfDoc> {
    if name in files then Some(files[name]) else None
  }

  /** Only the first 800 characters of the first page matter. */
  lemma ClassifyReadsOnlyFirst800(p: string, more: string, rest: seq<string>, other: seq<string>, d1: PdfDoc, d2: PdfDoc)
    requires |p| >= 800
    requires d1.pages == Some([p] + rest) && d2.pages == Some([p[..800] + more] + other)
    ensures Classify(Some(d1)) == Classify(Some(d2))
  {
    assert SliceTo(p, 800) == p[..800];
    assert SliceTo(p[..800] + more, 800) == p[..800];
  }

  /** "investor presentation" adds nothing: a presentation is a page without the transcript words that says "presentation". */
  lemma ClassifyPresentation(doc: PdfDoc)
    requires doc.pages.Some? && |doc.pages.value| > 0
    ensures var text := Lower(SliceTo(doc.pages.value[0], 800));
            Classify(Some(doc)) == Some("presentation") <==>
              !Contains(text, "transcript") && !Contains(text, "earnings call") && Contains(text, "presentation")
  {
    var text := Lower(SliceTo(doc.pages.value[0], 800));
    if Contains(text, "investor presentation") {
      assert OccursAt("investor presentation", "presentation", 9);
      PdfDownloader.ContainsTransitive(text, "investor presentation", "presentation");
    }
  }

  // ---------------------------------------------------------------------------
  // maybe_rename_transcript_or_ppt

  /** `{name}_{k}{ext}`, with name and ext from `os.path.splitext`. */
  function Numbered(base: string, k: nat): string {
    var (stem, ext) := PdfDownloader.SplitExt(base);
    stem + "_" + NatToString(k) + ext
  }

  lemma NumberedInjective(base: string, j: nat, k: nat)
    requires Numbered(base, j) == Numbered(base, k)
    ensures j == k
  {
    var (stem, ext) := PdfDownloader.SplitExt(base);
    var a := NatToString(j);
    var b := NatToString(k);
    var p := |stem| + 1;
    assert |a| == |b|;
    assert Numbered(base, j)[p..p + |a|] == a;
    assert Numbered(base, k)[p..p + |b|] == b;
    NatToStringInjective(j, k);
  }

  /** A numbered name is never the name itself, so the rename always moves the file. */
  lemma NumberedNotOriginal(base: string, k: nat)
    ensures Numbered(base, k) != base
  {
    var (stem, ext) := PdfDownloader.SplitExt(base);
    assert |Numbered(base, k)| > |stem| + |ext| == |base|;
  }

  /** n distinct numbered names that all exist need n files. */
  lemma {:induction false} NumberedBoundedByFolder(keys: set<string>, base: string, n: nat)
    requires forall j :: 1 <= j <= n ==> Numbered(base, j) in keys
    ensures n <= |keys|
  {
    if n > 0 {
      var last := Numbered(base, n);
      forall j | 1 <= j <= n - 1 ensures Numbered(base, j) in keys - {last} {
        if Numbered(base, j) == last {
          NumberedInjective(base, j, n);
        }
      }
      NumberedBoundedByFolder(keys - {last}, base, n - 1);
    }
  }

  /** k >= 1 is the smallest suffix whose numbered name is free. */
  predicate FirstFreeNumber(files: map<string, PdfDoc>, base: string, k: nat) {
    && k >= 1
    && Numbered(base, k) !in files
    && forall j :: 1 <= j < k ==> Numbered(base, j) in files
  }

  /** What maybe_rename_transcript_or_ppt does to the folder and returns, for the name `saved`. */
  ghost predicate RenameStep(before: map<string, PdfDoc>, saved: string, r: string, after: map<string, PdfDoc>) {
    if Classify(FileAt(before, saved)).None? then r == saved && after == before
    else
      && saved in before
      && (exists k: nat :: FirstFreeNumber(before, saved, k) && r == Numbered(saved, k))
      && after == (before - {saved})[r := before[saved]]
  }

  /** Two first free suffixes are the same suffix. */
  lemma FirstFreeNumberUnique(files: map<string, PdfDoc>, base: string, j: nat, k: nat)
    requires FirstFreeNumber(files, base, j) && FirstFreeNumber(files, base, k)
    ensures j == k
  {
  }

  /** The first free suffix at or after k, when every suffix from 1 below k is taken. */
  function FreeNumberFrom(files: map<string, PdfDoc>, base: string, k: nat): (r: nat)
    requires k >= 1 && forall j :: 1 <= j < k ==> Numbered(base, j) in files
    ensures k <= r && FirstFreeNumber(files, base, r)
    decreases |files| - k
  {
    if Numbered(base, k) !in files then k
    else
      NumberedBoundedByFolder(files.Keys, base, k);
      FreeNumberFrom(files, base, k + 1)
  }

  /** The name maybe_rename_transcript_or_ppt returns for `saved`: itself when unclassified, else the first free numbered name. */
  function RenameTarget(files: map<string, PdfDoc>, saved: string): (r: string)
    ensures Classify(FileAt(files, saved)).None? ==> r == saved
    ensures Classify(FileAt(files, saved)).Some? ==>
              saved in files && r != saved && r !in files
              && exists k: nat :: FirstFreeNumber(files, saved, k) && r == Numbered(saved, k)
  {
    if Classify(FileAt(files, saved)).None? then saved
    else
      var k := FreeNumberFrom(files, saved, 1);
      NumberedNotOriginal(saved, k);
      Numbered(saved, k)
  }

  /** The folder after maybe_rename_transcript_or_ppt on `saved`. */
  function Renamed(files: map<string, PdfDoc>, saved: string): map<string, PdfDoc> {
    if Classify(FileAt(files, saved)).None? then files
    else (files - {saved})[RenameTarget(files, saved) := files[saved]]
  }

  /** `maybe_rename_transcript_or_ppt`. */
  method MaybeRename(folder: Folder, saved: string) returns (r: string)
    modifies folder
    ensures RenameStep(old(folder.files), saved, r, folder.files)
    ensures r == RenameTarget(old(folder.files), saved) && folder.files == Renamed(old(folder.files), saved)
  {
    var docType := Classify(FileAt(folder.files, saved));
    if docType.None? {
      return saved;
    }
    var counter: nat := 1;
    var newName := Numbered(saved, counter);
    while newName in folder.files
      invariant folder.files == old(folder.files)
      invariant counter >= 1 && newName == Numbered(saved, counter)
      invariant forall j :: 1 <= j < counter ==> Numbered(saved, j) in folder.files
      decreases |folder.files| - counter
    {
      NumberedBoundedByFolder(folder.files.Keys, saved, counter);
      counter := counter + 1;
      newName := Numbered(saved, counter);
    }
    assert FirstFreeNumber(folder.files, saved, counter);
    FirstFreeNumberUnique(folder.files, saved, counter, FreeNumberFrom(folder.files, saved, 1));
    var ok := folder.Rename(saved, newName);
    if ok {
      return newName;
    }
    r := saved;
  }

  // ---------------------------------------------------------------------------
  // download_pdf

  /**
   * What the three downloaders fetch, status unchecked: Raised on a connection
   * error and on an iframe without src (`None.startswith`), Returned(None) when
   * the wrapper page has no iframe. Direct URLs are used as given.
   */
  function RawFetch(url: string, get: string -> Option<Response>): Outcome<Option<PdfDoc>> {
    if Contains(url, "AnnPdfOpen.aspx") || !Contains(url, "xml-data/corpfiling") then
      var resp := get(url);
      if resp.None? then Raised("ConnectionError") else Returned(Some(resp.value.body))
    else
      var page := get(url);
      if page.None? then Raised("ConnectionError")
      else if page.value.iframe.NoIframe? then Returned(None)
      else if page.value.iframe.IframeNoSrc? then Raised("AttributeError")
      else
        var resp := get(PdfDownloader.Absolute(page.value.iframe.src, "https://www.bseindia.com"));
        if resp.None? then Raised("ConnectionError") else Returned(Some(resp.value.body))
  }

  /** Saves a fetched body under a name; the empty name is the download folder itself and open() raises. */
  method SaveAs(folder: Folder, name: string, doc: PdfDoc) returns (r: Outcome<string>)
    modifies folder
    ensures name == [] ==> r.Raised? && folder.files == old(folder.files)
    ensures name != [] ==> r == Returned(name) && folder.files == old(folder.files)[name := doc]
  {
    if name == [] {
      return Raised("IsADirectoryError");
    }
    folder.Write(name, doc);
    r := Returned(name);
  }

  /** `download_bse_annpdf`. */
  method DownloadBseAnnPdf(folder: Folder, url: string, filename: string, get: string -> Option<Response>)
    returns (r: Outcome<string>)
    modifies folder
    ensures get(url).None? ==> r.Raised? && folder.files == old(folder.files)
    ensures get(url).Some? && filename == [] ==> r.Raised? && folder.files == old(folder.files)
    ensures get(url).Some? && filename != [] ==> r == Returned(filename) && folder.files == old(folder.files)[filename := get(url).value.body]
  {
    var resp := get(url);
    if resp.None? {
      return Raised("ConnectionError");
    }
    r := SaveAs(folder, filename, resp.value.body);
  }

  /** `download_direct_pdf`: the same steps as the AnnPdf downloader, the URL taken as given. */
  method DownloadDirectPdf(folder: Folder, url: string, filename: string, get: string -> Option<Response>)
    returns (r: Outcome<string>)
    modifies folder
    ensures get(url).None? ==> r.Raised? && folder.files == old(folder.files)
    ensures get(url).Some? && filename == [] ==> r.Raised? && folder.files == old(folder.files)
    ensures get(url).Some? && filename != [] ==> r == Returned(filename) && folder.files == old(folder.files)[filename := get(url).value.body]
  {
    var resp := get(url);
    if resp.None? {
      return Raised("ConnectionError");
    }
    r := SaveAs(folder, filename, resp.value.body);
  }

  /** `download_bse_iframe_pdf`: Returned(None) when the page has no iframe. */
  method DownloadBseIframePdf(folder: Folder, url: string, filename: string, get: string -> Option<Response>)
    returns (r: Outcome<Option<string>>)
    modifies folder
    ensures var f := RawFetch(url, get);
            Contains(url, "xml-data/corpfiling") && !Contains(url, "AnnPdfOpen.aspx") ==>
              if f.Raised? || (f.value.Some? && filename == []) then r.Raised? && folder.files == old(folder.files)
              else if f.value.None? then r == Returned(None) && folder.files == old(folder.files)
              else r == Returned(Some(filename)) && folder.files == old(folder.files)[filename := f.value.value]
  {
    var page := get(url);
    if page.None? {
      return Raised("ConnectionError");
    }
    var iframe := page.value.iframe;
    if iframe.NoIframe? {
      return Returned(None);
    }
    if iframe.IframeNoSrc? {
      return Raised("AttributeError");
    }
    var realPdf := iframe.src;
    if !StartsWith(realPdf, "http") {
      realPdf := "https://www.bseindia.com" + realPdf;
    }
    var resp := get(realPdf);
    if resp.None? {
      return Raised("ConnectionError");
    }
    var saved := SaveAs(folder, filename, resp.value.body);
    if saved.Raised? {
      return Raised(saved.error);
    }
    r := Returned(Some(saved.value));
  }

  /**
   * `download_pdf`: cleans the name, routes the URL, saves, and hands the saved
   * name to the rename step; a missing iframe gives None, which the rename step
   * returns unchanged.
   */
  method DownloadPdf(folder: Folder, url: string, filename: string, get: string -> Option<Response>)
    returns (r: Outcome<Option<string>>)
    modifies folder
    ensures var f := RawFetch(url, get);
            var name := CleanFilename(filename);
            if f.Raised? || (f.value.Some? && name == []) then r.Raised? && folder.files == old(folder.files)
            else if f.value.None? then r == Returned(None) && folder.files == old(folder.files)
            else r.Returned? && r.value.Some? && RenameStep(old(folder.files)[name := f.value.value], name, r.value.value, folder.files)
  {
    var name := CleanFilename(filename);
    var saved: Outcome<Option<string>>;
    if Contains(url, "AnnPdfOpen.aspx") {
      var s := DownloadBseAnnPdf(folder, url, name, get);
      saved := if s.Raised? then Raised(s.error) else Returned(Some(s.value));
    } else if Contains(url, "xml-data/corpfiling") {
      saved := DownloadBseIframePdf(folder, url, name, get);
    } else {
      var s := DownloadDirectPdf(folder, url, name, get);
      saved := if s.Raised? then Raised(s.error) else Returned(Some(s.value));
    }
    if saved.Raised? {
      return Raised(saved.error);
    }
    if saved.value.None? {
      return Returned(None);
    }
    var renamed := MaybeRename(folder, saved.value.value);
    r := Returned(Some(renamed));
  }

  // ---------------------------------------------------------------------------
  // delete_old_pdfs and parse_pdf_date

  /** `parse_pdf_date`: characters 2..15 of a "D:" string as YYYYMMDDHHMMSS, else the locale form, else None. */
  function ParsePdfDate(s: string): (r: Option<DateTime>)
    ensures r.Some? ==> Valid(r.value)
  {
    if StartsWith(s, "D:") && ParseCompact(Slice(s, 2, 16)).Some? then ParseCompact(Slice(s, 2, 16))
    else
      var l := ParseLocale(s);
      if l.Some? && Valid(l.value) then l else None
  }

  /** "D:20181012055359+05'30'" reads as 2018-10-12 05:53:59. */
  lemma ParsePdfDateExample()
    ensures ParsePdfDate("D:20181012055359+05'30'") == Some(DateTime(2018, 10, 12, 5, 53, 59))
  {
    PdfDateSampleParts();
    CompactSample();
    CompactRoundTrip(DateTime(2018, 10, 12, 5, 53, 59));
  }

  lemma PdfDateSampleParts()
    ensures var s := "D:20181012055359+05'30'";
            StartsWith(s, "D:") && Slice(s, 2, 16) == "20181012055359"
  {
    var s := "D:20181012055359+05'30'";
    assert s == "D:" + "20181012055359" + "+05'30'";
    assert s[..2] == "D:";
  }

  lemma CompactSample()
    ensures FormatCompact(DateTime(2018, 10, 12, 5, 53, 59)) == "20181012055359"
  {
    CompactSampleDate();
    PadSample(5, "05");
    PadSample(53, "53");
    PadSample(59, "59");
    assert "20181012" + "05" == "2018101205";
    assert "2018101205" + "53" == "201810120553";
    assert "201810120553" + "59" == "20181012055359";
  }

  lemma CompactSampleDate()
    ensures Pad(2018, 4) + Pad(10, 2) + Pad(12, 2) == "20181012"
  {
    assert Pad(2018, 4) == "2018";
    PadSample(10, "10");
    PadSample(12, "12");
    assert "2018" + "10" == "201810";
    assert "201810" + "12" == "20181012";
  }

  lemma PadSample(n: nat, t: string)
    requires n < 100 && |t| == 2 && t[0] == DigitChar(n / 10) && t[1] == DigitChar(n % 10)
    ensures Pad(n, 2) == t
  {
    assert Pad(n / 10, 1) == [DigitChar(n / 10)];
  }

  /** The date the sweep reads: /CreationDate when present, else /ModDate. */
  function RecordedDate(doc: PdfDoc): Option<DateTime> {
    if doc.creationDate.Some? then ParsePdfDate(doc.creationDate.value)
    else if doc.modDate.Some? then ParsePdfDate(doc.modDate.value)
    else None
  }

  /** The sweep looks at names ending in ".pdf" in any case. */
  predicate IsPdfName(name: string) {
    EndsWithIgnoreCase(name, ".pdf")
  }

  /** A readable PDF whose recorded date is more than 365 whole days before now. */
  predicate Expired(name: string, doc: PdfDoc, now: int) {
    && IsPdfName(name)
    && doc.pages.Some?
    && var d := RecordedDate(doc);
       d.Some? && AgeDays(now, d.value) > 365
  }

  /** The folder without its expired files. */
  function Swept(files: map<string, PdfDoc>, now: int): (r: map<string, PdfDoc>)
    ensures forall n :: n in r <==> n in files && !Expired(n, files[n], now)
    ensures forall n :: n in r ==> r[n] == files[n]
  {
    Sweep.Without(files, (n, d) => Expired(n, d, now))
  }

  /** The sweep's report, "Deleted <k> old PDF(s)." */
  function DeletedMessage(k: nat): string {
    "Deleted " + NatToString(k) + " old PDF(s)."
  }

  /**
   * `delete_old_pdfs`: removes every expired file and reports how many went.
   * `now` is `datetime.datetime.now()` in seconds.
   */
  method DeleteOldPdfs(folder: Folder, now: int) returns (message: string)
    modifies folder
    ensures folder.files == Swept(old(folder.files), now)
    ensures |folder.files| <= |old(folder.files)|
    ensures message == DeletedMessage(|old(folder.files)| - |folder.files|)
  {
    var listing := folder.ListDir();
    var deleted := Sweep.SweepListing(folder, listing, (n, d) => Expired(n, d, now));
    message := DeletedMessage(deleted);
  }

  /** A file is removed exactly when more than 365 whole days (366 full days of seconds) separate its date from now. */
  lemma ExpiredMeans(name: string, doc: PdfDoc, now: int)
    ensures Expired(name, doc, now) <==>
              && IsPdfName(name) && doc.pages.Some? && RecordedDate(doc).Some?
              && now - ToSeconds(RecordedDate(doc).value) >= 366 * 86400
  {
    if RecordedDate(doc).Some? {
      AgeExceeds(now, RecordedDate(doc).value, 365);
    }
  }

  /** A second sweep at the same moment removes nothing more. */
  lemma SweptIdempotent(files: map<string, PdfDoc>, now: int)
    ensures Swept(Swept(files, now), now) == Swept(files, now)
  {
  }

  /** A later sweep removes at least what an earlier one removed. */
  lemma SweptMonotone(files: map<string, PdfDoc>, now1: int, now2: int)
    requires now1 <= now2
    ensures Swept(files, now2).Keys <= Swept(files, now1).Keys
  {
    forall n | n in files && Expired(n, files[n], now1) ensures Expired(n, files[n], now2) {

      AgeExceeds(now1, RecordedDate(files[n]).value, 365);
      AgeExceeds(now2, RecordedDate(files[n]).value, 365);
    }
  }

  // ---------------------------------------------------------------------------
  // create_chunks, create_pdf_vector_stores, create_url_vector_store

  /** The names of the listing that end in ".pdf" in any case, in listing order. */
  function PdfNames(listing: seq<string>): (r: seq<string>)
    ensures forall n :: n in r <==> n in listing && IsPdfName(n)
  {
    if listing == [] then []
    else
      var init := PdfNames(listing[..|listing| - 1]);
      var n := listing[|listing| - 1];
      assert listing == listing[..|listing| - 1] + [n];
      if IsPdfName(n) then init + [n] else init
  }

  /**
   * `create_chunks`: `chunks` is only bound inside the try block, so no PDF or a
   * loader failure ends in UnboundLocalError at the return. `load` is the
   * unstructured loader over the paths, `split` the text splitter.
   */
  method CreateChunks(listing: seq<string>, load: seq<string> -> Option<seq<Doc>>, split: seq<Doc> -> seq<Doc>)
    returns (r: Outcome<seq<Doc>>)
    ensures r.Raised? <==> PdfNames(listing) == [] || load(PdfNames(listing)).None?
    ensures r.Returned? ==> r.value == split(load(PdfNames(listing)).value)
  {
    var paths: seq<string> := [];
    var i := 0;
    while i < |listing|
      invariant 0 <= i <= |listing|
      invariant paths == PdfNames(listing[..i])
    {
      if IsPdfName(listing[i]) {
        paths := paths + [listing[i]];
      }
      assert listing[..i + 1][..i] == listing[..i];
      i := i + 1;
    }
    assert listing[..|listing|] == listing;
    if paths == [] {
      return Raised("UnboundLocalError");
    }
    var docs := load(paths);
    if docs.None? {
      return Raised("UnboundLocalError");
    }
    r := Returned(split(docs.value));
  }

  /**
   * `create_pdf_vector_stores`: the store is set to None just before the test,
   * so the add-documents branch never runs and the index is built fresh.
   */
  function CreatePdfVectorStores(chunks: seq<Doc>): (r: Outcome<Index>)
    ensures r.Returned? <==> chunks != []
    ensures r.Returned? ==> r.value.docs == chunks
  {
    FromDocuments(chunks)
  }

  /**
   * `create_url_vector_store`: the index passed in is overwritten, so the result
   * holds the URL chunks only. `loadUrl` is the URL loader (None when it raises).
   */
  function CreateUrlVectorStore(url: string, index: Option<Index>, loadUrl: string -> Option<seq<Doc>>, split: seq<Doc> -> seq<Doc>)
    : (r: Outcome<Index>)
    ensures loadUrl(url).None? ==> r.Raised?
    ensures loadUrl(url).Some? ==> (r.Returned? <==> split(loadUrl(url).value) != [])
    ensures r.Returned? ==> r.value.docs == split(loadUrl(url).value)
  {
    var data := loadUrl(url);
    if data.None? then Raised("URL loader error") else FromDocuments(split(data.value))
  }

  /** The PDF index handed to create_url_vector_store makes no difference to its result. */
  lemma UrlStoreDiscardsIndex(url: string, a: Option<Index>, b: Option<Index>, loadUrl: string -> Option<seq<Doc>>, split: seq<Doc> -> seq<Doc>)
    ensures CreateUrlVectorStore(url, a, loadUrl, split) == CreateUrlVectorStore(url, b, loadUrl, split)
  {
  }

  // ---------------------------------------------------------------------------
  // current_market_price

  /** What the quote call returns: a dict (reduced to its optional "current_value") or something else. */
  datatype Quote = QuoteDict(currentValue: Option<real>) | NotDict

  /**
   * `current_market_price`: ValueError without a "/company/<symbol>/" match;
   * otherwise the quote's "current_value" when it is a dict, else None. `quote`
   * raising is Raised.
   */
  function CurrentMarketPrice(url: string, quote: string -> Outcome<Quote>): (r: Outcome<Option<real>>)
    ensures Scraper.CompanySymbolMatch(url).None? ==> r == Raised("ValueError: Could not parse stock symbol from URL.")
    ensures Scraper.CompanySymbolMatch(url).Some? ==>
              var q := quote(Scraper.ExtractCompanySymbol(url));
              r == if q.Raised? then Raised(q.error) else if q.value.QuoteDict? then Returned(q.value.currentValue) else Returned(None)
  {
    var m := Scraper.CompanySymbolMatch(url);
    if m.None? then Raised("ValueError: Could not parse stock symbol from URL.")
    else
      var result := quote(m.value);
      if result.Raised? then Raised(result.error)
      else if result.value.QuoteDict? then Returned(result.value.currentValue)
      else Returned(None)
  }
}
