/**
 * app/utils/pdf_downloader.py: downloads the scraped PDF links into the PDF
 * folder, classifies each file by its first pages and prefixes its name with the
 * class.
 *
 * Paths are file names inside the PDF folder (the folder prefix of the source's
 * paths is constant). `get` is `requests.get`: None for a connection error.
 */
module PdfDownloader {
  import opened Wrappers
  import opened PyStr
  import opened Documents

  // ---------------------------------------------------------------------------
  // clean_filename

  /** The characters of the class `[<>:"/\\|?*]`. */
  predicate Forbidden(c: char) {
    c == '<' || c == '>' || c == ':' || c == '"' || c == '/' || c == '\\' || c == '|' || c == '?' || c == '*'
  }

  function SubForbidden(s: string): (r: string)
    ensures |r| == |s|
    ensures forall i :: 0 <= i < |s| ==> r[i] == if Forbidden(s[i]) then '_' else s[i]
  {
    seq(|s|, i requires 0 <= i < |s| => if Forbidden(s[i]) then '_' else s[i])
  }

  predicate NoForbidden(s: string) {
    forall i :: 0 <= i < |s| ==> !Forbidden(s[i])
  }

  predicate NoDoubleUnderscore(s: string) {
    forall i :: 0 <= i < |s| - 1 ==> !(s[i] == '_' && s[i + 1] == '_')
  }

  /** `re.sub(r'_+', '_', s)`: every run of underscores becomes one. */
  function CollapseUnderscores(s: string): (r: string)
    ensures |r| <= |s|
    ensures |s| > 0 ==> |r| > 0 && r[0] == s[0]
    ensures NoDoubleUnderscore(r)
  {
    if |s| == 0 then []
    else if |s| >= 2 && s[0] == '_' && s[1] == '_' then CollapseUnderscores(s[1..])
    else [s[0]] + CollapseUnderscores(s[1..])
  }

  /** The collapse only drops characters: each one it keeps comes from the input. */
  lemma {:induction false} CollapseDrawsFrom(s: string)
    ensures forall i :: 0 <= i < |CollapseUnderscores(s)| ==> CollapseUnderscores(s)[i] in s
  {
    if |s| > 0 {
      CollapseDrawsFrom(s[1..]);
      var r := CollapseUnderscores(s);
      var t := CollapseUnderscores(s[1..]);
      forall i | 0 <= i < |r| ensures r[i] in s {
        if |s| >= 2 && s[0] == '_' && s[1] == '_' {
          assert r[i] == t[i] && t[i] in s[1..];
        } else if i > 0 {
          assert r[i] == t[i - 1] && t[i - 1] in s[1..];
        }
      }
    }
  }

  /** A string with no run of two underscores is left alone by the collapse. */
  lemma {:induction false} CollapseKeeps(s: string)
    requires NoDoubleUnderscore(s)
    ensures CollapseUnderscores(s) == s
  {
    if |s| > 0 {
      CollapseKeeps(s[1..]);
    }
  }

  /**
   * `os.path.splitext` (POSIX): the extension starts at the last '.' after the
   * last '/', unless only dots precede it in the final path component.
   */
  function SplitExt(p: string): (r: (string, string))
    ensures r.0 + r.1 == p
    ensures r.1 == [] || (r.1[0] == '.' && '.' !in r.1[1..] && |r.0| > 0)
  {
    var sep := RFindChar(p, '/');
    var dot := RFindChar(p, '.');
    if dot > sep && exists k :: sep + 1 <= k < dot && p[k] != '.' then
      assert p[..dot] + p[dot..] == p;
      (p[..dot], p[dot..])
    else (p, "")
  }

  /** The steps of clean_filename before the length limit. */
  function CleanUncapped(filename: string): string {
    StripChars(CollapseUnderscores(SubForbidden(filename)), {' ', '.'})
  }

  /** The length limit: a name over 200 characters becomes name[:195] + ext. */
  function Cap(cleaned: string): string {
    if |cleaned| > 200 then
      var (name, ext) := SplitExt(cleaned);
      SliceTo(name, 195) + ext
    else cleaned
  }

  /** `clean_filename`. */
  function CleanFilename(filename: string): string {
    Cap(CleanUncapped(filename))
  }

  /** Before the cap the name has no forbidden character, no "__" and no leading or trailing ' ' or '.'. */
  lemma CleanUncappedShape(filename: string)
    ensures var c := CleanUncapped(filename);
            && NoForbidden(c) && NoDoubleUnderscore(c)
            && (|c| > 0 ==> c[0] != ' ' && c[0] != '.' && c[|c| - 1] != ' ' && c[|c| - 1] != '.')
  {
    var sub := SubForbidden(filename);
    var col := CollapseUnderscores(sub);
    CollapseDrawsFrom(sub);
    assert NoForbidden(col) by {
      forall i | 0 <= i < |col| ensures !Forbidden(col[i]) {
        var j :| 0 <= j < |sub| && sub[j] == col[i];
      }
    }
    StripCharsIsInfix(col, {' ', '.'});
  }

  /** The cap keeps only characters of its input and cuts a name before its '.', so it adds no "__". */
  lemma CapSafe(c: string)
    requires NoForbidden(c) && NoDoubleUnderscore(c)
    ensures NoForbidden(Cap(c)) && NoDoubleUnderscore(Cap(c))
  {
    if |c| > 200 {
      var (name, ext) := SplitExt(c);
      var head := SliceTo(name, 195);
      var r := head + ext;
      assert r == Cap(c);
      assert c == name + ext;
      forall i | 0 <= i < |r| ensures !Forbidden(r[i]) {
        if i < |head| { assert r[i] == c[i]; } else { assert r[i] == c[|name| + i - |head|]; }
      }
      forall i | 0 <= i < |r| - 1 ensures !(r[i] == '_' && r[i + 1] == '_') {
        if i + 1 < |head| {
          assert r[i] == c[i] && r[i + 1] == c[i + 1];
        } else if i >= |head| {
          assert r[i] == c[|name| + i - |head|] && r[i + 1] == c[|name| + i + 1 - |head|];
        } else {
          assert r[i + 1] == ext[0] == '.';
        }
      }
    }
  }

  /** clean_filename never returns a forbidden character or a run of two underscores. */
  lemma CleanFilenameSafe(filename: string)
    ensures NoForbidden(CleanFilename(filename))
    ensures NoDoubleUnderscore(CleanFilename(filename))
  {
    CleanUncappedShape(filename);
    CapSafe(CleanUncapped(filename));
  }

  /** A name that comes out at most 200 characters long is cleaned already: clean_filename is idempotent there. */
  lemma CleanFilenameIdempotent(filename: string)
    requires |CleanUncapped(filename)| <= 200
    ensures CleanFilename(CleanFilename(filename)) == CleanFilename(filename)
  {
    var c := CleanUncapped(filename);
    CleanUncappedShape(filename);
    assert SubForbidden(c) == c;
    CollapseKeeps(c);
    StripCharsNoop(c, {' ', '.'});
  }

  /** Past 200 characters the result is the first 195 characters of the stem followed by the whole extension. */
  lemma CleanFilenameCap(filename: string)
    requires |CleanUncapped(filename)| > 200
    ensures var (name, ext) := SplitExt(CleanUncapped(filename));
            CleanFilename(filename) == name[..Min(195, |name|)] + ext
            && |CleanFilename(filename)| == Min(195, |name|) + |ext|
  {
  }

  /**
   * The cap keeps the whole extension, so a long one defeats it: "a." followed by
   * 200 or more lower-case letters comes back unchanged, over 200 characters long.
   */
  lemma LongExtensionDefeatsCap(tail: string)
    requires |tail| >= 200 && forall i :: 0 <= i < |tail| ==> 'a' <= tail[i] <= 'z'
    ensures CleanFilename("a." + tail) == "a." + tail
    ensures |CleanFilename("a." + tail)| > 200
  {
    var f := "a." + tail;
    assert CleanUncapped(f) == f by {
      forall i | 0 <= i < |f| ensures !Forbidden(f[i]) && f[i] != '_' {
        if i >= 2 {
          assert f[i] == tail[i - 2];
        }
      }
      assert f[|f| - 1] == tail[|tail| - 1];
      AlreadyClean(f);
    }
    assert SplitExt(f) == ("a", "." + tail) by {
      SplitAtOnlyDot(tail);
    }
    CleanFilenameCap(f);
    assert "a"[..Min(195, 1)] == "a";
    assert "a." == "a" + ".";
    assert ("a" + ".") + tail == "a" + ("." + tail);
  }

  lemma AlreadyClean(f: string)
    requires |f| > 0 && f[0] == 'a' && f[|f| - 1] != '.' && f[|f| - 1] != ' '
    requires forall i :: 0 <= i < |f| ==> !Forbidden(f[i]) && f[i] != '_'
    ensures CleanUncapped(f) == f
  {
    var sub := SubForbidden(f);
    assert sub == f;
    var col := CollapseUnderscores(sub);
    assert col == f by {
      CollapseKeeps(f);
    }
    StripCharsNoop(col, {' ', '.'});
  }

  lemma SplitAtOnlyDot(tail: string)
    requires forall i :: 0 <= i < |tail| ==> 'a' <= tail[i] <= 'z'
    ensures SplitExt("a." + tail) == ("a", "." + tail)
  {
    var f := "a." + tail;
    var dot := RFindChar(f, '.');
    assert f[1] == '.';
    assert forall i :: 2 <= i < |f| ==> f[i] == tail[i - 2];
    assert dot == 1;
    var sep := RFindChar(f, '/');
    assert sep == -1;
    assert f[0] != '.';
    assert f[..1] == "a" && f[1..] == "." + tail;
  }

  // ---------------------------------------------------------------------------
  // classify_pdf_type

  const TranscriptKeywords: seq<string> := ["transcript", "earnings call", "conference call"]
  const PresentationKeywords: seq<string> := ["presentation", "investor presentation", "investor deck"]
  const FinancialReportKeywords: seq<string> := ["financial results", "quarterly results", "annual report"]

  /** `any(keyword in text for keyword in keywords)`. */
  predicate AnyIn(text: string, keywords: seq<string>) {
    exists k :: 0 <= k < |keywords| && Contains(text, keywords[k])
  }

  /** The keyword tests in their order: transcript, then presentation, then financial report. */
  function Classification(sample: string): (r: Option<string>)
    ensures r == Some("transcript") <==> AnyIn(sample, TranscriptKeywords)
    ensures r == Some("presentation") <==> !AnyIn(sample, TranscriptKeywords) && AnyIn(sample, PresentationKeywords)
    ensures r == Some("financial_report") <==>
              !AnyIn(sample, TranscriptKeywords) && !AnyIn(sample, PresentationKeywords) && AnyIn(sample, FinancialReportKeywords)
    ensures r.None? <==>
              !AnyIn(sample, TranscriptKeywords) && !AnyIn(sample, PresentationKeywords) && !AnyIn(sample, FinancialReportKeywords)
  {
    if AnyIn(sample, TranscriptKeywords) then Some("transcript")
    else if AnyIn(sample, PresentationKeywords) then Some("presentation")
    else if AnyIn(sample, FinancialReportKeywords) then Some("financial_report")
    else None
  }

  /** A substring of a substring is a substring. */
  lemma ContainsTransitive(text: string, mid: string, sub: string)
    requires Contains(text, mid) && Contains(mid, sub)
    ensures Contains(text, sub)
  {
    var i :| 0 <= i <= |text| - |mid| && OccursAt(text, mid, i);
    var j :| 0 <= j <= |mid| - |sub| && OccursAt(mid, sub, j);
    forall k | 0 <= k < |sub| ensures text[i + j + k] == sub[k] {
      assert sub[k] == mid[j + k] == text[i + j + k];
    }
    assert OccursAt(text, sub, i + j);
  }

  /**
   * "investor presentation" adds nothing to the presentation keywords: a sample
   * is classed as a presentation exactly when it has no transcript keyword and
   * contains "presentation" or "investor deck".
   */
  lemma PresentationKeywordsReduce(sample: string)
    ensures Classification(sample) == Some("presentation") <==>
              !AnyIn(sample, TranscriptKeywords) && (Contains(sample, "presentation") || Contains(sample, "investor deck"))
  {
    if Contains(sample, "investor presentation") {
      assert OccursAt("investor presentation", "presentation", 9);
      ContainsTransitive(sample, "investor presentation", "presentation");
    }
    if Contains(sample, "presentation") {
      assert Contains(sample, PresentationKeywords[0]);
    }
    if Contains(sample, "investor deck") {
      assert Contains(sample, PresentationKeywords[2]);
    }
  }

  /** The lower-cased text of pages[0..n], concatenated. */
  function SampleOf(pages: seq<string>, n: nat): string
    requires n <= |pages|
  {
    if n == 0 then [] else SampleOf(pages, n - 1) + Lower(pages[n - 1])
  }

  /** The text sample: the first three pages at most. */
  function SampleText(pages: seq<string>): string {
    SampleOf(pages, Min(3, |pages|))
  }

  /** The sample is the lower-cased concatenation of at most the first three pages. */
  lemma {:induction false} SampleOfIsLowerPrefix(pages: seq<string>, n: nat)
    requires n <= |pages|
    ensures SampleOf(pages, n) == Lower(Concat(pages[..n]))
  {
    if n > 0 {
      SampleOfIsLowerPrefix(pages, n - 1);
      ConcatSnoc(pages[..n - 1], pages[n - 1]);
      assert pages[..n] == pages[..n - 1] + [pages[n - 1]];
      LowerConcat(Concat(pages[..n - 1]), pages[n - 1]);
    }
  }

  function Concat(ss: seq<string>): string {
    if ss == [] then [] else ss[0] + Concat(ss[1..])
  }

  lemma {:induction false} ConcatSnoc(ss: seq<string>, s: string)
    ensures Concat(ss + [s]) == Concat(ss) + s
  {
    if ss != [] {
      assert (ss + [s])[1..] == ss[1..] + [s];
      ConcatSnoc(ss[1..], s);
    } else {
      assert [s][1..] == [];
    }
  }

  /** Pages after the third never influence the classification. */
  lemma OnlyFirstThreePages(pages: seq<string>, more: seq<string>)
    requires |pages| >= 3
    ensures SampleText(pages + more) == SampleText(pages)
  {
    SampleOfIsLowerPrefix(pages + more, 3);
    SampleOfIsLowerPrefix(pages, 3);
    assert (pages + more)[..3] == pages[..3];
  }

  /** What classify_pdf_type returns for a file: None when it is missing or unreadable. */
  function ClassOf(files: map<string, PdfDoc>, name: string): Option<string> {
    if name in files && files[name].pages.Some? then Classification(SampleText(files[name].pages.value)) else None
  }

  // ---------------------------------------------------------------------------
  // classify_and_rename_pdf

  /** The k-th name tried: `{type}_{name}` for k = 0, `{type}_{k}_{name}` after. */
  function Candidate(docType: string, k: nat, name: string): string {
    if k == 0 then docType + "_" + name else docType + "_" + NatToString(k) + "_" + name
  }

  /** The names tried are pairwise distinct. */
  lemma CandidateInjective(docType: string, name: string, j: nat, k: nat)
    requires Candidate(docType, j, name) == Candidate(docType, k, name)
    ensures j == k
  {
    var p := |docType| + 1;
    if j > 0 && k > 0 {
      var a := NatToString(j);
      var b := NatToString(k);
      assert |a| == |b|;
      assert Candidate(docType, j, name)[p..p + |a|] == a;
      assert Candidate(docType, k, name)[p..p + |b|] == b;
      NatToStringInjective(j, k);
    }
  }

  /** A candidate is always longer than the original name, so the loop's `new_path != path_obj` test is always true. */
  lemma CandidateNotOriginal(docType: string, k: nat, name: string)
    ensures Candidate(docType, k, name) != name
  {
    assert |Candidate(docType, k, name)| > |name|;
  }

  /** Names that all lie in a set of names are no more numerous than it: n distinct candidates need n names. */
  lemma {:induction false} CandidatesBoundedByFolder(keys: set<string>, t: string, name: string, n: nat)
    requires forall j :: 0 <= j < n ==> Candidate(t, j, name) in keys
    ensures n <= |keys|
  {
    if n > 0 {
      var last := Candidate(t, n - 1, name);
      forall j | 0 <= j < n - 1 ensures Candidate(t, j, name) in keys - {last} {
        if Candidate(t, j, name) == last {
          CandidateInjective(t, name, j, n - 1);
        }
      }
      CandidatesBoundedByFolder(keys - {last}, t, name, n - 1);
    }
  }

  /** k is the first candidate index whose name is free. */
  predicate FirstFree(files: map<string, PdfDoc>, docType: string, name: string, k: nat) {
    && Candidate(docType, k, name) !in files
    && forall j :: 0 <= j < k ==> Candidate(docType, j, name) in files
  }

  /** Two first free indices are the same index. */
  lemma FirstFreeUnique(files: map<string, PdfDoc>, docType: string, name: string, j: nat, k: nat)
    requires FirstFree(files, docType, name, j) && FirstFree(files, docType, name, k)
    ensures j == k
  {
  }

  /** The first free candidate index at or after k, when every earlier one is taken. */
  function FreeFrom(files: map<string, PdfDoc>, docType: string, name: string, k: nat): (r: nat)
    requires forall j :: 0 <= j < k ==> Candidate(docType, j, name) in files
    ensures k <= r && FirstFree(files, docType, name, r)
    decreases |files| - k
  {
    if Candidate(docType, k, name) !in files then k
    else
      CandidatesBoundedByFolder(files.Keys, docType, name, k + 1);
      FreeFrom(files, docType, name, k + 1)
  }

  /** The name classify_and_rename_pdf gives `name`: itself when unclassified, else the first free candidate. */
  function RenameTarget(files: map<string, PdfDoc>, name: string): (r: string)
    ensures ClassOf(files, name).None? ==> r == name
    ensures ClassOf(files, name).Some? ==>
              name in files && r != name && r !in files
              && exists k: nat :: FirstFree(files, ClassOf(files, name).value, name, k) && r == Candidate(ClassOf(files, name).value, k, name)
  {
    match ClassOf(files, name)
    case None => name
    case Some(t) =>
      var k := FreeFrom(files, t, name, 0);
      CandidateNotOriginal(t, k, name);
      Candidate(t, k, name)
  }

  /** The folder after classify_and_rename_pdf on `name`. */
  function Renamed(files: map<string, PdfDoc>, name: string): map<string, PdfDoc> {
    if ClassOf(files, name).None? then files
    else (files - {name})[RenameTarget(files, name) := files[name]]
  }

  // ---------------------------------------------------------------------------
  // Downloads

  /** How download_pdfs routes a URL. */
  datatype Route = AnnPdf | Iframe | Direct

  function RouteOf(url: string): (r: Route)
    ensures r == AnnPdf <==> Contains(url, "AnnPdfOpen.aspx")
    ensures r == Iframe <==> !Contains(url, "AnnPdfOpen.aspx") && Contains(url, "xml-data/corpfiling")
  {
    if Contains(url, "AnnPdfOpen.aspx") then AnnPdf
    else if Contains(url, "xml-data/corpfiling") then Iframe
    else Direct
  }

  /** A URL not starting with "http" is taken as relative to `host`. */
  function Absolute(url: string, host: string): string {
    if StartsWith(url, "http") then url else host + url
  }

  lemma AbsoluteShape(url: string, host: string)
    requires StartsWith(host, "http")
    ensures StartsWith(Absolute(url, host), "http")
    ensures Absolute(Absolute(url, host), host) == Absolute(url, host)
    ensures StartsWith(url, "http") ==> Absolute(url, host) == url
  {
    if !StartsWith(url, "http") {
      assert (host + url)[..4] == host[..4];
    }
  }

  /** A GET whose status passes: its response. */
  function GetOk(get: string -> Option<Response>, url: string): Option<Response> {
    if get(url).Some? && get(url).value.ok then get(url) else None
  }

  /** The PDF each strategy obtains for a URL, or None when a request fails or no iframe src is found. */
  function Fetch(route: Route, url: string, get: string -> Option<Response>): Option<PdfDoc> {
    match route
    case Direct =>
      var resp := GetOk(get, Absolute(url, "https://www.screener.in"));
      if resp.Some? then Some(resp.value.body) else None
    case AnnPdf =>
      var resp := GetOk(get, url);
      if resp.Some? then Some(resp.value.body) else None
    case Iframe =>
      var page := GetOk(get, url);
      if page.None? || !page.value.iframe.IframeSrc? then None
      else
        var resp := GetOk(get, Absolute(page.value.iframe.src, "https://www.bseindia.com"));
        if resp.Some? then Some(resp.value.body) else None
  }

  /** download_pdfs stores a link when its fetch succeeds and its cleaned name is not empty. */
  predicate IsStored(link: (string, string), get: string -> Option<Response>) {
    Fetch(RouteOf(link.0), link.0, get).Some? && CleanFilename(link.1) != ""
  }

  /** The number of links download_pdfs stores. */
  function CountStored(links: seq<(string, string)>, get: string -> Option<Response>): (r: nat)
    ensures r <= |links|
  {
    if links == [] then 0
    else CountStored(links[..|links| - 1], get) + (if IsStored(links[|links| - 1], get) then 1 else 0)
  }

  lemma CountStoredStep(links: seq<(string, string)>, i: nat, get: string -> Option<Response>)
    requires i < |links|
    ensures CountStored(links[..i + 1], get) == CountStored(links[..i], get) + (if IsStored(links[i], get) then 1 else 0)
  {
    assert links[..i + 1][..i] == links[..i];
  }

  /** The PDF a stored link's fetch returns. */
  function Fetched(link: (string, string), get: string -> Option<Response>): PdfDoc
    requires IsStored(link, get)
  {
    Fetch(RouteOf(link.0), link.0, get).value
  }

  /** The folder after the routing step of one link: the fetched PDF under the cleaned name, when stored. */
  function Stored(files: map<string, PdfDoc>, link: (string, string), get: string -> Option<Response>): map<string, PdfDoc> {
    if IsStored(link, get) then files[CleanFilename(link.1) := Fetched(link, get)] else files
  }

  /** The folder after one pass of download_pdfs' loop. */
  function AfterLink(files: map<string, PdfDoc>, link: (string, string), get: string -> Option<Response>): map<string, PdfDoc> {
    if IsStored(link, get) then Renamed(Stored(files, link, get), CleanFilename(link.1)) else files
  }

  /** The name one pass of the loop appends to the result, if any. */
  function LinkReport(files: map<string, PdfDoc>, link: (string, string), get: string -> Option<Response>): Option<string> {
    if IsStored(link, get) then Some(RenameTarget(Stored(files, link, get), CleanFilename(link.1))) else None
  }

  /** The folder after the loop has handled `links` in order. */
  function AfterLinks(files: map<string, PdfDoc>, links: seq<(string, string)>, get: string -> Option<Response>): map<string, PdfDoc> {
    if links == [] then files
    else AfterLink(AfterLinks(files, links[..|links| - 1], get), links[|links| - 1], get)
  }

  /** The names the loop returns for `links`, one per stored link, in link order. */
  function Reports(files: map<string, PdfDoc>, links: seq<(string, string)>, get: string -> Option<Response>): seq<string> {
    if links == [] then []
    else
      var init := links[..|links| - 1];
      var n := LinkReport(AfterLinks(files, init, get), links[|links| - 1], get);
      Reports(files, init, get) + (if n.Some? then [n.value] else [])
  }

  lemma FoldStep(files: map<string, PdfDoc>, links: seq<(string, string)>, i: nat, get: string -> Option<Response>)
    requires i < |links|
    ensures AfterLinks(files, links[..i + 1], get) == AfterLink(AfterLinks(files, links[..i], get), links[i], get)
    ensures var n := LinkReport(AfterLinks(files, links[..i], get), links[i], get);
            Reports(files, links[..i + 1], get) == Reports(files, links[..i], get) + (if n.Some? then [n.value] else [])
  {
    assert links[..i + 1][..i] == links[..i];
  }

  /** The name download_pdfs may report for a file stored as `base`: base itself or one of its candidates. */
  ghost predicate ReportedName(n: string, base: string) {
    n == base || exists k: nat :: n == Candidate("transcript", k, base) || n == Candidate("presentation", k, base) || n == Candidate("financial_report", k, base)
  }

  /** Writes the fetched PDF under the cleaned name; an empty name is the folder itself and the write fails. */
  method Save(folder: Folder, doc: Option<PdfDoc>, filename: string) returns (r: Option<string>)
    modifies folder
    ensures var name := CleanFilename(filename);
            if doc.Some? && name != "" then r == Some(name) && folder.files == old(folder.files)[name := doc.value]
            else r.None? && folder.files == old(folder.files)
  {
    var name := CleanFilename(filename);
    if doc.None? || name == "" {
      return None;
    }
    folder.Write(name, doc.value);
    r := Some(name);
  }

  /** `_download_direct_pdf`. */
  method DownloadDirectPdf(folder: Folder, url: string, filename: string, get: string -> Option<Response>) returns (r: Option<string>)
    modifies folder
    ensures var name := CleanFilename(filename);
            var doc := Fetch(Direct, url, get);
            if doc.Some? && name != "" then r == Some(name) && folder.files == old(folder.files)[name := doc.value]
            else r.None? && folder.files == old(folder.files)
  {
    var full := url;
    if !StartsWith(url, "http") {
      full := "https://www.screener.in" + url;
    }
    var resp := get(full);
    if resp.None? || !resp.value.ok {
      return None;
    }
    r := Save(folder, Some(resp.value.body), filename);
  }

  /** `_download_bse_annpdf`. */
  method DownloadBseAnnPdf(folder: Folder, url: string, filename: string, get: string -> Option<Response>) returns (r: Option<string>)
    modifies folder
    ensures var name := CleanFilename(filename);
            var doc := Fetch(AnnPdf, url, get);
            if doc.Some? && name != "" then r == Some(name) && folder.files == old(folder.files)[name := doc.value]
            else r.None? && folder.files == old(folder.files)
  {
    var resp := get(url);
    if resp.None? || !resp.value.ok {
      return None;
    }
    r := Save(folder, Some(resp.value.body), filename);
  }

  /** `_download_bse_iframe_pdf`: no iframe, or an iframe without src (an AttributeError), gives None. */
  method DownloadBseIframePdf(folder: Folder, url: string, filename: string, get: string -> Option<Response>) returns (r: Option<string>)
    modifies folder
    ensures var name := CleanFilename(filename);
            var doc := Fetch(Iframe, url, get);
            if doc.Some? && name != "" then r == Some(name) && folder.files == old(folder.files)[name := doc.value]
            else r.None? && folder.files == old(folder.files)
  {
    // Each failed request or a page without an iframe src leaves doc None, which Save turns into None.
    var doc: Option<PdfDoc> := None;
    var page := get(url);
    if page.Some? && page.value.ok && page.value.iframe.IframeSrc? {
      var pdfUrl := page.value.iframe.src;
      if !StartsWith(pdfUrl, "http") {
        pdfUrl := "https://www.bseindia.com" + pdfUrl;
      }
      assert pdfUrl == Absolute(page.value.iframe.src, "https://www.bseindia.com");
      var resp := get(pdfUrl);
      if resp.Some? && resp.value.ok {
        doc := Some(resp.value.body);
      }
    }
    assert doc == Fetch(Iframe, url, get);
    r := Save(folder, doc, filename);
  }

  /** `classify_pdf_type`: reads at most three pages and applies the keyword tests. */
  method ClassifyPdfType(folder: Folder, name: string) returns (r: Option<string>)
    ensures r == ClassOf(folder.files, name)
  {
    if name !in folder.files || folder.files[name].pages.None? {
      return None;
    }
    var pages := folder.files[name].pages.value;
    var sample := "";
    var n := Min(3, |pages|);
    var k := 0;
    while k < n
      invariant 0 <= k <= n
      invariant sample == SampleOf(pages, k)
    {
      sample := sample + Lower(pages[k]);
      k := k + 1;
    }
    r := Classification(sample);
  }

  /**
   * `classify_and_rename_pdf`: a classified file moves to the first free name
   * among `{type}_{name}`, `{type}_1_{name}`, `{type}_2_{name}`, ...
   */
  method ClassifyAndRenamePdf(folder: Folder, name: string) returns (r: string)
    modifies folder
    ensures ClassOf(old(folder.files), name).None? ==> r == name && folder.files == old(folder.files)
    ensures ClassOf(old(folder.files), name).Some? ==>
              var t := ClassOf(old(folder.files), name).value;
              && name in old(folder.files)
              && (exists k: nat :: FirstFree(old(folder.files), t, name, k) && r == Candidate(t, k, name))
              && folder.files == (old(folder.files) - {name})[r := old(folder.files)[name]]
    ensures r == RenameTarget(old(folder.files), name) && folder.files == Renamed(old(folder.files), name)
  {
    var docType := ClassifyPdfType(folder, name);
    if docType.None? {
      return name;
    }
    var t := docType.value;
    var newName := Candidate(t, 0, name);
    var counter: nat := 1;
    while newName in folder.files && newName != name
      invariant folder.files == old(folder.files)
      invariant newName == Candidate(t, counter - 1, name)
      invariant forall j :: 0 <= j < counter - 1 ==> Candidate(t, j, name) in folder.files
      decreases |folder.files| - counter
    {
      CandidatesBoundedByFolder(folder.files.Keys, t, name, counter);
      newName := Candidate(t, counter, name);
      counter := counter + 1;
    }
    CandidateNotOriginal(t, counter - 1, name);
    assert FirstFree(folder.files, t, name, counter - 1);
    FirstFreeUnique(folder.files, t, name, counter - 1, FreeFrom(folder.files, t, name, 0));
    var ok := folder.Rename(name, newName);
    if ok {
      return newName;
    }
    r := name;
  }

  /** The routing step of download_pdfs' loop body: the strategy RouteOf picks, and what it stores. */
  method DownloadByRoute(folder: Folder, url: string, filename: string, get: string -> Option<Response>) returns (r: Option<string>)
    modifies folder
    ensures r.Some? <==> IsStored((url, filename), get)
    ensures r.Some? ==> r.value == CleanFilename(filename) && r.value in folder.files
    ensures folder.files == Stored(old(folder.files), (url, filename), get)
  {
    if Contains(url, "AnnPdfOpen.aspx") {
      r := DownloadBseAnnPdf(folder, url, filename, get);
    } else if Contains(url, "xml-data/corpfiling") {
      r := DownloadBseIframePdf(folder, url, filename, get);
    } else {
      r := DownloadDirectPdf(folder, url, filename, get);
    }
  }

  /** A name ClassifyAndRenamePdf returns for `name` is reported for it. */
  lemma RenamedIsReported(files: map<string, PdfDoc>, name: string, r: string)
    requires ClassOf(files, name).None? ==> r == name
    requires ClassOf(files, name).Some? ==> exists k: nat :: r == Candidate(ClassOf(files, name).value, k, name)
    ensures ReportedName(r, name)
  {
    if ClassOf(files, name).Some? {
      var k: nat :| r == Candidate(ClassOf(files, name).value, k, name);
      var t := ClassOf(files, name).value;
      assert t == "transcript" || t == "presentation" || t == "financial_report";
    }
  }

  /**
   * `download_pdfs`: the first max_pdfs links, each routed to its download
   * strategy, then classified and renamed.
   */
  method DownloadPdfs(folder: Folder, links: seq<(string, string)>, maxPdfs: int, get: string -> Option<Response>)
    returns (r: seq<string>)
    modifies folder
    ensures folder.files == AfterLinks(old(folder.files), SliceTo(links, maxPdfs), get)
    ensures r == Reports(old(folder.files), SliceTo(links, maxPdfs), get)
    ensures |r| == CountStored(SliceTo(links, maxPdfs), get)
    ensures |r| <= |links| && (maxPdfs >= 0 ==> |r| <= maxPdfs)
    ensures forall i :: 0 <= i < |r| ==>
              exists j :: 0 <= j < |SliceTo(links, maxPdfs)| && ReportedName(r[i], CleanFilename(SliceTo(links, maxPdfs)[j].1))
  {
    var batch := SliceTo(links, maxPdfs);
    r := DownloadBatch(folder, batch, get);
  }

  /** The loop of download_pdfs over the links it keeps. */
  method DownloadBatch(folder: Folder, batch: seq<(string, string)>, get: string -> Option<Response>)
    returns (r: seq<string>)
    modifies folder
    ensures folder.files == AfterLinks(old(folder.files), batch, get)
    ensures r == Reports(old(folder.files), batch, get)
    ensures |r| == CountStored(batch, get) && |r| <= |batch|
    ensures AllReported(r, batch, |batch|)
  {
    r := [];
    var i := 0;
    while i < |batch|
      invariant 0 <= i <= |batch|
      invariant folder.files == AfterLinks(old(folder.files), batch[..i], get)
      invariant r == Reports(old(folder.files), batch[..i], get)
    {
      var (url, filename) := batch[i];
      var stored := DownloadOne(folder, url, filename, get);
      FoldStep(old(folder.files), batch, i, get);
      if stored.Some? {
        r := r + [stored.value];
      }
      i := i + 1;
    }
    assert batch[..|batch|] == batch;
    ReportsCount(old(folder.files), batch, get);
    ReportsNamed(old(folder.files), batch, get);
  }

  /** One link: download by route, then classify and rename what was stored. */
  method DownloadOne(folder: Folder, url: string, filename: string, get: string -> Option<Response>)
    returns (r: Option<string>)
    modifies folder
    ensures r.Some? <==> IsStored((url, filename), get)
    ensures r.Some? ==> ReportedName(r.value, CleanFilename(filename))
    ensures r == LinkReport(old(folder.files), (url, filename), get)
    ensures folder.files == AfterLink(old(folder.files), (url, filename), get)
  {
    var stored := DownloadByRoute(folder, url, filename, get);
    if stored.None? {
      return None;
    }
    ghost var before := folder.files;
    var classified := ClassifyAndRenamePdf(folder, stored.value);
    RenamedIsReported(before, stored.value, classified);
    r := Some(classified);
  }

  /** n is reported for one of the first i links. */
  ghost predicate ReportedAmong(n: string, batch: seq<(string, string)>, i: nat)
    requires i <= |batch|
  {
    exists j :: 0 <= j < i && ReportedName(n, CleanFilename(batch[j].1))
  }

  /** Every name in r is reported for one of the first i links. */
  ghost predicate AllReported(r: seq<string>, batch: seq<(string, string)>, i: nat)
    requires i <= |batch|
  {
    forall m :: 0 <= m < |r| ==> ReportedAmong(r[m], batch, i)
  }

  lemma AmongMore(n: string, batch: seq<(string, string)>, i: nat)
    requires i < |batch| && ReportedAmong(n, batch, i)
    ensures ReportedAmong(n, batch, i + 1)
  {
    var j :| 0 <= j < i && ReportedName(n, CleanFilename(batch[j].1));
    assert 0 <= j < i + 1 && ReportedName(n, CleanFilename(batch[j].1));
  }

  lemma ReportedSnoc(r: seq<string>, batch: seq<(string, string)>, i: nat, name: string)
    requires i < |batch| && AllReported(r, batch, i) && ReportedName(name, CleanFilename(batch[i].1))
    ensures AllReported(r + [name], batch, i + 1)
  {
    var r' := r + [name];
    forall m | 0 <= m < |r'| ensures ReportedAmong(r'[m], batch, i + 1) {
      if m < |r| {
        assert r'[m] == r[m];
        AmongMore(r[m], batch, i);
      } else {
        assert r'[m] == name;
        assert 0 <= i < i + 1 && ReportedName(name, CleanFilename(batch[i].1));
      }
    }
  }

  lemma ReportedMore(r: seq<string>, batch: seq<(string, string)>, i: nat)
    requires i < |batch| && AllReported(r, batch, i)
    ensures AllReported(r, batch, i + 1)
  {
    forall m | 0 <= m < |r| ensures ReportedAmong(r[m], batch, i + 1) {
      AmongMore(r[m], batch, i);
    }
  }

  /** A name RenameTarget gives is reported for the file it renames. */
  lemma TargetIsReported(files: map<string, PdfDoc>, name: string)
    ensures ReportedName(RenameTarget(files, name), name)
  {
    RenamedIsReported(files, name, RenameTarget(files, name));
  }

  /** The loop returns one name per stored link. */
  lemma {:induction false} ReportsCount(files: map<string, PdfDoc>, links: seq<(string, string)>, get: string -> Option<Response>)
    ensures |Reports(files, links, get)| == CountStored(links, get)
  {
    if links != [] {
      ReportsCount(files, links[..|links| - 1], get);
    }
  }

  /** Every name the loop returns is the cleaned name of one of the links, or a classified candidate of it. */
  lemma {:induction false} ReportsNamed(files: map<string, PdfDoc>, links: seq<(string, string)>, get: string -> Option<Response>)
    ensures AllReported(Reports(files, links, get), links, |links|)
  {
    if links != [] {
      var i := |links| - 1;
      var init := links[..i];
      ReportsNamed(files, init, get);
      var r := Reports(files, init, get);
      assert AllReported(r, links, i) by {
        forall m | 0 <= m < |r| ensures ReportedAmong(r[m], links, i) {
          var j :| 0 <= j < i && ReportedName(r[m], CleanFilename(init[j].1));
          assert init[j] == links[j];
        }
      }
      var before := AfterLinks(files, init, get);
      if IsStored(links[i], get) {
        TargetIsReported(Stored(before, links[i], get), CleanFilename(links[i].1));
        ReportedSnoc(r, links, i, LinkReport(before, links[i], get).value);
      } else {
        ReportedMore(r, links, i);
      }
    }
  }

  /** One pass keeps every file other than the link's cleaned name, with its contents. */
  lemma AfterLinkKeeps(files: map<string, PdfDoc>, link: (string, string), get: string -> Option<Response>, n: string)
    requires n in files && n != CleanFilename(link.1)
    ensures n in AfterLink(files, link, get) && AfterLink(files, link, get)[n] == files[n]
  {
    if IsStored(link, get) {
      var st := Stored(files, link, get);
      var c := CleanFilename(link.1);
      assert n in st && st[n] == files[n];
      if ClassOf(st, c).Some? {
        assert RenameTarget(st, c) != n;
      }
    }
  }

  /**
   * The downloads touch no file whose name is not the cleaned name of a link:
   * it stays, with its contents.
   */
  lemma {:induction false} AfterLinksKeeps(files: map<string, PdfDoc>, links: seq<(string, string)>, get: string -> Option<Response>, n: string)
    requires n in files && forall j :: 0 <= j < |links| ==> CleanFilename(links[j].1) != n
    ensures n in AfterLinks(files, links, get) && AfterLinks(files, links, get)[n] == files[n]
  {
    if links != [] {
      var i := |links| - 1;
      AfterLinksKeeps(files, links[..i], get, n);
      AfterLinkKeeps(AfterLinks(files, links[..i], get), links[i], get, n);
    }
  }

  /** Every file in the folder afterwards was there before or is one the loop returned. */
  lemma {:induction false} AfterLinksOnlyReported(files: map<string, PdfDoc>, links: seq<(string, string)>, get: string -> Option<Response>, n: string)
    requires n in AfterLinks(files, links, get)
    ensures n in files || n in Reports(files, links, get)
  {
    if links != [] {
      var i := |links| - 1;
      var init := links[..i];
      var before := AfterLinks(files, init, get);
      var link := links[i];
      if n in before {
        AfterLinksOnlyReported(files, init, get, n);
      } else {
        assert IsStored(link, get);
        var st := Stored(before, link, get);
        var c := CleanFilename(link.1);
        assert n == RenameTarget(st, c);
      }
    }
  }

  /** The last link, when stored, leaves its fetched PDF under the last name returned. */
  lemma LastReportHolds(files: map<string, PdfDoc>, links: seq<(string, string)>, get: string -> Option<Response>)
    requires links != [] && IsStored(links[|links| - 1], get)
    ensures var r := Reports(files, links, get);
            var after := AfterLinks(files, links, get);
            r != [] && r[|r| - 1] in after && after[r[|r| - 1]] == Fetched(links[|links| - 1], get)
  {
  }
}
