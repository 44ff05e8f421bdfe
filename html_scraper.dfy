/**
 * app/utils/html_scraper.py: collects the PDF links of a Screener company page.
 *
 * The page is reduced to the `href` of each anchor (a missing href is ""), both
 * inside the element with id "documents" when there is one and on the whole page.
 * `requests.get` followed by `raise_for_status` is the `page` parameter: Raised
 * for a connection error or an error status. `urljoin` is the `join` parameter.
 */
module HtmlScraper {
  import opened Wrappers
  import opened PyStr

  datatype HtmlPage = HtmlPage(documentsSection: Option<seq<string>>, anchors: seq<string>)

  /** `soup.find(id="documents") or soup`, then `select("a")`. */
  function SelectedHrefs(page: HtmlPage): seq<string> {
    if page.documentsSection.Some? then page.documentsSection.value else page.anchors
  }

  /** The filter of the loop: a non-empty href whose lower-cased form ends in ".pdf". */
  predicate IsPdfHref(href: string) {
    href != [] && EndsWithIgnoreCase(href, ".pdf")
  }

  /** The `links` list after the loop has seen `hrefs`, in document order. */
  function PdfLinks(base: string, hrefs: seq<string>, join: (string, string) -> string): seq<string> {
    if hrefs == [] then []
    else
      var init := PdfLinks(base, hrefs[..|hrefs| - 1], join);
      var h := hrefs[|hrefs| - 1];
      if IsPdfHref(h) then init + [join(base, h)] else init
  }

  predicate NoDuplicates<T(==)>(s: seq<T>) {
    forall i, j :: 0 <= i < j < |s| ==> s[i] != s[j]
  }

  /** `list(dict.fromkeys(s))`: each element once, at its first occurrence. */
  function Dedupe(s: seq<string>): (r: seq<string>)
    ensures NoDuplicates(r)
    ensures forall x :: x in r <==> x in s
  {
    if s == [] then []
    else
      var d := Dedupe(s[..|s| - 1]);
      var x := s[|s| - 1];
      assert s == s[..|s| - 1] + [x];
      if x in d then d else d + [x]
  }

  /** The index of the first occurrence of x in s. */
  function FirstIndex<T(==)>(s: seq<T>, x: T): (r: nat)
    requires x in s
    ensures r < |s| && s[r] == x && forall j :: 0 <= j < r ==> s[j] != x
  {
    if s[0] == x then 0 else 1 + FirstIndex(s[1..], x)
  }

  lemma FirstIndexSnoc<T>(s: seq<T>, x: T, y: T)
    requires y in s
    ensures FirstIndex(s + [x], y) == FirstIndex(s, y)
  {
    var t := s + [x];
    var i := FirstIndex(s, y);
    var k := FirstIndex(t, y);
    assert t[i] == y;
  }

  /** The elements of d are elements of s, listed in the order they first occur in s. */
  predicate InFirstOccurrenceOrder(s: seq<string>, d: seq<string>) {
    && (forall x :: x in d ==> x in s)
    && (forall i, j :: 0 <= i < j < |d| ==> FirstIndex(s, d[i]) < FirstIndex(s, d[j]))
  }

  /** dict.fromkeys keeps the order of first occurrence. */
  lemma {:induction false} DedupeKeepsFirstOccurrenceOrder(s: seq<string>)
    ensures InFirstOccurrenceOrder(s, Dedupe(s))
  {
    if s != [] {
      var init := s[..|s| - 1];
      var x := s[|s| - 1];
      assert s == init + [x];
      DedupeKeepsFirstOccurrenceOrder(init);
      var d0 := Dedupe(init);
      var d := Dedupe(s);
      assert d == if x in d0 then d0 else d0 + [x];
      forall i, j | 0 <= i < j < |d|
        ensures FirstIndex(s, d[i]) < FirstIndex(s, d[j])
      {
        assert d[i] in init;
        FirstIndexSnoc(init, x, d[i]);
        if j < |d0| {
          assert d[i] == d0[i] && d[j] == d0[j];
          FirstIndexSnoc(init, x, d[j]);
        } else {
          assert d[j] == x && x !in init;
          assert FirstIndex(s, d[i]) == FirstIndex(init, d[i]) < |init|;
        }
      }
    }
  }

  method FindDocumentLinks(base: string, page: Outcome<HtmlPage>, join: (string, string) -> string)
    returns (r: Outcome<seq<string>>)
    ensures page.Raised? ==> r == Raised(page.error)
    ensures page.Returned? ==> r == Returned(Dedupe(PdfLinks(base, SelectedHrefs(page.value), join)))
  {
    if page.Raised? {
      return Raised(page.error);
    }
    var hrefs := SelectedHrefs(page.value);
    var links: seq<string> := [];
    var i := 0;
    while i < |hrefs|
      invariant 0 <= i <= |hrefs|
      invariant links == PdfLinks(base, hrefs[..i], join)
    {
      var href := hrefs[i];
      if href != [] && EndsWithIgnoreCase(href, ".pdf") {
        links := links + [join(base, href)];
      }
      assert hrefs[..i + 1][..i] == hrefs[..i];
      i := i + 1;
    }
    assert hrefs[..|hrefs|] == hrefs;
    r := Returned(Dedupe(links));
  }

  /** A link is collected exactly when it is the join of a PDF href in the selected section. */
  lemma {:induction false} PdfLinksExactly(base: string, hrefs: seq<string>, join: (string, string) -> string, l: string)
    ensures l in PdfLinks(base, hrefs, join) <==> exists k :: 0 <= k < |hrefs| && IsPdfHref(hrefs[k]) && join(base, hrefs[k]) == l
  {
    if hrefs != [] {
      var init := hrefs[..|hrefs| - 1];
      PdfLinksExactly(base, init, join, l);
      if exists k :: 0 <= k < |hrefs| && IsPdfHref(hrefs[k]) && join(base, hrefs[k]) == l {
        var k :| 0 <= k < |hrefs| && IsPdfHref(hrefs[k]) && join(base, hrefs[k]) == l;
        if k < |init| {
          assert init[k] == hrefs[k];
        }
      }
      if exists k :: 0 <= k < |init| && IsPdfHref(init[k]) && join(base, init[k]) == l {
        var k :| 0 <= k < |init| && IsPdfHref(init[k]) && join(base, init[k]) == l;
        assert hrefs[k] == init[k];
      }
    }
  }

  /**
   * find_document_links returns each PDF link of the selected section once, and
   * nothing else, in the order the links first appear.
   */
  lemma DocumentLinksCharacterised(base: string, page: HtmlPage, join: (string, string) -> string)
    ensures var hrefs := SelectedHrefs(page);
            var r := Dedupe(PdfLinks(base, hrefs, join));
            && NoDuplicates(r)
            && (forall l :: l in r <==> exists k :: 0 <= k < |hrefs| && IsPdfHref(hrefs[k]) && join(base, hrefs[k]) == l)
  {
    var hrefs := SelectedHrefs(page);
    forall l ensures l in Dedupe(PdfLinks(base, hrefs, join)) <==> exists k :: 0 <= k < |hrefs| && IsPdfHref(hrefs[k]) && join(base, hrefs[k]) == l {
      PdfLinksExactly(base, hrefs, join, l);
    }
  }
}
