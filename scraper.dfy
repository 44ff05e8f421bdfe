/**
 * app/utils/scraper.py: PDF links and the quarterly results table of a Screener
 * company page, value parsing and the company symbol of a Screener URL.
 *
 * The HTTP fetch (`requests.get` + `raise_for_status`) is the `page` parameter:
 * Raised stands for any exception, which both scrapers turn into an empty list.
 */
module Scraper {
  import opened Wrappers
  import opened PyStr
  import opened PyDict

  // ---------------------------------------------------------------------------
  // scrape_screener_pdfs

  /** An `<a>` element: its `href` ("" when missing) and its text. */
  datatype Anchor = Anchor(href: string, text: string)

  /**
   * The three CSS selectors are tried in order and the first non-empty match
   * list is used; when all are empty the loop variable holds the last, empty, list.
   */
  function FirstNonEmpty(matches: seq<seq<Anchor>>): (r: seq<Anchor>)
    ensures r != [] <==> exists i :: 0 <= i < |matches| && matches[i] != []
    ensures r != [] ==> exists i :: 0 <= i < |matches| && matches[i] == r && forall j :: 0 <= j < i ==> matches[j] == []
  {
    if matches == [] then []
    else if matches[0] != [] then matches[0]
    else
      var r := FirstNonEmpty(matches[1..]);
      assert forall i :: 1 <= i < |matches| ==> matches[i] == matches[1..][i - 1];
      if r != [] then
        var i :| 0 <= i < |matches[1..]| && matches[1..][i] == r && forall j :: 0 <= j < i ==> matches[1..][j] == [];
        assert matches[i + 1] == r;
        r
      else r
  }

  /** The link filter: a non-empty href containing ".pdf" in any case, or containing "AnnPdf". */
  predicate IsPdfLink(href: string) {
    href != [] && (Contains(Lower(href), ".pdf") || Contains(href, "AnnPdf"))
  }

  /** The characters `re.sub(r'[^\w\-_.]', '_', ...)` keeps (ASCII word characters, '-', '.'). */
  predicate SafeChar(c: char) {
    ('a' <= c <= 'z') || ('A' <= c <= 'Z') || ('0' <= c <= '9') || c == '_' || c == '-' || c == '.'
  }

  predicate AllSafe(s: string) {
    forall i :: 0 <= i < |s| ==> SafeChar(s[i])
  }

  function SubUnsafe(s: string): (r: string)
    ensures |r| == |s| && AllSafe(r)
    ensures forall i :: 0 <= i < |s| ==> r[i] == if SafeChar(s[i]) then s[i] else '_'
  {
    seq(|s|, i requires 0 <= i < |s| => if SafeChar(s[i]) then s[i] else '_')
  }

  /** The link text with newlines and spaces, then every other unsafe character, turned into '_'. */
  function CleanLinkText(text: string): (r: string)
    ensures AllSafe(r)
  {
    SubUnsafe(ReplaceAll(ReplaceAll(Strip(text), "\n", "_"), " ", "_"))
  }

  /** The suggested file name derived from a link's text. */
  function SuggestedFilename(text: string): (r: string)
    ensures AllSafe(r)
    ensures EndsWith(r, ".pdf")
    ensures CleanLinkText(text) == [] || CleanLinkText(text) == "_" ==> r == "Document.pdf"
    ensures CleanLinkText(text) != [] && CleanLinkText(text) != "_" ==>
              r == CleanLinkText(text) || r == CleanLinkText(text) + ".pdf"
  {
    var cleaned := CleanLinkText(text);
    var named := if cleaned == [] || cleaned == "_" then "Document" else cleaned;
    assert AllSafe(named) by { DocumentSafe(); }
    if EndsWith(named, ".pdf") then named else PdfSuffixSafe(named); named + ".pdf"
  }

  lemma DocumentSafe()
    ensures AllSafe("Document")
  {
    var d := "Document";
    assert d[0] == 'D' && d[1] == 'o' && d[2] == 'c' && d[3] == 'u' && d[4] == 'm' && d[5] == 'e' && d[6] == 'n' && d[7] == 't';
  }

  lemma PdfSuffixSafe(n: string)
    requires AllSafe(n)
    ensures AllSafe(n + ".pdf") && EndsWith(n + ".pdf", ".pdf")
  {
    var r := n + ".pdf";
    forall i | 0 <= i < |r| ensures SafeChar(r[i]) {
      if i < |n| {
        assert r[i] == n[i];
      } else {
        assert r[i] == ".pdf"[i - |n|];
      }
    }
    assert r[|n|..] == ".pdf";
  }

  /** A name that already has the suggested form is kept as it is. */
  lemma SuggestedFilenameKeeps(name: string)
    requires AllSafe(name) && EndsWith(name, ".pdf")
    ensures SuggestedFilename(name) == name
  {
    assert SafeChar(name[0]) && SafeChar(name[|name| - 1]);
    StripVisible(name);
    assert '\n' !in name && ' ' !in name by {
      forall i | 0 <= i < |name| ensures name[i] != '\n' && name[i] != ' ' {
        assert SafeChar(name[i]);
      }
    }
    ReplaceCharAbsent(name, '\n', "_");
    ReplaceCharAbsent(name, ' ', "_");
    assert SubUnsafe(name) == name;
    assert CleanLinkText(name) == name;
    assert name != "_" && name != [];
  }

  /** Deriving a name twice gives the same name as deriving it once. */
  lemma SuggestedFilenameIdempotent(text: string)
    ensures SuggestedFilename(SuggestedFilename(text)) == SuggestedFilename(text)
  {
    SuggestedFilenameKeeps(SuggestedFilename(text));
  }

  /** The pair collected for anchor a, when a is a PDF link. */
  predicate EntryOf(a: Anchor, e: (string, string)) {
    IsPdfLink(a.href) && e.0 == a.href && e.1 == SuggestedFilename(a.text)
  }

  /** The (href, filename) pairs collected from `links`, in order. */
  function PdfEntries(links: seq<Anchor>): seq<(string, string)> {
    if links == [] then []
    else
      var init := PdfEntries(links[..|links| - 1]);
      var a := links[|links| - 1];
      if IsPdfLink(a.href) then init + [(a.href, SuggestedFilename(a.text))] else init
  }

  method ScrapeScreenerPdfs(page: Outcome<seq<seq<Anchor>>>) returns (r: seq<(string, string)>)
    ensures page.Raised? ==> r == []
    ensures page.Returned? ==> r == PdfEntries(FirstNonEmpty(page.value))
  {
    if page.Raised? {
      return [];
    }
    var links := FirstNonEmpty(page.value);
    r := [];
    var i := 0;
    while i < |links|
      invariant 0 <= i <= |links|
      invariant r == PdfEntries(links[..i])
    {
      var link := links[i];
      var href := link.href;
      if href != [] && (Contains(Lower(href), ".pdf") || Contains(href, "AnnPdf")) {
        r := r + [(href, SuggestedFilename(link.text))];
      }
      assert links[..i + 1][..i] == links[..i];
      i := i + 1;
    }
    assert links[..|links|] == links;
  }

  /**
   * Every collected pair is a PDF link with its suggested file name, and every
   * PDF link of the list is collected.
   */
  lemma {:induction false} PdfEntriesExactly(links: seq<Anchor>, e: (string, string))
    ensures e in PdfEntries(links) <==> exists k :: 0 <= k < |links| && EntryOf(links[k], e)
  {
    if links != [] {
      var init := links[..|links| - 1];
      var last := links[|links| - 1];
      PdfEntriesExactly(init, e);
      assert e in PdfEntries(links) <==> e in PdfEntries(init) || EntryOf(last, e);
      EntryOfSnoc(init, last, e);
      assert links == init + [last];
    }
  }

  lemma EntryOfSnoc(init: seq<Anchor>, last: Anchor, e: (string, string))
    ensures (exists k :: 0 <= k < |init + [last]| && EntryOf((init + [last])[k], e)) <==>
              (exists k :: 0 <= k < |init| && EntryOf(init[k], e)) || EntryOf(last, e)
  {
    var s := init + [last];
    if exists k :: 0 <= k < |s| && EntryOf(s[k], e) {
      var k :| 0 <= k < |s| && EntryOf(s[k], e);
      if k < |init| {
        assert s[k] == init[k];
      }
    }
    if exists k :: 0 <= k < |init| && EntryOf(init[k], e) {
      var k :| 0 <= k < |init| && EntryOf(init[k], e);
      assert s[k] == init[k];
    }
    assert s[|init|] == last;
  }

  // ---------------------------------------------------------------------------
  // parse_financial_value

  /** A cell value: the metric name, a parsed number, or None. */
  datatype Value = Text(s: string) | Number(x: real) | Null

  /** `parse_financial_value`: drops ",", "%" and "Cr"/"cr", then `float()`; None when that fails. */
  function ParseFinancialValue(s: string): (r: Option<real>)
    ensures IsPlaceholder(s) ==> r.None?
    ensures r.Some? <==> !IsPlaceholder(s) && ParseFloat(CleanValue(s)).Some?
    ensures r.Some? ==> r == ParseFloat(CleanValue(s))
  {
    if IsPlaceholder(s) then None else ParseFloat(CleanValue(s))
  }

  predicate IsPlaceholder(s: string) {
    s == "" || s == "-" || s == "N/A"
  }

  /** The text handed to `float()`. */
  function CleanValue(s: string): string {
    var cleaned := Strip(ReplaceAll(ReplaceAll(s, ",", ""), "%", ""));
    if Contains(cleaned, "Cr") || Contains(cleaned, "cr") then Strip(ReplaceAll(ReplaceAll(cleaned, "Cr", ""), "cr", "")) else cleaned
  }

  lemma NoUnitInDigits(s: string, unit: string)
    requires AllDigits(s) && |unit| > 0 && !IsDigit(unit[0])
    ensures !Contains(s, unit)
  {
  }

  /** A digit string without separators or units is handed to float() unchanged. */
  lemma CleanValueOfDigits(d: string)
    requires |d| > 0 && AllDigits(d)
    ensures CleanValue(d) == d
  {
    assert ',' !in d && '%' !in d by {
      forall i | 0 <= i < |d| ensures d[i] != ',' && d[i] != '%' {
        assert IsDigit(d[i]);
      }
    }
    ReplaceCharAbsent(d, ',', "");
    ReplaceCharAbsent(d, '%', "");
    StripVisible(d);
    NoUnitInDigits(d, "Cr");
    NoUnitInDigits(d, "cr");
  }

  /** A trailing percent sign is dropped before float(). */
  lemma CleanValueOfPercent(d: string)
    requires |d| > 0 && AllDigits(d)
    ensures CleanValue(d + "%") == d
  {
    PercentRemoved(d);
    StripVisible(d);
    NoUnitInDigits(d, "Cr");
    NoUnitInDigits(d, "cr");
  }

  /** Dropping "," and "%" from digits followed by "%" leaves the digits. */
  lemma PercentRemoved(d: string)
    requires AllDigits(d)
    ensures ReplaceAll(ReplaceAll(d + "%", ",", ""), "%", "") == d
  {
    assert ',' !in d + "%" by {
      forall i | 0 <= i < |d| + 1 ensures (d + "%")[i] != ',' {
        if i < |d| { assert IsDigit(d[i]); }
      }
    }
    ReplaceCharAbsent(d + "%", ',', "");
    ReplaceCharConcat(d, "%", '%', "");
    assert '%' !in d by {
      forall i | 0 <= i < |d| ensures d[i] != '%' {
        assert IsDigit(d[i]);
      }
    }
    ReplaceCharAbsent(d, '%', "");
    assert ReplaceAll("%", "%", "") == "";
    assert d + "" == d;
  }

  /** The placeholders "", "-" and "N/A" are None; a plain or percent-suffixed integer parses as its value. */
  lemma ParseFinancialValueExamples(n: nat)
    ensures ParseFinancialValue("") == None && ParseFinancialValue("-") == None && ParseFinancialValue("N/A") == None
    ensures ParseFinancialValue(NatToString(n)) == Some(n as real)
    ensures ParseFinancialValue(NatToString(n) + "%") == Some(n as real)
  {
    var d := NatToString(n);
    assert !IsPlaceholder(d) && !IsPlaceholder(d + "%") by {
      assert IsDigit(d[0]) && (d + "%")[0] == d[0];
    }
    CleanValueOfDigits(d);
    CleanValueOfPercent(d);
    ParseFloatOfNatToString(n);
  }

  /** Thousands separators do not matter: removing the commas first gives the same value. */
  lemma CommasIgnored(s: string)
    ensures ParseFinancialValue(ReplaceAll(s, ",", "")) == ParseFinancialValue(s)
  {
    var t := ReplaceAll(s, ",", "");
    if IsPlaceholder(s) {
      ReplaceCharAbsent(s, ',', "");
    } else if IsPlaceholder(t) {
      ReplaceCharAbsent(t, ',', "");
      assert CleanValue(s) == CleanValue(t) by {
        ReplaceCharDeleteIdempotent(s, ',');
      }
      PlaceholdersDoNotParse(t);
    } else {
      ReplaceCharDeleteIdempotent(s, ',');
    }
  }

  /** The placeholders would not parse as numbers either. */
  lemma PlaceholdersDoNotParse(t: string)
    requires IsPlaceholder(t)
    ensures ParseFloat(CleanValue(t)) == None
  {
    PlaceholderIsClean(t);
    StripVisible(t);
    if t == "-" {
      assert t[1..] == "";
    } else if t == "N/A" {
      assert Find(t, ".") == -1 by { ContainsChar(t, '.'); }
      assert t[0] == 'N' && !IsDigit(t[0]);
    }
  }

  lemma PlaceholderIsClean(t: string)
    requires IsPlaceholder(t)
    ensures CleanValue(t) == t
  {
    ReplaceCharAbsent(t, ',', "");
    ReplaceCharAbsent(t, '%', "");
    StripVisible(t);
    assert !Contains(t, "Cr") && !Contains(t, "cr");
  }

  // ---------------------------------------------------------------------------
  // extract_financial_table

  /**
   * What the parser finds on the page: no section with id "quarters", a section
   * without a table, or a table with the th/td texts of its thead (if any), the
   * tr rows of its first tbody (if any) and all tr rows of the table; a row is
   * the list of its td/th texts.
   */
  datatype QuarterSection =
    | NoSection
    | NoTable
    | Table(thead: Option<seq<string>>, tbody: Option<seq<seq<string>>>, rows: seq<seq<string>>)

  /** The header row is the thead, else the first tr of the table, else absent. */
  predicate HasHeaderRow(t: QuarterSection)
    requires t.Table?
  {
    t.thead.Some? || t.rows != []
  }

  function Headers(t: QuarterSection): seq<string>
    requires t.Table?
  {
    if t.thead.Some? then StripEach(t.thead.value) else if t.rows != [] then StripEach(t.rows[0]) else []
  }

  function StripEach(cells: seq<string>): (r: seq<string>)
    ensures |r| == |cells| && forall i :: 0 <= i < |cells| ==> r[i] == Strip(cells[i])
  {
    seq(|cells|, i requires 0 <= i < |cells| => Strip(cells[i]))
  }

  /** The rows walked: those of the tbody (else the table), minus the first when a header row exists. */
  function DataRows(t: QuarterSection): seq<seq<string>>
    requires t.Table?
  {
    var source := if t.tbody.Some? then t.tbody.value else t.rows;
    if HasHeaderRow(t) && source != [] then source[1..] else if HasHeaderRow(t) then [] else source
  }

  /**
   * The row dictionary after the inner loop has seen cells[1..n]: "metric" first,
   * then the parsed value of cell i under headers[i] while i <= len(headers) - 1.
   * (That guard makes the `Q{i}` fallback key of the source unreachable.)
   */
  function RowEntries(headers: seq<string>, cells: seq<string>, n: nat): Dict<Value>
    requires 1 <= n <= |cells|
  {
    if n == 1 then [("metric", Text(Strip(cells[0])))]
    else
      var d := RowEntries(headers, cells, n - 1);
      var i := n - 1;
      if i <= |headers| - 1 then Set(d, headers[i], CellValue(cells[i])) else d
  }

  /** The value stored for a cell: its stripped text parsed as a financial value. */
  function CellValue(cell: string): Value {
    AsValue(ParseFinancialValue(Strip(cell)))
  }

  function AsValue(v: Option<real>): Value {
    if v.Some? then Number(v.value) else Null
  }

  function RowRecord(headers: seq<string>, cells: seq<string>): Dict<Value>
    requires |cells| >= 1
  {
    RowEntries(headers, cells, |cells|)
  }

  /** The records of `rows`: one per row with at least two cells. */
  function Records(headers: seq<string>, rows: seq<seq<string>>): seq<Dict<Value>> {
    if rows == [] then []
    else
      var init := Records(headers, rows[..|rows| - 1]);
      var row := rows[|rows| - 1];
      if |row| < 2 then init else init + [RowRecord(headers, row)]
  }

  /** What extract_financial_table returns for the parsed page. */
  function FinancialTable(section: QuarterSection): seq<Dict<Value>> {
    if section.Table? then Records(Headers(section), DataRows(section)) else []
  }

  method BuildRow(headers: seq<string>, cells: seq<string>) returns (rowData: Dict<Value>)
    requires |cells| >= 2
    ensures rowData == RowRecord(headers, cells)
  {
    rowData := [("metric", Text(Strip(cells[0])))];
    var i := 1;
    while i < |cells|
      invariant 1 <= i <= |cells|
      invariant rowData == RowEntries(headers, cells, i)
    {
      rowData := AddCell(rowData, headers, cells, i);
      i := i + 1;
    }
  }

  /** One pass of the inner loop: cell i goes under headers[i] while there is such a header. */
  method AddCell(rowData: Dict<Value>, headers: seq<string>, cells: seq<string>, i: nat) returns (r: Dict<Value>)
    requires 1 <= i < |cells| && rowData == RowEntries(headers, cells, i)
    ensures r == RowEntries(headers, cells, i + 1)
  {
    r := rowData;
    if i <= |headers| - 1 {
      var quarterKey := headers[i];
      var value := ParseFinancialValue(Strip(cells[i]));
      r := Set(r, quarterKey, AsValue(value));
    }
  }

  method ExtractFinancialTable(page: Outcome<QuarterSection>) returns (r: seq<Dict<Value>>)
    ensures page.Raised? ==> r == []
    ensures page.Returned? ==> r == FinancialTable(page.value)
  {
    if page.Raised? || !page.value.Table? {
      return [];
    }
    var table := page.value;
    var headers := Headers(table);
    var rows := DataRows(table);
    r := [];
    var k := 0;
    while k < |rows|
      invariant 0 <= k <= |rows|
      invariant r == Records(headers, rows[..k])
    {
      var cells := rows[k];
      assert rows[..k + 1][..k] == rows[..k];
      if |cells| >= 2 {
        var rowData := BuildRow(headers, cells);
        r := r + [rowData];
      }
      k := k + 1;
    }
    assert rows[..|rows|] == rows;
  }

  /**
   * With distinct headers other than "metric", a row record holds "metric" and
   * then one key per header column that has a cell, in column order, each bound
   * to the parsed value of its cell; cells past the last header are dropped.
   */
  lemma {:induction false} RowRecordShape(headers: seq<string>, cells: seq<string>, n: nat)
    requires 1 <= n <= |cells|
    requires |headers| >= 1 && NoDuplicates(headers) && "metric" !in headers
    ensures RowShape(headers, cells, n, RowEntries(headers, cells, n))
  {
    if n > 1 {
      RowRecordShape(headers, cells, n - 1);
      RowShapeStep(headers, cells, n);
    }
  }

  /**
   * The row record after n cells: "metric" first, then headers[i] bound to the
   * value of cell i for each column 1 <= i < min(n, len(headers)).
   */
  predicate RowShape(headers: seq<string>, cells: seq<string>, n: nat, d: Dict<Value>)
    requires 1 <= n <= |cells| && |headers| >= 1
  {
    var m := Min(n, |headers|);
    && Keys(d) == ["metric"] + headers[1..m]
    && d[0] == ("metric", Text(Strip(cells[0])))
    && forall i :: 1 <= i < m ==> d[i] == (headers[i], CellValue(cells[i]))
  }

  lemma RowShapeStep(headers: seq<string>, cells: seq<string>, n: nat)
    requires 1 < n <= |cells|
    requires |headers| >= 1 && NoDuplicates(headers) && "metric" !in headers
    requires RowShape(headers, cells, n - 1, RowEntries(headers, cells, n - 1))
    ensures RowShape(headers, cells, n, RowEntries(headers, cells, n))
  {
    var d0 := RowEntries(headers, cells, n - 1);
    var i := n - 1;
    if i <= |headers| - 1 {
      var v := CellValue(cells[i]);
      HeaderIsNew(headers, cells, n, d0);
      SetAppends(d0, headers[i], v);
      assert RowEntries(headers, cells, n) == d0 + [(headers[i], v)];
      RowShapeSnoc(headers, cells, n, d0);
    }
  }

  /** The next header is not yet a key: the keys so far are "metric" and the earlier headers. */
  lemma HeaderIsNew(headers: seq<string>, cells: seq<string>, n: nat, d0: Dict<Value>)
    requires 1 < n <= |cells| && n - 1 <= |headers| - 1
    requires NoDuplicates(headers) && "metric" !in headers
    requires RowShape(headers, cells, n - 1, d0)
    ensures headers[n - 1] !in Keys(d0)
  {
    var k0 := Keys(d0);
    assert k0 == ["metric"] + headers[1..n - 1];
    forall j | 0 <= j < |k0| ensures k0[j] != headers[n - 1] {
      if j > 0 {
        assert k0[j] == headers[j];
      }
    }
  }

  /** Appending the next header's binding extends the shape by one column. */
  lemma RowShapeSnoc(headers: seq<string>, cells: seq<string>, n: nat, d0: Dict<Value>)
    requires 1 < n <= |cells| && n - 1 <= |headers| - 1
    requires RowShape(headers, cells, n - 1, d0)
    ensures RowShape(headers, cells, n, d0 + [(headers[n - 1], CellValue(cells[n - 1]))])
  {
    var x := (headers[n - 1], CellValue(cells[n - 1]));
    var d := d0 + [x];
    assert Min(n, |headers|) == n && Min(n - 1, |headers|) == n - 1;
    ShapeKeysSnoc(headers, n, d0, x);
    assert d[0] == d0[0];
    RowValuesSnoc(headers, cells, n, d0);
  }

  /** Appending the binding of header n - 1 extends the keys "metric", headers[1..n - 1] by that header. */
  lemma ShapeKeysSnoc(headers: seq<string>, n: nat, d0: Dict<Value>, x: (string, Value))
    requires 1 < n <= |headers| && x.0 == headers[n - 1]
    requires Keys(d0) == ["metric"] + headers[1..n - 1]
    ensures Keys(d0 + [x]) == ["metric"] + headers[1..n] && |d0| == n - 1
  {
    KeysSnoc(d0, x);
    SliceGrows(["metric"], headers, n);
  }

  /** A slice from 1 grown by one element, behind a fixed head. */
  lemma SliceGrows(h: seq<string>, s: seq<string>, n: nat)
    requires 1 < n <= |s|
    ensures (h + s[1..n - 1]) + [s[n - 1]] == h + s[1..n]
  {
    assert s[1..n] == s[1..n - 1] + [s[n - 1]];
  }

  /** The bindings of the shape before the appended column stay where they were. */
  lemma RowValuesSnoc(headers: seq<string>, cells: seq<string>, n: nat, d0: Dict<Value>)
    requires 1 < n <= |cells| && n - 1 <= |headers| - 1 && |d0| == n - 1
    requires forall i :: 1 <= i < n - 1 ==> d0[i] == (headers[i], CellValue(cells[i]))
    ensures var d := d0 + [(headers[n - 1], CellValue(cells[n - 1]))];
            forall i :: 1 <= i < n ==> d[i] == (headers[i], CellValue(cells[i]))
  {
    var d := d0 + [(headers[n - 1], CellValue(cells[n - 1]))];
    forall i | 1 <= i < n ensures d[i] == (headers[i], CellValue(cells[i])) {
      if i < n - 1 {
        assert d[i] == d0[i];
      }
    }
  }

  /** A row record's keys are unique when the headers are distinct and none is "metric". */
  lemma RowRecordUniqueKeys(headers: seq<string>, cells: seq<string>)
    requires |cells| >= 1
    requires |headers| >= 1 && NoDuplicates(headers) && "metric" !in headers
    ensures UniqueKeys(RowRecord(headers, cells))
  {
    RowRecordShape(headers, cells, |cells|);
    var d := RowRecord(headers, cells);
    var ks := Keys(d);
    assert ks == ["metric"] + headers[1..Min(|cells|, |headers|)];
    forall i, j | 0 <= i < j < |d| ensures d[i].0 != d[j].0 {
      assert ks[i] == d[i].0 && ks[j] == d[j].0;
      if i == 0 {
        assert ks[j] in headers;
      }
    }
  }

  predicate NoDuplicates(s: seq<string>) {
    forall i, j :: 0 <= i < j < |s| ==> s[i] != s[j]
  }

  /**
   * A quirk of the row selection: when the table has a thead and a tbody, the
   * first tbody row is skipped as if it were the header row.
   */
  lemma FirstBodyRowSkipped(t: QuarterSection)
    requires t.Table? && t.thead.Some? && t.tbody.Some? && t.tbody.value != []
    ensures DataRows(t) == t.tbody.value[1..]
  {
  }

  /** One record per walked row with at least two cells, and nothing for the missing section or table. */
  lemma {:induction false} RecordsCount(headers: seq<string>, rows: seq<seq<string>>)
    ensures |Records(headers, rows)| == |set k | 0 <= k < |rows| && |rows[k]| >= 2|
  {
    if rows != [] {
      var init := rows[..|rows| - 1];
      RecordsCount(headers, init);
      var a := set k | 0 <= k < |init| && |init[k]| >= 2;
      var b := set k | 0 <= k < |rows| && |rows[k]| >= 2;
      if |rows[|rows| - 1]| >= 2 {
        assert b == a + {|rows| - 1};
      } else {
        assert b == a;
      }
    }
  }

  // ---------------------------------------------------------------------------
  // extract_company_symbol

  /**
   * The match of `/company/([^/]+)/` at position p, if any: the longest run of
   * non-'/' characters after "/company/", which must be non-empty and followed by '/'.
   */
  function GroupAt(s: string, p: nat): Option<string> {
    if !OccursAt(s, "/company/", p) then None
    else
      var rest := s[p + 9..];
      var k := Find(rest, "/");
      if k > 0 then Some(rest[..k]) else None
  }

  /** `re.search`: the match at the leftmost position that matches. */
  function SearchFrom(s: string, p: nat): Option<string>
    decreases |s| - p
  {
    if p > |s| then None
    else if GroupAt(s, p).Some? then GroupAt(s, p)
    else SearchFrom(s, p + 1)
  }

  /** The search finds a match exactly when one exists, and then the leftmost one. */
  lemma SearchFromMeans(s: string, p: nat)
    ensures SearchFrom(s, p).Some? <==> exists q :: p <= q <= |s| && GroupAt(s, q).Some?
    ensures SearchFrom(s, p).Some? ==>
              exists q :: p <= q <= |s| && GroupAt(s, q) == SearchFrom(s, p) && forall q' :: p <= q' < q ==> GroupAt(s, q').None?
  {
    SearchFromFinds(s, p);
    SearchFromLeftmost(s, p);
  }

  lemma {:induction false} SearchFromFinds(s: string, p: nat)
    decreases |s| - p
    ensures SearchFrom(s, p).Some? <==> exists q :: p <= q <= |s| && GroupAt(s, q).Some?
  {
    if p > |s| {
      assert SearchFrom(s, p).None?;
    } else if GroupAt(s, p).Some? {
      assert SearchFrom(s, p).Some?;
      assert p <= p <= |s| && GroupAt(s, p).Some?;
    } else {
      SearchFromFinds(s, p + 1);
      assert SearchFrom(s, p) == SearchFrom(s, p + 1);
      if exists q :: p <= q <= |s| && GroupAt(s, q).Some? {
        var q :| p <= q <= |s| && GroupAt(s, q).Some?;
        assert p + 1 <= q;
      }
    }
  }

  lemma {:induction false} SearchFromLeftmost(s: string, p: nat)
    decreases |s| - p
    ensures SearchFrom(s, p).Some? ==>
              exists q :: p <= q <= |s| && GroupAt(s, q) == SearchFrom(s, p) && forall q' :: p <= q' < q ==> GroupAt(s, q').None?
  {
    if p > |s| {
    } else if GroupAt(s, p).Some? {
      assert GroupAt(s, p) == SearchFrom(s, p);
    } else if SearchFrom(s, p + 1).Some? {
      SearchFromLeftmost(s, p + 1);
      var q :| p + 1 <= q <= |s| && GroupAt(s, q) == SearchFrom(s, p + 1) && forall q' :: p + 1 <= q' < q ==> GroupAt(s, q').None?;
      assert GroupAt(s, q) == SearchFrom(s, p);
      assert forall q' :: p <= q' < q ==> GroupAt(s, q').None?;
    }
  }

  function CompanySymbolMatch(url: string): Option<string> {
    SearchFrom(url, 0)
  }

  /** `extract_company_symbol`: the captured symbol, or "UNKNOWN" when the pattern does not match. */
  function ExtractCompanySymbol(url: string): (r: string)
    ensures CompanySymbolMatch(url).None? ==> r == "UNKNOWN"
    ensures CompanySymbolMatch(url).Some? ==> r != [] && '/' !in r && Contains(url, "/company/" + r + "/")
  {
    var m := CompanySymbolMatch(url);
    if m.Some? then
      SearchFromMeans(url, 0);
      var q :| 0 <= q <= |url| && GroupAt(url, q) == m;
      GroupAtSound(url, q);
      m.value
    else "UNKNOWN"
  }

  lemma GroupAtSound(s: string, p: nat)
    requires GroupAt(s, p).Some?
    ensures var g := GroupAt(s, p).value;
            g != [] && '/' !in g && OccursAt(s, "/company/" + g + "/", p)
  {
    var rest := s[p + 9..];
    var k := Find(rest, "/");
    var g := rest[..k];
    assert OccursAt(rest, "/", k);
    forall i | 0 <= i < |g| ensures g[i] != '/' {
      assert !OccursAt(rest, "/", i);
      assert rest[i..i + 1][0] == rest[i];
    }
    assert s[p..p + 9 + k + 1] == s[p..p + 9] + g + "/";
  }

  /**
   * A Screener company URL yields its symbol: when "/company/" first occurs right
   * after `prefix`, the symbol is the path segment that follows it.
   */
  lemma SymbolOfCompanyUrl(prefix: string, symbol: string, suffix: string)
    requires symbol != [] && '/' !in symbol
    requires Find(prefix + "/company/", "/company/") == |prefix|
    ensures ExtractCompanySymbol(prefix + "/company/" + symbol + "/" + suffix) == symbol
  {
    var url := prefix + "/company/" + symbol + "/" + suffix;
    var p := |prefix|;
    assert OccursAt(url, "/company/", p);
    var rest := url[p + 9..];
    assert |"/company/"| == 9;
    assert rest == symbol + "/" + suffix;
    assert Find(rest, "/") == |symbol| by {
      assert OccursAt(rest, "/", |symbol|);
      forall j | 0 <= j < |symbol| ensures !OccursAt(rest, "/", j) {
        assert rest[j..j + 1][0] == symbol[j];
      }
    }
    assert rest[..|symbol|] == symbol;
    assert GroupAt(url, p) == Some(symbol);
    forall q | 0 <= q < p ensures GroupAt(url, q).None? {
      var w := prefix + "/company/";
      assert !OccursAt(w, "/company/", q);
      assert url[..|w|] == w;
    }
    SearchPast(url, 0, p);
  }

  lemma {:induction false} SearchPast(s: string, p: nat, q: nat)
    requires p <= q <= |s|
    requires forall i :: p <= i < q ==> GroupAt(s, i).None?
    ensures SearchFrom(s, p) == SearchFrom(s, q)
    decreases q - p
  {
    if p < q {
      assert GroupAt(s, p).None?;
      assert SearchFrom(s, p) == SearchFrom(s, p + 1);
      SearchPast(s, p + 1, q);
    }
  }
}
