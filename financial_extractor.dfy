/**
 * app/tools/financial_extractor.py: the mapping from scraped table rows to
 * per-quarter metric dictionaries, the growth step on the latest quarter, the
 * two-strategy PDF text extraction, the file filter of the PDF fallback and the
 * `run` entry point (input parsing and report).
 */
module FinancialExtractor {
  import opened Wrappers
  import opened PyStr
  import opened PyDict
  import Scraper

  /** A metrics dictionary: keys in insertion order, values as the scraper produces them. */
  type Metrics = Dict<Scraper.Value>

  const StandardFields: set<string> := {"total_revenue", "net_profit", "operating_margin", "eps"}

  // ---------------------------------------------------------------------------
  // _transform_table_to_metrics

  /** `row.get("metric", "").lower()`: a non-string metric cell raises AttributeError. */
  function MetricName(row: Metrics): (r: Outcome<string>)
    ensures r.Returned? <==> Get(row, "metric", Scraper.Text("")).Text?
  {
    match Get(row, "metric", Scraper.Text(""))
    case Text(s) => Returned(Lower(s))
    case _ => Raised("AttributeError")
  }

  /**
   * The if/elif chain: the first keyword group the lowercased name hits decides
   * the branch, and a branch whose inner test fails sets nothing.
   */
  function Field(name: string): (r: Option<string>)
    ensures r.Some? ==> r.value in StandardFields
  {
    if Contains(name, "revenue") || Contains(name, "sales") then
      (if Contains(name, "total") || Contains(name, "operations") then Some("total_revenue") else None)
    else if Contains(name, "profit") then
      (if Contains(name, "net") || Contains(name, "after tax") then Some("net_profit") else None)
    else if Contains(name, "margin") then
      (if Contains(name, "operating") || Contains(name, "opm") then Some("operating_margin") else None)
    else if Contains(name, "eps") then Some("eps")
    else None
  }

  /** The standard field a row feeds, when its metric name can be read. */
  function FieldOf(row: Metrics): Option<string> {
    var name := MetricName(row);
    if name.Returned? then Field(name.value) else None
  }

  function Apply(m: Metrics, f: Option<string>, v: Scraper.Value): Metrics {
    if f.Some? then Set(m, f.value, v) else m
  }

  /** The dictionary of quarter `col` after the inner loop has walked `rows`. */
  function QuarterEntry(rows: seq<Metrics>, col: string): Outcome<Metrics> {
    if rows == [] then Returned([("quarter", Scraper.Text(col))])
    else
      match QuarterEntry(rows[..|rows| - 1], col)
      case Raised(e) => Raised(e)
      case Returned(m) =>
        var row := rows[|rows| - 1];
        match MetricName(row)
        case Raised(e) => Raised(e)
        case Returned(name) => Returned(Apply(m, Field(name), Get(row, col, Scraper.Null)))
  }

  /** The entries of the outer loop after it has walked `cols`; the first failure aborts it. */
  function Entries(rows: seq<Metrics>, cols: seq<string>): Outcome<seq<Metrics>> {
    if cols == [] then Returned([])
    else
      match Entries(rows, cols[..|cols| - 1])
      case Raised(e) => Raised(e)
      case Returned(ms) =>
        match QuarterEntry(rows, cols[|cols| - 1])
        case Raised(e) => Raised(e)
        case Returned(m) => Returned(ms + [m])
  }

  /** The keys other than "metric", in order. */
  function NonMetric(ks: seq<string>): (r: seq<string>)
    ensures |r| <= |ks|
    ensures forall k :: k in r <==> k in ks && k != "metric"
  {
    if ks == [] then []
    else if ks[0] == "metric" then NonMetric(ks[1..])
    else [ks[0]] + NonMetric(ks[1..])
  }

  /** `[k for k in first_row.keys() if k != "metric"][:quarters]`. */
  function QuarterColumns(first: Metrics, quarters: int): (r: seq<string>)
    ensures quarters >= 0 ==> |r| <= quarters
    ensures forall k :: k in r ==> k in Keys(first) && k != "metric"
  {
    SliceTo(NonMetric(Keys(first)), quarters)
  }

  /** What _transform_table_to_metrics returns, or the exception it raises. */
  function Transform(table: seq<Metrics>, quarters: int): Outcome<seq<Metrics>> {
    if table == [] then Returned([])
    else
      match Entries(table, QuarterColumns(table[0], quarters))
      case Raised(e) => Raised(e)
      case Returned(ms) => WithGrowth(ms)
  }

  method QuarterMetrics(table: seq<Metrics>, col: string) returns (r: Outcome<Metrics>)
    ensures r == QuarterEntry(table, col)
  {
    var quarterMetrics: Metrics := [("quarter", Scraper.Text(col))];
    var k := 0;
    while k < |table|
      invariant 0 <= k <= |table|
      invariant QuarterEntry(table[..k], col) == Returned(quarterMetrics)
    {
      var row := table[k];
      assert table[..k + 1][..k] == table[..k];
      var name := MetricName(row);
      if name.Raised? {
        assert QuarterEntry(table[..k + 1], col) == Raised(name.error);
        QuarterEntryRaisedStays(table, col, k + 1);
        return Raised(name.error);
      }
      quarterMetrics := Apply(quarterMetrics, Field(name.value), Get(row, col, Scraper.Null));
      k := k + 1;
    }
    assert table[..|table|] == table;
    r := Returned(quarterMetrics);
  }

  /** Once the inner loop has raised, walking further rows keeps the same exception. */
  lemma {:induction false} QuarterEntryRaisedStays(rows: seq<Metrics>, col: string, k: nat)
    requires k <= |rows| && QuarterEntry(rows[..k], col).Raised?
    ensures QuarterEntry(rows, col) == QuarterEntry(rows[..k], col)
    decreases |rows| - k
  {
    if k < |rows| {
      assert rows[..k + 1][..k] == rows[..k];
      QuarterEntryRaisedStays(rows, col, k + 1);
    } else {
      assert rows[..k] == rows;
    }
  }

  lemma {:induction false} EntriesRaisedStays(rows: seq<Metrics>, cols: seq<string>, k: nat)
    requires k <= |cols| && Entries(rows, cols[..k]).Raised?
    ensures Entries(rows, cols) == Entries(rows, cols[..k])
    decreases |cols| - k
  {
    if k < |cols| {
      assert cols[..k + 1][..k] == cols[..k];
      EntriesRaisedStays(rows, cols, k + 1);
    } else {
      assert cols[..k] == cols;
    }
  }

  method TransformTableToMetrics(table: seq<Metrics>, quarters: int) returns (r: Outcome<seq<Metrics>>)
    ensures r == Transform(table, quarters)
  {
    if table == [] {
      return Returned([]);
    }
    var cols := QuarterColumns(table[0], quarters);
    var metricsByQuarter: seq<Metrics> := [];
    var c := 0;
    while c < |cols|
      invariant 0 <= c <= |cols|
      invariant Entries(table, cols[..c]) == Returned(metricsByQuarter)
    {
      assert cols[..c + 1][..c] == cols[..c];
      var quarterMetrics := QuarterMetrics(table, cols[c]);
      if quarterMetrics.Raised? {
        EntriesRaisedStays(table, cols, c + 1);
        return Raised(quarterMetrics.error);
      }
      metricsByQuarter := metricsByQuarter + [quarterMetrics.value];
      c := c + 1;
    }
    assert cols[..|cols|] == cols;
    r := WithGrowth(metricsByQuarter);
  }

  // ---------------------------------------------------------------------------
  // _calculate_growth_rates

  /** Python truthiness of a cell value. */
  predicate Truthy(v: Scraper.Value) {
    match v
    case Text(s) => s != ""
    case Number(x) => x != 0.0
    case Null => false
  }

  /**
   * The growth of `key` from `previous` to `latest`: nothing unless both have the
   * key and the previous value is truthy; subtraction or division on anything but
   * two numbers raises TypeError.
   */
  function Growth(latest: Metrics, previous: Metrics, key: string): Outcome<Option<Scraper.Value>> {
    if key !in Keys(latest) || key !in Keys(previous) then Returned(None)
    else
      var p := Get(previous, key, Scraper.Null);
      var l := Get(latest, key, Scraper.Null);
      if !Truthy(p) then Returned(None)
      else if l.Number? && p.Number? then Returned(Some(Scraper.Number((l.x - p.x) / p.x * 100.0)))
      else Raised("TypeError")
  }

  function SetIf(m: Metrics, key: string, g: Option<Scraper.Value>): Metrics {
    if g.Some? then Set(m, key, g.value) else m
  }

  /** _calculate_growth_rates: only the first entry may gain the two growth keys. */
  function WithGrowth(ms: seq<Metrics>): (r: Outcome<seq<Metrics>>)
    ensures |ms| < 2 ==> r == Returned(ms)
    ensures r.Returned? ==> |r.value| == |ms| && (|ms| >= 2 ==> r.value[1..] == ms[1..])
  {
    if |ms| < 2 then Returned(ms)
    else
      match Growth(ms[0], ms[1], "total_revenue")
      case Raised(e) => Raised(e)
      case Returned(g1) =>
        var latest := SetIf(ms[0], "revenue_growth_yoy", g1);
        match Growth(latest, ms[1], "net_profit")
        case Raised(e) => Raised(e)
        case Returned(g2) => Returned([SetIf(latest, "profit_growth_yoy", g2)] + ms[1..])
  }

  /**
   * A growth figure g reported for `key` recovers the latest value from the
   * previous one: latest = previous + previous * g / 100, and it is only
   * reported when both entries hold the key with numbers and the previous one
   * is non-zero.
   */
  lemma GrowthRecoversLatest(latest: Metrics, previous: Metrics, key: string)
    requires Growth(latest, previous, key).Returned? && Growth(latest, previous, key).value.Some?
    ensures key in Keys(latest) && key in Keys(previous)
    ensures var p := Get(previous, key, Scraper.Null);
            var l := Get(latest, key, Scraper.Null);
            var g := Growth(latest, previous, key).value.value;
            p.Number? && l.Number? && g.Number? && p.x != 0.0 && Recovers(l.x, p.x, g.x)
  {
    var p := Get(previous, key, Scraper.Null);
    var l := Get(latest, key, Scraper.Null);
    var g := Growth(latest, previous, key).value.value;
    assert p.Number? && l.Number? && p.x != 0.0;
    var gx := (l.x - p.x) / p.x * 100.0;
    assert g == Scraper.Number(gx);
    GrowthInverse(l.x, p.x, gx);
  }

  /** latest = previous + previous * growth / 100. */
  predicate Recovers(latest: real, previous: real, growth: real) {
    latest == previous + previous * growth / 100.0
  }

  lemma GrowthInverse(l: real, p: real, g: real)
    requires p != 0.0 && g == (l - p) / p * 100.0
    ensures Recovers(l, p, g)
  {
    var q := (l - p) / p;
    assert p * q == l - p;
    assert g / 100.0 == q;
  }

  /** A missing latest value against a numeric previous one raises, losing the whole table. */
  lemma GrowthOnMissingLatestRaises(latest: Metrics, previous: Metrics, key: string, x: real)
    requires key in Keys(latest) && Get(latest, key, Scraper.Null) == Scraper.Null
    requires key in Keys(previous) && Get(previous, key, Scraper.Null) == Scraper.Number(x) && x != 0.0
    ensures Growth(latest, previous, key).Raised?
  {
  }

  /** Apart from the two growth keys, the first entry reads as before the growth step. */
  lemma WithGrowthKeepsOtherKeys(ms: seq<Metrics>, k: string, default: Scraper.Value)
    requires |ms| >= 2 && WithGrowth(ms).Returned?
    requires k != "revenue_growth_yoy" && k != "profit_growth_yoy"
    ensures Get(WithGrowth(ms).value[0], k, default) == Get(ms[0], k, default)
  {
    var g1 := Growth(ms[0], ms[1], "total_revenue").value;
    var latest := SetIf(ms[0], "revenue_growth_yoy", g1);
    if g1.Some? {
      GetSet(ms[0], "revenue_growth_yoy", g1.value, k, default);
    }
    var g2 := Growth(latest, ms[1], "net_profit").value;
    if g2.Some? {
      GetSet(latest, "profit_growth_yoy", g2.value, k, default);
    }
  }

  // ---------------------------------------------------------------------------
  // What the table mapping promises

  /** The first pair of a quarter entry is always its "quarter" tag. */
  lemma {:induction false} QuarterEntryTagged(rows: seq<Metrics>, col: string)
    requires QuarterEntry(rows, col).Returned?
    ensures var m := QuarterEntry(rows, col).value; m != [] && m[0] == ("quarter", Scraper.Text(col))
  {
    if rows != [] {
      QuarterEntryTagged(rows[..|rows| - 1], col);
    }
  }

  /** A successful inner loop read every row's metric name. */
  lemma {:induction false} QuarterEntryReadAll(rows: seq<Metrics>, col: string, j: nat)
    requires QuarterEntry(rows, col).Returned? && j < |rows|
    ensures MetricName(rows[j]).Returned?
  {
    var init := rows[..|rows| - 1];
    if j < |rows| - 1 {
      assert init[j] == rows[j];
      QuarterEntryReadAll(init, col, j);
    }
  }

  /**
   * Later rows overwrite earlier ones: the value stored under a standard field
   * is the cell of the last row that maps to it.
   */
  lemma {:induction false} QuarterEntryLastWins(rows: seq<Metrics>, col: string, f: string, j: nat)
    requires QuarterEntry(rows, col).Returned?
    requires j < |rows| && FieldOf(rows[j]) == Some(f)
    requires forall k :: j < k < |rows| ==> FieldOf(rows[k]) != Some(f)
    ensures Get(QuarterEntry(rows, col).value, f, Scraper.Null) == Get(rows[j], col, Scraper.Null)
  {
    var init := rows[..|rows| - 1];
    var last := rows[|rows| - 1];
    var m := QuarterEntry(init, col).value;
    var name := MetricName(last).value;
    if j == |rows| - 1 {
      GetSet(m, f, Get(last, col, Scraper.Null), f, Scraper.Null);
    } else {
      forall k | j < k < |init| ensures FieldOf(init[k]) != Some(f) {
        assert init[k] == rows[k];
      }
      assert init[j] == rows[j];
      QuarterEntryLastWins(init, col, f, j);
      assert FieldOf(last) != Some(f);
      if Field(name).Some? {
        GetSet(m, Field(name).value, Get(last, col, Scraper.Null), f, Scraper.Null);
      }
    }
  }

  /** A standard field no row maps to is absent from the quarter entry. */
  lemma {:induction false} QuarterEntryAbsent(rows: seq<Metrics>, col: string, f: string)
    requires QuarterEntry(rows, col).Returned? && f != "quarter"
    requires forall k :: 0 <= k < |rows| ==> FieldOf(rows[k]) != Some(f)
    ensures f !in Keys(QuarterEntry(rows, col).value)
  {
    if rows != [] {
      var init := rows[..|rows| - 1];
      var last := rows[|rows| - 1];
      forall k | 0 <= k < |init| ensures FieldOf(init[k]) != Some(f) {
        assert init[k] == rows[k];
      }
      QuarterEntryAbsent(init, col, f);
      var m := QuarterEntry(init, col).value;
      var fl := Field(MetricName(last).value);
      assert FieldOf(last) == fl;
      if fl.Some? {
        SetKeys(m, fl.value, Get(last, col, Scraper.Null));
      }
    }
  }

  lemma {:induction false} EntriesShape(rows: seq<Metrics>, cols: seq<string>)
    requires Entries(rows, cols).Returned?
    ensures var ms := Entries(rows, cols).value;
            |ms| == |cols| &&
            forall i :: 0 <= i < |cols| ==> QuarterEntry(rows, cols[i]) == Returned(ms[i])
  {
    if cols != [] {
      var init := cols[..|cols| - 1];
      EntriesShape(rows, init);
      var ms := Entries(rows, cols).value;
      forall i | 0 <= i < |cols| ensures QuarterEntry(rows, cols[i]) == Returned(ms[i]) {
        if i < |init| {
          assert init[i] == cols[i];
        }
      }
    }
  }

  /**
   * An empty table gives no entries. Otherwise there is one entry per quarter
   * column, in column order, each starting with its "quarter" tag; every entry
   * after the first is exactly the inner loop's dictionary for its column.
   */
  lemma TransformShape(table: seq<Metrics>, quarters: int)
    requires Transform(table, quarters).Returned?
    ensures table == [] ==> Transform(table, quarters).value == []
    ensures table != [] ==>
      var cols := QuarterColumns(table[0], quarters);
      var ms := Transform(table, quarters).value;
      |ms| == |cols| &&
      (forall i :: 0 <= i < |ms| ==> ms[i] != [] && ms[i][0] == ("quarter", Scraper.Text(cols[i]))) &&
      (forall i :: 1 <= i < |ms| ==> QuarterEntry(table, cols[i]) == Returned(ms[i]))
  {
    if table != [] {
      var cols := QuarterColumns(table[0], quarters);
      EntriesShape(table, cols);
      var es := Entries(table, cols).value;
      var ms := Transform(table, quarters).value;
      forall i | 0 <= i < |ms| ensures ms[i] != [] && ms[i][0] == ("quarter", Scraper.Text(cols[i])) {
        QuarterEntryTagged(table, cols[i]);
        if i == 0 && |es| >= 2 {
          WithGrowthKeepsTag(es);
        } else if i > 0 {
          assert ms[i] == ms[1..][i - 1];
        }
      }
      forall i | 1 <= i < |ms| ensures QuarterEntry(table, cols[i]) == Returned(ms[i]) {
        assert ms[i] == ms[1..][i - 1];
      }
    }
  }

  lemma WithGrowthKeepsTag(ms: seq<Metrics>)
    requires |ms| >= 2 && WithGrowth(ms).Returned? && ms[0] != [] && ms[0][0].0 == "quarter"
    ensures WithGrowth(ms).value[0] != [] && WithGrowth(ms).value[0][0] == ms[0][0]
  {
  }

  /**
   * The elif chain drops rows: a bare "sales" row and an "opm" row without
   * "margin" set nothing, and a "profit" row never sets the margin or EPS.
   */
  lemma ChainDropsRows(name: string)
    ensures Field("sales") == None
    ensures Field("opm %") == None
    ensures Contains(name, "profit") ==> Field(name) != Some("operating_margin") && Field(name) != Some("eps")
    ensures Field(name) == Some("operating_margin") ==> Contains(name, "margin")
  {
    AbsentFirstChar("sales", "total");
    assert OccursAt("sales", "sales", 0);
    AbsentFirstChar("opm %", "sales");
    AbsentFirstChar("opm %", "eps");
  }

  // ---------------------------------------------------------------------------
  // extract_from_url

  /** The table the scraper returns for the fetched page; it reports every failure as []. */
  function PageTable(page: Outcome<Scraper.QuarterSection>): seq<Metrics> {
    if page.Raised? then [] else Scraper.FinancialTable(page.value)
  }

  /** extract_from_url: an empty table or any exception in the mapping gives []. */
  function UrlMetrics(page: Outcome<Scraper.QuarterSection>, quarters: int): (r: seq<Metrics>)
    ensures page.Raised? ==> r == []
  {
    var table := PageTable(page);
    if table == [] then []
    else
      match Transform(table, quarters)
      case Returned(ms) => ms
      case Raised(_) => []
  }

  method ExtractFromUrl(page: Outcome<Scraper.QuarterSection>, quarters: int) returns (r: seq<Metrics>)
    ensures r == UrlMetrics(page, quarters)
  {
    var financialData := Scraper.ExtractFinancialTable(page);
    if financialData == [] {
      return [];
    }
    var metrics := TransformTableToMetrics(financialData, quarters);
    r := if metrics.Returned? then metrics.value else [];
  }

  // ---------------------------------------------------------------------------
  // _extract_text_from_pdf

  /**
   * What the two readers do with one file: PyPDF2 either fails to open it or
   * yields per-page extraction outcomes; pdfminer's `extract_text(maxpages=10)`
   * either returns the text or raises.
   */
  datatype PdfSources = PdfSources(reader: Outcome<seq<Outcome<string>>>, miner: Outcome<string>)

  /**
   * The text the PyPDF2 loop has built over `pages`, and whether it got through
   * them all: each page adds its text and a newline, and the first failing page
   * ends the loop.
   */
  function PageText(pages: seq<Outcome<string>>): (r: (string, bool))
    ensures r.1 <==> forall i :: 0 <= i < |pages| ==> pages[i].Returned?
  {
    if pages == [] then ("", true)
    else
      var (t, ok) := PageText(pages[..|pages| - 1]);
      var last := pages[|pages| - 1];
      if !ok then (t, false)
      else if last.Returned? then (t + last.value + "\n", true)
      else (t, false)
  }

  /** The partial text after a failing page is exactly the text of the pages before it. */
  lemma {:induction false} PageTextStopsAtFailure(pages: seq<Outcome<string>>, j: nat)
    requires j < |pages| && pages[j].Raised?
    ensures PageText(pages) == (PageText(pages[..j]).0, false)
  {
    var init := pages[..|pages| - 1];
    if j == |pages| - 1 {
      assert init == pages[..j];
    } else {
      assert init[j] == pages[j];
      PageTextStopsAtFailure(init, j);
      assert init[..j] == pages[..j];
    }
  }

  /** The text the first strategy leaves behind, and whether it completed. */
  function FirstStrategy(src: PdfSources): (string, bool) {
    if src.reader.Raised? then ("", false) else PageText(SliceTo(src.reader.value, 10))
  }

  /** _extract_text_from_pdf. */
  function PdfText(src: PdfSources): string {
    var (t, ok) := FirstStrategy(src);
    if ok && Strip(t) != "" then t
    else if src.miner.Returned? then src.miner.value
    else t
  }

  /**
   * The first strategy wins exactly when it read all of the first ten pages and
   * its text is not blank; otherwise pdfminer's text is used whenever it
   * returns, blank or not, and else whatever the first strategy left.
   */
  method ExtractTextFromPdf(src: PdfSources) returns (text: string)
    ensures text == PdfText(src)
  {
    text := "";
    if src.reader.Returned? {
      var pages := SliceTo(src.reader.value, 10);
      var i := 0;
      var failed := false;
      while i < |pages| && !failed
        invariant 0 <= i <= |pages|
        decreases |pages| - i, if failed then 0 else 1
        invariant !failed ==> PageText(pages[..i]) == (text, true)
        invariant failed ==> PageText(pages) == (text, false)
      {
        assert pages[..i + 1][..i] == pages[..i];
        if pages[i].Raised? {
          PageTextStopsAtFailure(pages, i);
          failed := true;
        } else {
          text := text + pages[i].value + "\n";
          i := i + 1;
        }
      }
      if !failed {
        assert pages[..i] == pages;
        if Strip(text) != "" {
          return text;
        }
      }
    }
    if src.miner.Returned? {
      text := src.miner.value;
    }
  }

  // ---------------------------------------------------------------------------
  // extract_from_pdf and extract_from_pdfs

  /** extract_from_pdf: no text gives {}, otherwise the text parser's metrics. */
  function PdfFileMetrics(src: PdfSources, parse: string -> Metrics): Metrics {
    var text := PdfText(src);
    if text == "" then [] else parse(text)
  }

  method ExtractFromPdf(src: PdfSources, parse: string -> Metrics) returns (metrics: Metrics)
    ensures metrics == PdfFileMetrics(src, parse)
  {
    var text := ExtractTextFromPdf(src);
    if text == "" {
      return [];
    }
    metrics := parse(text);
  }

  /** `Path.glob("*.pdf")` (case-sensitive) and the name filter of extract_from_pdfs. */
  predicate IsFinancialPdf(name: string) {
    EndsWith(name, ".pdf") && (Contains(Lower(name), "financial_report") || Contains(Lower(name), "result"))
  }

  /** The list extract_from_pdfs has built after the files in `listing`. */
  function PdfMetrics(listing: seq<string>, sources: string -> PdfSources, parse: string -> Metrics): seq<Metrics> {
    if listing == [] then []
    else
      var acc := PdfMetrics(listing[..|listing| - 1], sources, parse);
      var name := listing[|listing| - 1];
      var m := PdfFileMetrics(sources(name), parse);
      if IsFinancialPdf(name) && m != [] then acc + [Set(m, "source_file", Scraper.Text(name))] else acc
  }

  /**
   * extract_from_pdfs over the glob result `listing` (its order is the
   * directory's): [] when the directory is missing.
   */
  method ExtractFromPdfs(dirExists: bool, listing: seq<string>, sources: string -> PdfSources, parse: string -> Metrics)
    returns (allMetrics: seq<Metrics>)
    ensures allMetrics == if dirExists then PdfMetrics(listing, sources, parse) else []
  {
    if !dirExists {
      return [];
    }
    allMetrics := [];
    var i := 0;
    while i < |listing|
      invariant 0 <= i <= |listing|
      invariant allMetrics == PdfMetrics(listing[..i], sources, parse)
    {
      var name := listing[i];
      assert listing[..i + 1][..i] == listing[..i];
      if IsFinancialPdf(name) {
        var metrics := ExtractFromPdf(sources(name), parse);
        if metrics != [] {
          allMetrics := allMetrics + [Set(metrics, "source_file", Scraper.Text(name))];
        }
      }
      i := i + 1;
    }
    assert listing[..|listing|] == listing;
  }

  /**
   * Every PDF entry comes from a financial-looking *.pdf of the listing and is
   * tagged with that file's name, and there is at most one entry per file.
   */
  lemma {:induction false} PdfMetricsTagged(listing: seq<string>, sources: string -> PdfSources, parse: string -> Metrics)
    ensures |PdfMetrics(listing, sources, parse)| <= |listing|
    ensures forall e :: e in PdfMetrics(listing, sources, parse) ==>
      exists n :: n in listing && IsFinancialPdf(n) && Get(e, "source_file", Scraper.Null) == Scraper.Text(n)
  {
    if listing != [] {
      var init := listing[..|listing| - 1];
      var name := listing[|listing| - 1];
      PdfMetricsTagged(init, sources, parse);
      var m := PdfFileMetrics(sources(name), parse);
      if IsFinancialPdf(name) && m != [] {
        GetSet(m, "source_file", Scraper.Text(name), "source_file", Scraper.Null);
      }
      forall e | e in PdfMetrics(listing, sources, parse)
        ensures exists n :: n in listing && IsFinancialPdf(n) && Get(e, "source_file", Scraper.Null) == Scraper.Text(n)
      {
        if e in PdfMetrics(init, sources, parse) {
          var n :| n in init && IsFinancialPdf(n) && Get(e, "source_file", Scraper.Null) == Scraper.Text(n);
          assert n in listing;
        } else {
          assert name in listing;
        }
      }
    }
  }

  // ---------------------------------------------------------------------------
  // run

  /**
   * `input_str.split(",")`: the stripped first field is the URL, the second
   * field (stripped) is the quarter count, default 2; more fields are ignored.
   * A count that is not an integer raises ValueError, whose text names the
   * stripped field as repr() shows it.
   */
  function ParseRunInput(input: string): (r: Outcome<(string, int)>)
    ensures r.Returned? ==> r.value.0 == Strip(Split(input, ",")[0])
    ensures r.Returned? && r.value.1 != 2 ==> |Split(input, ",")| > 1
    ensures r.Raised? ==> |Split(input, ",")| > 1 && ParseInt(Strip(Split(input, ",")[1])).None?
                          && StartsWith(r.error, IntErrorPrefix)
  {
    var parts := Split(input, ",");
    var url := Strip(parts[0]);
    if |parts| > 1 then
      match ParseInt(Strip(parts[1]))
      case Some(q) => Returned((url, q))
      case None => Raised(IntErrorMessage(Strip(parts[1])))
    else Returned((url, 2))
  }

  /** The text of the ValueError `int(s)` raises on a string that is not a base-10 integer. */
  function IntErrorMessage(s: string): string {
    IntErrorPrefix + Repr(s)
  }

  const IntErrorPrefix: string := "invalid literal for int() with base 10: "

  /** Without a comma the whole stripped input is the URL and two quarters are asked for. */
  lemma RunInputWithoutComma(input: string)
    requires ',' !in input
    ensures ParseRunInput(input) == Returned((Strip(input), 2))
  {
    SplitNoSeparator(input, ',');
  }

  /**
   * "url,q" and "url,q,anything" give the stripped URL and int(q); fields after
   * the second are ignored, and a non-integer q raises.
   */
  lemma RunInputFields(url: string, count: string, tail: string)
    requires ',' !in url && ',' !in count
    requires tail == [] || tail[0] == ','
    ensures ParseRunInput(url + "," + count + tail) ==
      match ParseInt(Strip(count))
      case Some(q) => Returned((Strip(url), q))
      case None => Raised(IntErrorMessage(Strip(count)))
  {
    SecondField(url, count, tail);
  }

  lemma SecondField(url: string, count: string, tail: string)
    requires ',' !in url && ',' !in count
    requires tail == [] || tail[0] == ','
    ensures var parts := Split(url + "," + count + tail, ",");
            |parts| >= 2 && parts[0] == url && parts[1] == count
  {
    var rest := count + tail;
    assert url + "," + count + tail == url + [','] + rest;
    SplitAtFirst(url, rest, ',');
    FirstField(count, tail);
  }

  lemma FirstField(count: string, tail: string)
    requires ',' !in count
    requires tail == [] || tail[0] == ','
    ensures Split(count + tail, ",")[0] == count
  {
    if tail == [] {
      assert count + tail == count;
      SplitNoSeparator(count, ',');
    } else {
      assert count + tail == count + [','] + tail[1..];
      SplitAtFirst(count, tail[1..], ',');
    }
  }

  /** The quarter count the pipeline sends round-trips through the parser. */
  lemma RunInputRoundTrip(url: string, q: int)
    requires ',' !in url
    ensures ParseRunInput(url + "," + IntToString(q)) == Returned((Strip(url), q))
  {
    assert ',' !in IntToString(q) by {
      if q >= 0 {
        assert AllDigits(NatToString(q));
      } else {
        assert AllDigits(NatToString(-q));
        assert IntToString(q) == "-" + NatToString(-q);
      }
    }
    RunInputFields(url, IntToString(q), "");
    assert url + "," + IntToString(q) + "" == url + "," + IntToString(q);
    ParseIntOfIntToString(q);
    StripIntToString(q);
  }

  lemma StripIntToString(q: int)
    ensures Strip(IntToString(q)) == IntToString(q)
  {
    var s := IntToString(q);
    if q >= 0 {
      assert AllDigits(NatToString(q));
    } else {
      assert AllDigits(NatToString(-q));
    }
    StripVisible(s);
  }

  const NoMetricsMessage := "No financial metrics could be extracted."
  const ReportHeader := "Financial Metrics Extracted:\n\n"

  /** f"{value}": strings print as themselves, None as "None", floats by the opaque `showNumber`. */
  function Show(v: Scraper.Value, showNumber: real -> string): string {
    match v
    case Text(s) => s
    case Number(x) => showNumber(x)
    case Null => "None"
  }

  /** The block the report holds for quarter number i. */
  function QuarterBlock(i: nat, m: Metrics, showNumber: real -> string): (r: string)
    ensures StartsWith(r, "Quarter " + NatToString(i) + ": ")
  {
    var head := "Quarter " + NatToString(i) + ": ";
    var r := head + QuarterLines(m, showNumber);
    assert r[..|head|] == head;
    r
  }

  /** The lines after "Quarter i: ": the tag, the four fields, the growth lines present, a blank line. */
  function QuarterLines(m: Metrics, showNumber: real -> string): string {
    Show(Get(m, "quarter", Scraper.Text("Unknown")), showNumber) + "\n"
    + "  Total Revenue: " + Show(Get(m, "total_revenue", Scraper.Text("N/A")), showNumber) + " Cr\n"
    + "  Net Profit: " + Show(Get(m, "net_profit", Scraper.Text("N/A")), showNumber) + " Cr\n"
    + "  Operating Margin: " + Show(Get(m, "operating_margin", Scraper.Text("N/A")), showNumber) + "%\n"
    + "  EPS: " + Show(Get(m, "eps", Scraper.Text("N/A")), showNumber) + "\n"
    + (if "revenue_growth_yoy" in Keys(m) then
         "  Revenue Growth YoY: " + Show(Get(m, "revenue_growth_yoy", Scraper.Null), showNumber) + "%\n" else "")
    + (if "profit_growth_yoy" in Keys(m) then
         "  Profit Growth YoY: " + Show(Get(m, "profit_growth_yoy", Scraper.Null), showNumber) + "%\n" else "")
    + "\n"
  }

  /** The blocks of `ms`, numbered from 1. */
  function Blocks(ms: seq<Metrics>, showNumber: real -> string): string {
    if ms == [] then ""
    else Blocks(ms[..|ms| - 1], showNumber) + QuarterBlock(|ms|, ms[|ms| - 1], showNumber)
  }

  /** What `run` returns. */
  const RunErrorPrefix: string := "Error extracting financial data: "

  function RunOutput(input: string, fetch: string -> Outcome<Scraper.QuarterSection>, pdfMetrics: seq<Metrics>,
                     showNumber: real -> string): string
  {
    match ParseRunInput(input)
    case Raised(e) => RunErrorPrefix + e
    case Returned((url, q)) =>
      var fromUrl := UrlMetrics(fetch(url), q);
      var metrics := if fromUrl != [] then fromUrl else pdfMetrics;
      if metrics == [] then NoMetricsMessage
      else ReportHeader + Blocks(SliceTo(metrics, q), showNumber)
  }

  /**
   * A count int() rejects ends the run with Python's message for it, as in
   * "Error extracting financial data: invalid literal for int() with base 10: 'x'".
   */
  lemma RunBadCountMessage(url: string, count: string, fetch: string -> Outcome<Scraper.QuarterSection>,
                           pdfMetrics: seq<Metrics>, showNumber: real -> string)
    requires ',' !in url && ',' !in count && ParseInt(Strip(count)).None?
    ensures RunOutput(url + "," + count, fetch, pdfMetrics, showNumber)
            == RunErrorPrefix + IntErrorMessage(Strip(count))
  {
    BadCountRaises(url, count);
  }

  /** A field of plain characters is named between single quotes. */
  lemma IntErrorMessagePlain(s: string)
    requires forall i :: 0 <= i < |s| ==> PlainChar(s[i])
    ensures IntErrorMessage(s) == IntErrorPrefix + "'" + s + "'"
  {
    ReprPlain(s);
  }

  lemma BadCountRaises(url: string, count: string)
    requires ',' !in url && ',' !in count && ParseInt(Strip(count)).None?
    ensures ParseRunInput(url + "," + count) == Raised(IntErrorMessage(Strip(count)))
  {
    RunInputFields(url, count, []);
    assert url + "," + count + [] == url + "," + count;
  }

  /**
   * run: the URL extraction first, the PDF folder as fallback, and a report of
   * at most `quarters` entries.
   */
  method Run(input: string, fetch: string -> Outcome<Scraper.QuarterSection>,
             dirExists: bool, listing: seq<string>, sources: string -> PdfSources, parse: string -> Metrics,
             showNumber: real -> string)
    returns (output: string)
    ensures output == RunOutput(input, fetch, if dirExists then PdfMetrics(listing, sources, parse) else [], showNumber)
  {
    var parsed := ParseRunInput(input);
    if parsed.Raised? {
      return RunErrorPrefix + parsed.error;
    }
    var (url, quarters) := parsed.value;
    var metrics := ExtractFromUrl(fetch(url), quarters);
    if metrics == [] {
      metrics := ExtractFromPdfs(dirExists, listing, sources, parse);
    }
    if metrics == [] {
      return NoMetricsMessage;
    }
    output := FormatReport(SliceTo(metrics, quarters), showNumber);
  }

  /** The report `run` builds with `+=` over the entries it shows. */
  method FormatReport(shown: seq<Metrics>, showNumber: real -> string) returns (output: string)
    ensures output == ReportHeader + Blocks(shown, showNumber)
  {
    var body := "";
    var i := 0;
    while i < |shown|
      invariant 0 <= i <= |shown|
      invariant body == Blocks(shown[..i], showNumber)
    {
      var block := QuarterBlock(i + 1, shown[i], showNumber);
      BlocksSnoc(shown, i, showNumber);
      body := body + block;
      i := i + 1;
    }
    assert shown[..|shown|] == shown;
    output := ReportHeader + body;
  }

  lemma BlocksSnoc(ms: seq<Metrics>, i: nat, showNumber: real -> string)
    requires i < |ms|
    ensures Blocks(ms[..i + 1], showNumber) == Blocks(ms[..i], showNumber) + QuarterBlock(i + 1, ms[i], showNumber)
  {
    assert ms[..i + 1][..i] == ms[..i];
  }

  /** When the page yields metrics, the PDF folder is never consulted. */
  lemma UrlMetricsWin(input: string, fetch: string -> Outcome<Scraper.QuarterSection>, a: seq<Metrics>, b: seq<Metrics>,
                      showNumber: real -> string)
    requires ParseRunInput(input).Returned?
    requires UrlMetrics(fetch(ParseRunInput(input).value.0), ParseRunInput(input).value.1) != []
    ensures RunOutput(input, fetch, a, showNumber) == RunOutput(input, fetch, b, showNumber)
  {
  }
}
