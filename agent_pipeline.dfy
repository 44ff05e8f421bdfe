/**
 * app/services/agent_pipeline.py: ForecastAgentPipeline. It downloads the company's
 * PDFs, runs the reasoning agent over the three tools and parses the agent's text
 * into a forecast; when the agent fails it calls the tools itself and synthesizes
 * a fixed-shape forecast.
 *
 * The agent (LLM, prompt and executor) is an input: its outcome for the forecasting prompt. The
 * three tools are inputs too, each the text its `run` returns.
 */
module AgentPipeline {
  import opened Wrappers
  import opened PyStr
  import opened PyDict
  import opened JsonValue
  import opened Documents
  import Scraper
  import PdfDownloader
  import FinancialExtractor
  import QualitativeAnalysis

  // ---------------------------------------------------------------------------
  // _extract_trends

  const GrowthTrend: string := "Revenue growth observed"
  const MarginTrend: string := "Margin performance noted"
  const ProfitTrend: string := "Profitability metrics available"
  const NoTrend: string := "Financial data extracted"

  /** The position of a trend in the order the checks are made. */
  function TrendRank(t: string): nat {
    if t == GrowthTrend then 0 else if t == MarginTrend then 1 else if t == ProfitTrend then 2 else 3
  }

  /**
   * _extract_trends: one trend per word found in the lower-cased text, in the order
   * growth, margin, profit; the placeholder when none is found.
   */
  function ExtractTrends(text: string): (r: seq<string>)
    ensures 1 <= |r| <= 3
    ensures GrowthTrend in r <==> Contains(Lower(text), "growth")
    ensures MarginTrend in r <==> Contains(Lower(text), "margin")
    ensures ProfitTrend in r <==> Contains(Lower(text), "profit")
    ensures r == [NoTrend] <==> !Contains(Lower(text), "growth") && !Contains(Lower(text), "margin") && !Contains(Lower(text), "profit")
    ensures forall i, j :: 0 <= i < j < |r| ==> TrendRank(r[i]) < TrendRank(r[j])
  {
    var low := Lower(text);
    var trends := (if Contains(low, "growth") then [GrowthTrend] else [])
                  + (if Contains(low, "margin") then [MarginTrend] else [])
                  + (if Contains(low, "profit") then [ProfitTrend] else []);
    if trends == [] then [NoTrend] else trends
  }

  // ---------------------------------------------------------------------------
  // _parse_agent_output

  /** The dict the executor returns: its "output" entry, and its str() for error reports. */
  datatype AgentResult = AgentResult(output: Option<string>, shown: string)

  /** The seven keys of a forecast dict. */
  datatype Forecast = Forecast(summary: string, trends: seq<string>, qualitative: string, outlook: string,
                               risks: seq<string>, opportunities: seq<string>, confidence: string)

  /** The dicts the pipeline returns, one constructor per status and method. */
  datatype ForecastResult =
    | Parsed(json: Json, raw: string)
    | Partial(forecast: Forecast, raw: string)
    | ParseError(error: string, raw: string)
    | FallbackDirect(forecast: Forecast)

  /**
   * The bounds of the JSON candidate: the first '{' and one past the last '}'.
   * The two may be in either order.
   */
  function CandidateBounds(text: string): (r: (nat, nat))
    requires '{' in text && '}' in text
    ensures r.0 < |text| && text[r.0] == '{' && forall j :: 0 <= j < r.0 ==> text[j] != '{'
    ensures 1 <= r.1 <= |text| && text[r.1 - 1] == '}' && forall j :: r.1 <= j < |text| ==> text[j] != '}'
  {
    ContainsChar(text, '{');
    var s := Find(text, "{");
    assert text[s..s + 1] == "{";
    forall j | 0 <= j < s ensures text[j] != '{' {
      assert !OccursAt(text, "{", j);
      assert text[j..j + 1] == [text[j]];
    }
    (s, RFindChar(text, '}') + 1)
  }

  /** `output_text[start_idx:end_idx]`. */
  function Candidate(text: string): string
    requires '{' in text && '}' in text
  {
    var (s, e) := CandidateBounds(text);
    Slice(text, s, e)
  }

  /**
   * The candidate runs from the first '{' through the last '}' inclusive, and is
   * empty when the last '}' comes before the first '{'.
   */
  lemma CandidateBraced(text: string)
    requires '{' in text && '}' in text
    ensures var (s, e) := CandidateBounds(text);
            var c := Candidate(text);
            && (s < e ==> c == text[s..e] && c[0] == '{' && c[|c| - 1] == '}')
            && (e <= s ==> c == [])
            && '{' !in text[..s] && '}' !in text[e..]
  {
    var (s, e) := CandidateBounds(text);
    assert forall x :: x in text[..s] ==> x != '{';
    assert forall x :: x in text[e..] ==> x != '}';
  }

  const SeeSummary: string := "See summary"

  /** _parse_agent_output; `loads` is json.loads. */
  function ParseAgentOutput(a: AgentResult, loads: string -> Outcome<Json>): (r: ForecastResult)
    ensures !r.FallbackDirect?
    ensures r.Parsed? || r.Partial? ==> r.raw == a.output.GetOr("")
    ensures r.ParseError? ==> r.raw == a.shown
    ensures r.Parsed? ==> '{' in a.output.GetOr("") && '}' in a.output.GetOr("") && loads(Candidate(a.output.GetOr(""))) == Returned(r.json)
  {
    var text := a.output.GetOr("");
    if Contains(text, "{") && Contains(text, "}") then
      ContainsChar(text, '{');
      ContainsChar(text, '}');
      match loads(Candidate(text))
      case Returned(j) => Parsed(j, text)
      case Raised(e) => ParseError(e, a.shown)
    else Partial(Forecast(text, [], text, SeeSummary, [], [], "low"), text)
  }

  /**
   * The output is used as text (summary and assessment both the whole output, no
   * lists, low confidence) exactly when it lacks '{' or '}'.
   */
  lemma PartialExactly(a: AgentResult, loads: string -> Outcome<Json>)
    ensures var text := a.output.GetOr("");
            && (ParseAgentOutput(a, loads).Partial? <==> '{' !in text || '}' !in text)
            && (ParseAgentOutput(a, loads).Partial? ==>
                  ParseAgentOutput(a, loads) == Partial(Forecast(text, [], text, SeeSummary, [], [], "low"), text))
  {
    var text := a.output.GetOr("");
    ContainsChar(text, '{');
    ContainsChar(text, '}');
  }

  /**
   * With both braces present, the result is what json.loads makes of the candidate:
   * the parsed value with the output text, or the error with the result's str().
   */
  lemma BracedOutcome(a: AgentResult, loads: string -> Outcome<Json>)
    requires '{' in a.output.GetOr("") && '}' in a.output.GetOr("")
    ensures var text := a.output.GetOr("");
            ParseAgentOutput(a, loads)
            == match loads(Candidate(text))
               case Returned(j) => Parsed(j, text)
               case Raised(e) => ParseError(e, a.shown)
  {
    ContainsChar(a.output.GetOr(""), '{');
    ContainsChar(a.output.GetOr(""), '}');
  }

  /** A '}' that only comes before the first '{' leaves the empty candidate, which json.loads rejects. */
  lemma ReversedBracesFail(a: AgentResult, loads: string -> Outcome<Json>)
    requires '{' in a.output.GetOr("") && '}' in a.output.GetOr("")
    requires CandidateBounds(a.output.GetOr("")).1 <= CandidateBounds(a.output.GetOr("")).0
    requires loads("").Raised?
    ensures ParseAgentOutput(a, loads) == ParseError(loads("").error, a.shown)
  {
    CandidateBraced(a.output.GetOr(""));
    BracedOutcome(a, loads);
  }

  // ---------------------------------------------------------------------------
  // _synthesize_fallback_forecast

  const SummaryPrefix: string := "Analysis based on available data:\n"
  const LimitedQualitative: string := "Limited qualitative data available"
  const FixedOutlook: string := "Based on current trends and management commentary"
  const FixedRisks: seq<string> := ["Market volatility", "Economic conditions"]
  const FixedOpportunities: seq<string> := ["Growth initiatives", "Market expansion"]

  /**
   * _synthesize_fallback_forecast: the summary embeds at most 200 characters of the
   * financial output, the assessment at most 500 of the qualitative one, and the
   * rest is fixed. The market output is read but not used.
   */
  function SynthesizeFallbackForecast(results: Dict<string>): (r: Forecast)
    ensures var fin := Get(results, "financial_data", "");
            var k := |r.summary| - |SummaryPrefix| - 3;
            && k == Min(200, |fin|)
            && r.summary == SummaryPrefix + fin[..k] + "..."
    ensures r.trends == ExtractTrends(Get(results, "financial_data", ""))
    ensures var qual := Get(results, "qualitative_analysis", "");
            && (qual == "" ==> r.qualitative == LimitedQualitative)
            && (qual != "" ==> |r.qualitative| == Min(500, |qual|) && r.qualitative == qual[..|r.qualitative|])
    ensures r.outlook == FixedOutlook && r.risks == FixedRisks && r.opportunities == FixedOpportunities
    ensures r.confidence == "medium"
  {
    var financial := Get(results, "financial_data", "");
    var qualitative := Get(results, "qualitative_analysis", "");
    var market := Get(results, "market_data", "");
    Forecast(SummaryPrefix + SliceTo(financial, 200) + "...",
             ExtractTrends(financial),
             if qualitative != "" then SliceTo(qualitative, 500) else LimitedQualitative,
             FixedOutlook, FixedRisks, FixedOpportunities, "medium")
  }

  /** Whatever the market tool returned, the synthesized forecast is the same. */
  lemma {:induction false} FallbackIgnoresMarket(results: Dict<string>, market: string)
    ensures SynthesizeFallbackForecast(Set(results, "market_data", market)) == SynthesizeFallbackForecast(results)
  {
    GetSet(results, "market_data", market, "financial_data", "");
    GetSet(results, "market_data", market, "qualitative_analysis", "");
  }

  // ---------------------------------------------------------------------------
  // _fallback_direct_execution and _run_agent_forecast

  /** What each tool's `run` returns for an input. */
  datatype Tools = Tools(financial: string -> string, qualitative: string -> string, market: string -> string)

  /** The financial tool's input: f"{company_url},{quarters}". */
  function FinancialInput(url: string, quarters: int): string {
    url + "," + IntToString(quarters)
  }

  const QualitativeInput: string := "comprehensive overall analysis"

  /** The results dict the fallback fills, key by key; the market entry only when asked for. */
  function ToolResults(url: string, symbol: string, quarters: int, includeMarket: bool, tools: Tools): (r: Dict<string>)
    ensures Keys(r) == ["financial_data", "qualitative_analysis"] + (if includeMarket then ["market_data"] else [])
  {
    var results := [("financial_data", tools.financial(FinancialInput(url, quarters))),
                    ("qualitative_analysis", tools.qualitative(QualitativeInput))];
    if includeMarket then results + [("market_data", tools.market(symbol))] else results
  }

  /** _fallback_direct_execution: the tools catch their own errors, so it always succeeds. */
  function FallbackDirectExecution(url: string, symbol: string, quarters: int, includeMarket: bool, tools: Tools): (r: ForecastResult)
    ensures r.FallbackDirect? && r.forecast.confidence == "medium"
    ensures r.forecast.trends == ExtractTrends(tools.financial(FinancialInput(url, quarters)))
  {
    FallbackDirect(SynthesizeFallbackForecast(ToolResults(url, symbol, quarters, includeMarket, tools)))
  }

  /** Running the market tool or not makes no difference to the fallback forecast. */
  lemma FallbackMarketIrrelevant(url: string, symbol: string, quarters: int, tools: Tools)
    ensures FallbackDirectExecution(url, symbol, quarters, true, tools) == FallbackDirectExecution(url, symbol, quarters, false, tools)
  {
    var without := ToolResults(url, symbol, quarters, false, tools);
    var with := ToolResults(url, symbol, quarters, true, tools);
    assert with == Set(without, "market_data", tools.market(symbol)) by {
      SetAppends(without, "market_data", tools.market(symbol));
    }
    FallbackIgnoresMarket(without, tools.market(symbol));
  }

  /**
   * The fallback's inputs reach the tools as the tools expect: the financial tool
   * parses back the caller's stripped URL and quarter count (a URL without a comma),
   * and the qualitative tool takes the comprehensive path.
   */
  lemma FallbackInputsUnderstood(url: string, quarters: int)
    requires ',' !in url
    ensures FinancialExtractor.ParseRunInput(FinancialInput(url, quarters)) == Returned((Strip(url), quarters))
    ensures QualitativeAnalysis.WantsComprehensive(QualitativeInput)
  {
    FinancialExtractor.RunInputRoundTrip(url, quarters);
    ComprehensiveInput();
  }

  lemma ComprehensiveInput()
    ensures QualitativeAnalysis.WantsComprehensive(QualitativeInput)
  {
    var low := Lower(QualitativeInput);
    forall i | 0 <= i < 13 ensures low[i] == "comprehensive"[i] {
      assert QualitativeInput[i] == "comprehensive"[i];
    }
    assert low[0..13] == "comprehensive";
    assert OccursAt(low, "comprehensive", 0);
  }

  /**
   * _run_agent_forecast: the parsed agent output, or the direct fallback when
   * building or invoking the agent raised.
   */
  function RunAgentForecast(url: string, symbol: string, quarters: int, includeMarket: bool,
                            agent: Outcome<AgentResult>, loads: string -> Outcome<Json>, tools: Tools): (r: ForecastResult)
    ensures r.FallbackDirect? <==> agent.Raised?
    ensures agent.Raised? ==> r == FallbackDirectExecution(url, symbol, quarters, includeMarket, tools)
  {
    match agent
    case Raised(_) => FallbackDirectExecution(url, symbol, quarters, includeMarket, tools)
    case Returned(a) => ParseAgentOutput(a, loads)
  }

  // ---------------------------------------------------------------------------
  // prepare_data and generate_forecast

  /** The statuses prepare_data reports. */
  datatype Preparation = NoPdfs | Downloaded(files: seq<string>)

  /** The links scrape_screener_pdfs finds on the documents page. */
  function ScrapedLinks(page: Outcome<seq<seq<Scraper.Anchor>>>): seq<(string, string)> {
    if page.Raised? then [] else Scraper.PdfEntries(Scraper.FirstNonEmpty(page.value))
  }

  /** The links prepare_data hands to download_pdfs: the first min(quarters * 3, n) scraped ones. */
  function PreparedLinks(page: Outcome<seq<seq<Scraper.Anchor>>>, quarters: int): seq<(string, string)> {
    var links := ScrapedLinks(page);
    SliceTo(links, Min(quarters * 3, |links|))
  }

  /** The download folder after prepare_data. */
  function PreparedFolder(files: map<string, PdfDoc>, page: Outcome<seq<seq<Scraper.Anchor>>>, quarters: int,
                          get: string -> Option<Response>): map<string, PdfDoc> {
    if ScrapedLinks(page) == [] then files else PdfDownloader.AfterLinks(files, PreparedLinks(page, quarters), get)
  }

  /**
   * prepare_data: a warning when no PDF link is found; otherwise the download of at
   * most min(quarters * 3, number of links) of them, in link order.
   */
  method PrepareData(folder: Folder, page: Outcome<seq<seq<Scraper.Anchor>>>, quarters: int,
                     get: string -> Option<Response>) returns (r: Preparation)
    modifies folder
    ensures r.NoPdfs? <==> ScrapedLinks(page) == []
    ensures r.NoPdfs? ==> unchanged(folder)
    ensures r.Downloaded? ==>
              var links := ScrapedLinks(page);
              && |r.files| == PdfDownloader.CountStored(SliceTo(links, Min(quarters * 3, |links|)), get)
              && |r.files| <= |links|
              && (quarters >= 0 ==> |r.files| <= quarters * 3)
    ensures r.Downloaded? ==> r.files == PdfDownloader.Reports(old(folder.files), PreparedLinks(page, quarters), get)
    ensures folder.files == PreparedFolder(old(folder.files), page, quarters, get)
  {
    var pdfLinks := Scraper.ScrapeScreenerPdfs(page);
    if pdfLinks == [] {
      return NoPdfs;
    }
    var maxPdfs := Min(quarters * 3, |pdfLinks|);
    var downloaded := PdfDownloader.DownloadPdfs(folder, pdfLinks, maxPdfs, get);
    r := Downloaded(downloaded);
  }

  /**
   * generate_forecast: the PDFs are prepared (their count is not used further),
   * the symbol is read from the URL, and the agent forecast is run for it.
   */
  method GenerateForecast(folder: Folder, url: string, page: Outcome<seq<seq<Scraper.Anchor>>>, quarters: int,
                          includeMarket: bool, get: string -> Option<Response>,
                          agent: Outcome<AgentResult>, loads: string -> Outcome<Json>, tools: Tools)
    returns (r: ForecastResult)
    modifies folder
    ensures r == RunAgentForecast(url, Scraper.ExtractCompanySymbol(url), quarters, includeMarket, agent, loads, tools)
    ensures folder.files == PreparedFolder(old(folder.files), page, quarters, get)
  {
    var prep := PrepareData(folder, page, quarters, get);
    var symbol := Scraper.ExtractCompanySymbol(url);
    r := RunAgentForecast(url, symbol, quarters, includeMarket, agent, loads, tools);
  }
}
