/**
 * app/services/pipeline.py: the three tool wrappers handed to the agent, and
 * run_pipeline_sync, which keeps the agent's answer when it is JSON and otherwise
 * calls the tools itself and assembles a fixed-shape result.
 *
 * The agent, the LLM and the three services behind the wrappers are inputs; a
 * wrapper's json.dumps followed by the caller's json.loads is the identity on the
 * JSON values modelled here. A service may raise, and the qualitative one may
 * also never return (QualitativeTool.AsWrittenNeverAnalyses shows that the
 * qualitative_analysis it calls does not return once a transcript is kept); the
 * agent's run, which calls the same tools, may likewise never return.
 */
module Pipeline {
  import opened Wrappers
  import opened PyStr
  import opened PyDict
  import opened JsonValue

  // ---------------------------------------------------------------------------
  // Tool input parsing

  const Separator: string := "||"
  const DefaultQuarters: int := 2

  /**
   * "<company_url>||<quarters>": the URL is the stripped first field and the count
   * the second field read by int(); a missing field means two quarters, and a
   * field int() rejects makes the whole stripped input the URL.
   */
  function ParseToolInput(input: string): (r: (string, int))
    ensures r.0 == Strip(Split(input, Separator)[0]) || r == (Strip(input), DefaultQuarters)
    ensures r.1 != DefaultQuarters ==> var parts := Split(input, Separator);
                                       |parts| > 1 && ParseInt(parts[1]) == Some(r.1)
  {
    var parts := Split(input, Separator);
    if |parts| > 1 then
      match ParseInt(parts[1])
      case Some(q) => (Strip(parts[0]), q)
      case None => (Strip(input), DefaultQuarters)
    else (Strip(parts[0]), DefaultQuarters)
  }

  /** The input run_pipeline_sync builds for a URL and a quarter count parses back to them. */
  lemma ToolInputRoundTrip(url: string, q: int)
    requires '|' !in url
    ensures ParseToolInput(url + Separator + IntToString(q)) == (Strip(url), q)
  {
    var count := IntToString(q);
    assert '|' !in count by {
      if q >= 0 {
        assert AllDigits(NatToString(q));
      } else {
        assert AllDigits(NatToString(-q));
        assert count == "-" + NatToString(-q);
      }
    }
    SplitAtSep(url, Separator, count);
    SplitWithoutSep(count, Separator);
    ParseIntOfIntToString(q);
  }

  /** Without the separator the whole stripped input is the URL and two quarters are asked for. */
  lemma ToolInputWithoutSeparator(input: string)
    requires '|' !in input
    ensures ParseToolInput(input) == (Strip(input), DefaultQuarters)
  {
    SplitWithoutSep(input, Separator);
  }

  /** A count int() rejects falls back to the whole stripped input and two quarters. */
  lemma ToolInputBadCount(url: string, count: string)
    requires '|' !in url && '|' !in count && ParseInt(count).None?
    ensures ParseToolInput(url + Separator + count) == (Strip(url + Separator + count), DefaultQuarters)
  {
    SplitAtSep(url, Separator, count);
    SplitWithoutSep(count, Separator);
  }

  /** _market_tool_fn: the stripped input, or "TCS" when nothing is left. */
  function MarketSymbol(input: string): (r: string)
    ensures r != []
    ensures Strip(r) == r
    ensures Strip(input) != [] ==> r == Strip(input)
  {
    var s := Strip(input);
    if s == [] then
      StripVisible("TCS");
      "TCS"
    else
      StripCharsNoop(s, Whitespace);
      s
  }

  /**
   * The services behind the wrappers: the financial and qualitative ones take
   * (url, quarters). Each may raise; the qualitative one may also never return.
   */
  datatype Services = Services(financials: (string, int) -> Outcome<Json>,
                               qualitative: (string, int) -> Run<Outcome<Json>>,
                               livePrice: string -> Outcome<Json>)

  function FinancialToolFn(input: string, svc: Services): Outcome<Json> {
    var (u, q) := ParseToolInput(input);
    svc.financials(u, q)
  }

  function QualitativeToolFn(input: string, svc: Services): Run<Outcome<Json>> {
    var (u, q) := ParseToolInput(input);
    svc.qualitative(u, q)
  }

  function MarketToolFn(input: string, svc: Services): Outcome<Json> {
    svc.livePrice(MarketSymbol(input))
  }

  // ---------------------------------------------------------------------------
  // The deterministic fallback

  /**
   * The growth the fallback derives from `revs = fin_json.get("revenue", [])`:
   * (revs[0] - revs[1]) / abs(revs[1]) when revs is a list of at least two numbers
   * whose second is non-zero. Every other value makes the guarded block raise
   * (or skip), and the estimate stays "insufficient data".
   */
  function GrowthEstimate(revs: Json): (r: Option<real>)
    ensures r.Some? <==> revs.JList? && |revs.items| >= 2
                         && Number(revs.items[0]).Some? && Number(revs.items[1]).Some?
                         && Number(revs.items[1]).value != 0.0
  {
    match revs
    case JList(items) =>
      if |items| < 2 || Number(items[1]) == Some(0.0) then None
      else
        (match (Number(items[0]), Number(items[1]))
         case (Some(a), Some(b)) => Some((a - b) / Abs(b))
         case _ => None)
    case _ => None
  }

  function Abs(x: real): real { if x < 0.0 then -x else x }

  /** g is the growth from b to a relative to |b|. */
  predicate IsGrowth(a: real, b: real, g: real) {
    b != 0.0 && a == b + g * Abs(b)
  }

  /** The estimate is the relative growth: the latest value is recovered from it, and it is positive exactly when revenue rose. */
  lemma GrowthEstimateMeans(revs: Json)
    requires GrowthEstimate(revs).Some?
    ensures var a := Number(revs.items[0]).value;
            var b := Number(revs.items[1]).value;
            var g := GrowthEstimate(revs).value;
            IsGrowth(a, b, g) && (g > 0.0 <==> a > b) && (g == 0.0 <==> a == b)
  {
    var a := Number(revs.items[0]).value;
    var b := Number(revs.items[1]).value;
    var g := GrowthEstimate(revs).value;
    assert g == (a - b) / Abs(b);
    GrowthInverse(a, b, g);
  }

  lemma GrowthInverse(a: real, b: real, g: real)
    requires b != 0.0 && g == (a - b) / Abs(b)
    ensures IsGrowth(a, b, g) && (g > 0.0 <==> a > b) && (g == 0.0 <==> a == b)
  {
    assert Abs(b) > 0.0;
    assert g * Abs(b) == a - b;
  }

  /** The top-level keys of the fallback result, in order. */
  const ResultKeys: seq<string> := ["company", "quarters_analyzed", "financial_metrics", "qualitative_summary",
                                    "risks_and_opportunities", "market_price", "forecast"]

  /** The three keys of the fallback forecast. */
  const ForecastKeys: seq<string> := ["revenue_growth_estimate", "margin_outlook", "confidence"]

  const Insufficient: string := "insufficient data"

  /**
   * The fallback's forecast; `percent` is the `:.2%` format of the growth, whose
   * digits are floating point and outside this model.
   */
  function FallbackForecast(fin: Dict<Json>, percent: real -> string): (r: Json)
    ensures r.JObject? && Keys(r.fields) == ForecastKeys
  {
    var est := match GrowthEstimate(Get(fin, "revenue", JList([])))
               case None => Insufficient
               case Some(g) => percent(g);
    JObject([("revenue_growth_estimate", JStr(est)),
             ("margin_outlook", JStr("based on qualitative signals")),
             ("confidence", JStr("medium"))])
  }

  /**
   * The result the fallback assembles from the three tool outputs. `.get` on a
   * financial or qualitative output that is not an object raises AttributeError.
   */
  function FallbackResult(url: string, q: int, fin: Json, qual: Json, market: Json, percent: real -> string): (r: Outcome<Json>)
    ensures r.Returned? <==> fin.JObject? && qual.JObject?
    ensures r.Returned? ==> r.value.JObject? && Keys(r.value.fields) == ResultKeys
  {
    if !fin.JObject? || !qual.JObject? then Raised("AttributeError")
    else
      var risks := JObject([("risks", Get(qual.fields, "risks", JNull)),
                            ("opportunities", Get(qual.fields, "opportunities", JNull))]);
      Returned(JObject([("company", JStr(url)),
                        ("quarters_analyzed", JInt(q)),
                        ("financial_metrics", fin),
                        ("qualitative_summary", qual),
                        ("risks_and_opportunities", risks),
                        ("market_price", market),
                        ("forecast", FallbackForecast(fin.fields, percent))]))
  }

  /**
   * run_pipeline_sync: the agent's raw answer (an exception from agent.run
   * propagates), kept when json.loads accepts it, otherwise the fallback built from
   * direct calls of the three wrappers, made in the order financial, qualitative,
   * market; the first that raises or does not return decides the outcome. The
   * market wrapper is always asked for "TCS".
   */
  function RunPipelineSync(url: string, q: int, agentRun: Run<Outcome<string>>, loads: string -> Outcome<Json>,
                           svc: Services, percent: real -> string): (r: Run<Outcome<Json>>)
    ensures r.Finishes? && r.value.Returned? ==> agentRun.Finishes? && agentRun.value.Returned?
    ensures r.Finishes? && r.value.Returned? && agentRun.Finishes? && agentRun.value.Returned?
            && loads(agentRun.value.value).Raised?
            ==> r.value.value.JObject? && Keys(r.value.value.fields) == ResultKeys
    ensures r.Diverges? ==> agentRun.Diverges? || (agentRun.value.Returned? && loads(agentRun.value.value).Raised?)
  {
    match agentRun
    case Diverges => Diverges
    case Finishes(Raised(e)) => Finishes(Raised(e))
    case Finishes(Returned(raw)) =>
      match loads(raw)
      case Returned(j) => Finishes(Returned(j))
      case Raised(_) =>
        var input := url + Separator + IntToString(q);
        match FinancialToolFn(input, svc)
        case Raised(e) => Finishes(Raised(e))
        case Returned(fin) =>
          match QualitativeToolFn(input, svc)
          case Diverges => Diverges
          case Finishes(Raised(e)) => Finishes(Raised(e))
          case Finishes(Returned(qual)) =>
            match MarketToolFn("TCS", svc)
            case Raised(e) => Finishes(Raised(e))
            case Returned(market) => Finishes(FallbackResult(url, q, fin, qual, market, percent))
  }

  /** JSON from the agent is returned as it is; an agent that raises or does not return decides the outcome. */
  lemma AgentAnswerWins(url: string, q: int, agentRun: Run<Outcome<string>>, loads: string -> Outcome<Json>,
                        svc: Services, percent: real -> string)
    requires agentRun.Diverges? || agentRun.value.Raised? || loads(agentRun.value.value).Returned?
    ensures RunPipelineSync(url, q, agentRun, loads, svc, percent)
            == if agentRun.Diverges? then Diverges
               else if agentRun.value.Raised? then Finishes(Raised(agentRun.value.error))
               else Finishes(loads(agentRun.value.value))
  {
  }

  /**
   * When the agent's answer is not JSON, the services see the caller's stripped URL
   * and quarter count, the market price is looked up for "TCS", and, when all three
   * return objects, the result has the seven fixed keys.
   */
  lemma FallbackUsesCallerArguments(url: string, q: int, raw: string, loads: string -> Outcome<Json>,
                                    svc: Services, percent: real -> string, fin: Json, qual: Json, market: Json)
    requires '|' !in url && loads(raw).Raised?
    requires svc.financials(Strip(url), q) == Returned(fin) && svc.qualitative(Strip(url), q) == Finishes(Returned(qual))
    requires svc.livePrice("TCS") == Returned(market)
    requires fin.JObject? && qual.JObject?
    ensures var r := RunPipelineSync(url, q, Finishes(Returned(raw)), loads, svc, percent);
            && r.Finishes? && r.value.Returned? && r.value.value.JObject? && Keys(r.value.value.fields) == ResultKeys
            && r.value.value.fields[0].1 == JStr(url)
            && r.value.value.fields[1].1 == JInt(q)
            && r.value.value.fields[2].1 == fin
            && r.value.value.fields[3].1 == qual
            && r.value.value.fields[5].1 == market
  {
    FallbackInputs(url, q, svc);
    MarketAlwaysTcs(svc);
    assert RunPipelineSync(url, q, Finishes(Returned(raw)), loads, svc, percent) == Finishes(FallbackResult(url, q, fin, qual, market, percent));
    FallbackFields(url, q, fin, qual, market, percent);
  }

  /**
   * When the agent's answer is not JSON, a financial service that raises, a
   * qualitative service that raises or does not return, or a market lookup that
   * raises ends the run the same way, in that order of calls.
   */
  lemma FallbackServiceFailures(url: string, q: int, raw: string, loads: string -> Outcome<Json>,
                                svc: Services, percent: real -> string)
    requires '|' !in url && loads(raw).Raised?
    ensures var r := RunPipelineSync(url, q, Finishes(Returned(raw)), loads, svc, percent);
            var f := svc.financials(Strip(url), q);
            var ql := svc.qualitative(Strip(url), q);
            var m := svc.livePrice("TCS");
            && (f.Raised? ==> r == Finishes(Raised(f.error)))
            && (f.Returned? && ql.Diverges? ==> r.Diverges?)
            && (f.Returned? && ql.Finishes? && ql.value.Raised? ==> r == Finishes(Raised(ql.value.error)))
            && (f.Returned? && ql.Finishes? && ql.value.Returned? && m.Raised? ==> r == Finishes(Raised(m.error)))
            && (r.Diverges? <==> f.Returned? && ql.Diverges?)
  {
    FallbackInputs(url, q, svc);
    MarketAlwaysTcs(svc);
  }

  lemma FallbackInputs(url: string, q: int, svc: Services)
    requires '|' !in url
    ensures var input := url + Separator + IntToString(q);
            && FinancialToolFn(input, svc) == svc.financials(Strip(url), q)
            && QualitativeToolFn(input, svc) == svc.qualitative(Strip(url), q)
  {
    ToolInputRoundTrip(url, q);
  }

  /** The fallback's market call passes "TCS" through the wrapper unchanged. */
  lemma MarketAlwaysTcs(svc: Services)
    ensures MarketToolFn("TCS", svc) == svc.livePrice("TCS")
  {
    StripVisible("TCS");
  }

  lemma FallbackFields(url: string, q: int, fin: Json, qual: Json, market: Json, percent: real -> string)
    requires fin.JObject? && qual.JObject?
    ensures var r := FallbackResult(url, q, fin, qual, market, percent);
            && r.Returned? && r.value.JObject? && |r.value.fields| == 7
            && r.value.fields[0].1 == JStr(url)
            && r.value.fields[1].1 == JInt(q)
            && r.value.fields[2].1 == fin
            && r.value.fields[3].1 == qual
            && r.value.fields[5].1 == market
  {
  }

  /**
   * Risks and opportunities are copied from the qualitative output, null when it
   * lacks them; "copied" reads the entry stored under the key, which is the one
   * entry with that key when the keys are unique, as in a parsed JSON object.
   */
  lemma FallbackRisks(url: string, q: int, fin: Json, qual: Json, market: Json, percent: real -> string)
    requires fin.JObject? && qual.JObject?
    ensures var ro := FallbackResult(url, q, fin, qual, market, percent).value.fields[4].1;
            && ro.JObject? && Keys(ro.fields) == ["risks", "opportunities"]
            && ("risks" !in Keys(qual.fields) ==> ro.fields[0].1 == JNull)
            && ("opportunities" !in Keys(qual.fields) ==> ro.fields[1].1 == JNull)
            && (UniqueKeys(qual.fields) ==>
                  forall i :: 0 <= i < |qual.fields| ==>
                    && (qual.fields[i].0 == "risks" ==> ro.fields[0].1 == qual.fields[i].1)
                    && (qual.fields[i].0 == "opportunities" ==> ro.fields[1].1 == qual.fields[i].1))
  {
    var ro := FallbackResult(url, q, fin, qual, market, percent).value.fields[4].1;
    assert Keys(ro.fields) == ["risks", "opportunities"] by {
      assert Keys(ro.fields)[0] == "risks" && Keys(ro.fields)[1] == "opportunities";
    }
    if "risks" !in Keys(qual.fields) {
      GetAbsent(qual.fields, "risks", JNull);
    }
    if "opportunities" !in Keys(qual.fields) {
      GetAbsent(qual.fields, "opportunities", JNull);
    }
    if UniqueKeys(qual.fields) {
      forall i | 0 <= i < |qual.fields|
        ensures qual.fields[i].0 == "risks" ==> ro.fields[0].1 == qual.fields[i].1
        ensures qual.fields[i].0 == "opportunities" ==> ro.fields[1].1 == qual.fields[i].1
      {
        GetPresent(qual.fields, i, JNull);
      }
    }
  }
}
