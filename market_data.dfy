/**
 * app/tools/market_data.py: MarketDataTool, which asks the NSE quote library for a
 * symbol's current price, maps the answer to a status, and formats it as text for
 * the agent. The library call and the clock are inputs.
 */
module MarketData {
  import opened Wrappers
  import opened PyStr
  import opened PyDict
  import opened JsonValue

  /**
   * What `Nse().get_current_price(symbol)` does: the library is not installed
   * (ImportError), the call raises another exception, or it answers with a dict
   * (an empty dict stands for a falsy answer such as None).
   */
  datatype NseCall = NotInstalled | Failed(error: string) | Answered(data: Dict<Json>)

  /** The dict get_live_price returns, one constructor per "status" value. */
  datatype Quote =
    | Success(symbol: string, price: Json, timestamp: string, additional: Dict<Json>)
    | NoData(symbol: string, error: string)
    | Fallback(symbol: string, message: string, timestamp: string)
    | Error(symbol: string, error: string)

  const NoPriceData: string := "No price data available"
  const FallbackMessage: string := "Live market data unavailable. " + "Install nse-live-stocks for real-time prices."
  const SuccessPrefix: string := "Live Market Data for "
  const FailurePrefix: string := "Unable to fetch market data for "

  predicate HasKey(d: Dict<Json>, k: string) {
    k in Keys(d)
  }

  /**
   * get_live_price: a quote is a success exactly when the library answered with a
   * dict holding "current_value"; a missing library gives the fallback, any other
   * exception an error carrying its message.
   */
  function GetLivePrice(symbol: string, nse: NseCall, now: string): (r: Quote)
    ensures r.symbol == symbol
    ensures r.Success? <==> nse.Answered? && HasKey(nse.data, "current_value")
    ensures r.Success? ==> r.price == Get(nse.data, "current_value", JNull) && r.additional == nse.data
    ensures r.NoData? <==> nse.Answered? && !HasKey(nse.data, "current_value")
    ensures r.Fallback? <==> nse.NotInstalled?
    ensures r.Error? <==> nse.Failed?
    ensures r.Error? ==> r.error == nse.error
    ensures r.NoData? ==> r.error == NoPriceData
    ensures r.Fallback? ==> r.message == FallbackMessage && r.timestamp == now
  {
    match nse
    case NotInstalled => Fallback(symbol, FallbackMessage, now)
    case Failed(e) => Error(symbol, e)
    case Answered(data) =>
      if data != [] && HasKey(data, "current_value") then
        Success(symbol, Get(data, "current_value", JNull), now, data)
      else NoData(symbol, NoPriceData)
  }

  function ChangeLine(additional: Dict<Json>, show: Json -> string): string {
    if HasKey(additional, "change") then "  Change: " + show(Get(additional, "change", JNull)) + "\n" else ""
  }

  function PChangeLine(additional: Dict<Json>, show: Json -> string): string {
    if HasKey(additional, "pChange") then "  % Change: " + show(Get(additional, "pChange", JNull)) + "%\n" else ""
  }

  /**
   * The currency mark before the price, as the source file spells it: the three
   * characters U+00E2 U+201A U+00B9, which is the UTF-8 encoding of the rupee sign
   * read back as Windows-1252 text.
   */
  const PriceMark: string := "\U{00E2}\U{201A}\U{00B9}"

  /** The three lines every successful quote prints. */
  function Head(symbol: string, price: Json, ts: string, show: Json -> string): string {
    SuccessPrefix + symbol + ":\n"
    + "  Current Price: " + PriceMark + show(price) + "\n"
    + "  Timestamp: " + ts + "\n"
  }

  /**
   * The text get_market_context builds for a quote; `show` is Python's str() of a
   * JSON value inside an f-string.
   */
  function Context(symbol: string, q: Quote, show: Json -> string): string {
    match q
    case Success(_, price, ts, additional) =>
      if additional != [] then Head(symbol, price, ts, show) + ChangeLine(additional, show) + PChangeLine(additional, show)
      else Head(symbol, price, ts, show)
    case Fallback(_, message, _) => message
    case NoData(_, e) => FailurePrefix + symbol + ": " + e
    case Error(_, e) => FailurePrefix + symbol + ": " + e
  }

  /** get_market_context: the output grows line by line, as the source's `+=` does. */
  method GetMarketContext(symbol: string, nse: NseCall, now: string, show: Json -> string) returns (output: string)
    ensures output == Context(symbol, GetLivePrice(symbol, nse, now), show)
  {
    var data := GetLivePrice(symbol, nse, now);
    if data.Success? {
      output := Head(symbol, data.price, data.timestamp, show);
      var additional := data.additional;
      if additional != [] {
        output := output + ChangeLine(additional, show);
        output := output + PChangeLine(additional, show);
      }
    } else if data.Fallback? {
      output := data.message;
    } else {
      output := FailurePrefix + symbol + ": " + data.error;
    }
  }

  /** The text opens with the "Live Market Data for" header exactly when the quote succeeded. */
  lemma ContextHeaderExactly(symbol: string, nse: NseCall, now: string, show: Json -> string)
    ensures StartsWith(Context(symbol, GetLivePrice(symbol, nse, now), show), SuccessPrefix)
        <==> GetLivePrice(symbol, nse, now).Success?
  {
    var q := GetLivePrice(symbol, nse, now);
    var out := Context(symbol, q, show);
    if q.Success? {
      assert out[..|SuccessPrefix|] == SuccessPrefix;
    } else if q.Fallback? {
      assert out == FallbackMessage;
      assert "Live market data unavailable. "[5] == 'm' && SuccessPrefix[5] == 'M';
      assert |out| >= |SuccessPrefix| ==> out[..|SuccessPrefix|][5] == out[5] != SuccessPrefix[5];
    } else {
      assert |out| >= |SuccessPrefix| ==> out[..|SuccessPrefix|][0] == out[0] != SuccessPrefix[0];
    }
  }

  /**
   * A quote that is neither a success nor the fallback is reported as
   * "Unable to fetch market data for SYMBOL: MESSAGE", with the exception's own
   * message when the library raised.
   */
  lemma FailureNamesSymbolAndError(symbol: string, nse: NseCall, now: string, show: Json -> string)
    requires !nse.NotInstalled? && !(nse.Answered? && HasKey(nse.data, "current_value"))
    ensures var out := Context(symbol, GetLivePrice(symbol, nse, now), show);
            StartsWith(out, FailurePrefix + symbol + ": ")
            && EndsWith(out, if nse.Failed? then nse.error else NoPriceData)
  {
    var out := Context(symbol, GetLivePrice(symbol, nse, now), show);
    var e := if nse.Failed? then nse.error else NoPriceData;
    assert out == (FailurePrefix + symbol + ": ") + e;
    assert out[..|FailurePrefix + symbol + ": "|] == FailurePrefix + symbol + ": ";
    assert out[|out| - |e|..] == e;
  }

  /** A successful quote's text is its three head lines, then a line for each change key the library sent. */
  lemma SuccessExtras(symbol: string, nse: NseCall, now: string, show: Json -> string)
    requires nse.Answered? && HasKey(nse.data, "current_value")
    ensures var head := Head(symbol, Get(nse.data, "current_value", JNull), now, show);
            var out := Context(symbol, GetLivePrice(symbol, nse, now), show);
            && StartsWith(out, head)
            && (!HasKey(nse.data, "change") && !HasKey(nse.data, "pChange") ==> out == head)
            && (HasKey(nse.data, "change") ==> StartsWith(out[|head|..], "  Change: "))
            && (!HasKey(nse.data, "change") && HasKey(nse.data, "pChange") ==> StartsWith(out[|head|..], "  % Change: "))
  {
    var head := Head(symbol, Get(nse.data, "current_value", JNull), now, show);
    var change := ChangeLine(nse.data, show);
    var pchange := PChangeLine(nse.data, show);
    var q := GetLivePrice(symbol, nse, now);
    assert q == Success(symbol, Get(nse.data, "current_value", JNull), now, nse.data);
    assert nse.data != [];
    var out := Context(symbol, q, show);
    assert out == head + change + pchange;
    assert out[..|head|] == head;
    assert out[|head|..] == change + pchange;
    if HasKey(nse.data, "change") {
      assert (change + pchange)[..10] == change[..10] == "  Change: ";
    } else if HasKey(nse.data, "pChange") {
      assert change == "";
      assert (change + pchange)[..12] == pchange[..12] == "  % Change: ";
    }
  }

  /** The symbol `run` looks up: the input stripped and upper-cased. */
  function Normalise(input: string): string {
    Upper(Strip(input))
  }

  /** run: the market text for the normalised symbol. */
  method Run(input: string, nse: NseCall, now: string, show: Json -> string) returns (r: string)
    ensures r == Context(Normalise(input), GetLivePrice(Normalise(input), nse, now), show)
  {
    var symbol := Upper(Strip(input));
    r := GetMarketContext(symbol, nse, now, show);
  }

  /** Normalising a normalised symbol changes nothing, so `run` on its own symbol is stable. */
  lemma NormaliseIdempotent(input: string)
    ensures Normalise(Normalise(input)) == Normalise(input)
  {
    var s := Strip(input);
    var t := Upper(s);
    assert Strip(t) == t by {
      if |t| > 0 {
        assert t[0] == UpperChar(s[0]) && t[|t| - 1] == UpperChar(s[|s| - 1]);
        UpperCharNotSpace(s[0]);
        UpperCharNotSpace(s[|s| - 1]);
      }
      StripCharsNoop(t, Whitespace);
    }
    UpperIdempotent(s);
  }
}
