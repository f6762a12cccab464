/** The "Equity Performance" page: a stock against a benchmark over a date range, with
    CAGR, overall gain and a per-year Outperform/Underperform table. The download is a
    parameter (one call per symbol, for the page's date range). */
module EquityPerformance {
  import opened Wrappers
  import opened Text
  import opened Prices

  /** Why `fetch_data` gave up; each case shows its own error message. */
  datatype FetchError = EmptySymbol | NoData | TooFewRows | DownloadFailed(error: PyError)

  /** `yf.download(symbol, start, end)` for the page's dates. */
  type Download = string -> Result<seq<Bar>, PyError>

  function FetchData(symbol: string, download: Download): Result<seq<Bar>, FetchError> {
    if symbol == [] || Strip(symbol) == [] then Err(EmptySymbol)
    else
      match download(Strip(symbol))
      case Err(e) => Err(DownloadFailed(e))
      case Ok(bars) =>
        if bars == [] then Err(NoData)
        else if |bars| < 2 then Err(TooFewRows)
        else Ok(bars)
  }

  /** A blank symbol is refused before anything is downloaded; otherwise the symbol is
      downloaded without its surrounding white space, and a history is accepted exactly
      when the download succeeds with at least two rows. */
  lemma FetchDataRule(symbol: string, download: Download)
    ensures FetchData(symbol, download) == Err(EmptySymbol) <==> AllSpace(symbol)
    ensures !AllSpace(symbol) ==>
      (FetchData(symbol, download).Ok? <==> download(Strip(symbol)).Ok? && |download(Strip(symbol)).value| >= 2)
    ensures FetchData(symbol, download).Ok? ==> FetchData(symbol, download).value == download(Strip(symbol)).value
  {
    StripLeftEmpty(symbol);
    StripRightEmpty(StripLeft(symbol));
  }

  /** The two numbers `calculate_metrics` returns; the CAGR is `None` where the power is not
      a finite number. */
  datatype MetricPair = MetricPair(cagr: Option<real>, gain: real)

  function CalculateMetrics(data: Option<seq<Bar>>, pow: Power): Option<MetricPair> {
    if data.None? || data.value == [] then None
    else
      var bars := data.value;
      if |bars| < 2 then None
      else
        var first := bars[0].adjClose;
        var last := bars[|bars| - 1].adjClose;
        if first.None? || last.None? || first.value <= 0.0 then None
        else
          var days := bars[|bars| - 1].day - bars[0].day;
          if days <= 0 then None
          else Some(MetricPair(Cagr(first.value, last.value, days, pow), OverallGain(first.value, last.value)))
  }

  /** Metrics exist exactly for a history of at least two rows whose first and last prices
      are numbers, the first above 0, spanning a positive number of days; the gain then
      compares the last price with the first and the CAGR is taken over that span. */
  lemma MetricsDefined(bars: seq<Bar>, pow: Power)
    ensures CalculateMetrics(Some(bars), pow).Some? <==>
      && |bars| >= 2
      && bars[0].adjClose.Some? && bars[|bars| - 1].adjClose.Some?
      && bars[0].adjClose.value > 0.0
      && bars[|bars| - 1].day > bars[0].day
    ensures CalculateMetrics(Some(bars), pow).Some? ==>
      var m := CalculateMetrics(Some(bars), pow).value;
      var f := bars[0].adjClose.value;
      var l := bars[|bars| - 1].adjClose.value;
      && (m.gain > 0.0 <==> l > f)
      && (m.gain < 0.0 <==> l < f)
      && f * (1.0 + m.gain / 100.0) == l
      && m.cagr == Cagr(f, l, bars[|bars| - 1].day - bars[0].day, pow)
  {
    if CalculateMetrics(Some(bars), pow).Some? {
      var f := bars[0].adjClose.value;
      var l := bars[|bars| - 1].adjClose.value;
      OverallGainSign(f, l);
      OverallGainInverse(f, l);
    }
  }

  /** The per-year table, shown only when both sides have returns. */
  datatype AnnualTable = AnnualTable(stock: map<int, real>, benchmark: map<int, real>, outcome: map<int, Verdict>)

  datatype EquityScreen =
    | FetchFailed
    | MetricsFailed
    | Report(stock: MetricPair, benchmark: MetricPair, annual: Option<AnnualTable>)

  /** What the page shows for the two symbols typed in the sidebar. */
  function EquityPage(symbolInput: string, benchmarkInput: string, download: Download, pow: Power): EquityScreen {
    var stockData := FetchData(symbolInput, download);
    var benchmarkData := FetchData(benchmarkInput, download);
    if stockData.Err? || benchmarkData.Err? then FetchFailed
    else
      var sm := CalculateMetrics(Some(stockData.value), pow);
      var bm := CalculateMetrics(Some(benchmarkData.value), pow);
      if sm.None? || bm.None? then MetricsFailed
      else
        var sr := AnnualReturns(stockData.value);
        var br := AnnualReturns(benchmarkData.value);
        var annual := if sr != map[] && br != map[] then Some(AnnualTable(sr, br, OutcomeColumn(Lift(sr), Lift(br)))) else None;
        Report(sm.value, bm.value, annual)
  }

  /** The page reports exactly when both symbols fetch and both have metrics; its table, when
      shown, has a verdict for every year either side has a return for, and a year
      outperforms exactly when both sides have a return and the stock's is strictly
      higher. */
  lemma EquityPageOutcome(symbolInput: string, benchmarkInput: string, download: Download, pow: Power, y: int)
    ensures EquityPage(symbolInput, benchmarkInput, download, pow) != FetchFailed <==>
      FetchData(symbolInput, download).Ok? && FetchData(benchmarkInput, download).Ok?
    ensures FetchData(symbolInput, download).Ok? && FetchData(benchmarkInput, download).Ok? ==>
      (EquityPage(symbolInput, benchmarkInput, download, pow).Report? <==>
        && CalculateMetrics(Some(FetchData(symbolInput, download).value), pow).Some?
        && CalculateMetrics(Some(FetchData(benchmarkInput, download).value), pow).Some?)
    ensures EquityPage(symbolInput, benchmarkInput, download, pow).Report? ==>
      var s := FetchData(symbolInput, download).value;
      var b := FetchData(benchmarkInput, download).value;
      var page := EquityPage(symbolInput, benchmarkInput, download, pow);
      && Some(page.stock) == CalculateMetrics(Some(s), pow)
      && Some(page.benchmark) == CalculateMetrics(Some(b), pow)
      && (page.annual.Some? <==> AnnualReturns(s) != map[] && AnnualReturns(b) != map[])
      && (page.annual.Some? ==>
           var t := page.annual.value;
           && (y in t.outcome <==> y in AnnualReturns(s) || y in AnnualReturns(b))
           && (y in t.outcome ==>
                (t.outcome[y] == Outperform <==>
                  y in AnnualReturns(s) && y in AnnualReturns(b) && AnnualReturns(s)[y] > AnnualReturns(b)[y])))
  {
    var page := EquityPage(symbolInput, benchmarkInput, download, pow);
    if page.Report? && page.annual.Some? {
      var t := page.annual.value;
      var s := FetchData(symbolInput, download).value;
      var b := FetchData(benchmarkInput, download).value;
      OutcomeRule(Lift(AnnualReturns(s)), Lift(AnnualReturns(b)), y);
    }
  }
}
