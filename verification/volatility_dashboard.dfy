/** The single-stock "Stock Analysis Dashboard" with volatility and Sharpe ratio: a stock
    and a benchmark index, a two-row summary and a per-year table whose `Outcome` column
    marks the years the stock beat the index. The download and the statistics are
    parameters. */
module VolatilityDashboard {
  import opened Wrappers
  import opened Prices

  /** `yf.download(symbol, start, end)` for the page's dates; an unknown symbol gives an
      empty history. */
  type Download = string -> seq<Bar>

  /** The dictionary `fetch_and_calculate` returns; non-finite numbers are `None`. */
  datatype Metrics = Metrics(symbol: string, cagr: Option<real>, volatility: Option<real>, sharpe: Option<real>)

  /** `fetch_and_calculate`: `(None, None)` for an empty download (here `None`), the frame and
      its metrics otherwise; `365.25 / days` divides by zero when the first and last rows
      share a date. */
  function FetchAndCalculate(symbol: string, download: Download, stats: Statistics, pow: Power): Result<Option<(seq<Bar>, Metrics)>, PyError> {
    var data := download(symbol);
    if data == [] then Ok(None)
    else
      var (volatility, sharpe) := stats(Closes(data));
      var days := data[|data| - 1].day - data[0].day;
      if days == 0 then Err(ZeroDivisionError)
      else Ok(Some((data, Metrics(symbol, PriceCagr(data[0].adjClose, data[|data| - 1].adjClose, days, pow), volatility, sharpe))))
  }

  /** A symbol yields nothing exactly when its download is empty and fails exactly when its
      first and last rows share a date; otherwise it yields the downloaded frame itself and
      metrics labelled with the symbol asked for, whose CAGR compares the last price with
      the first over the frame's span. */
  lemma FetchAndCalculateRule(symbol: string, download: Download, stats: Statistics, pow: Power)
    ensures FetchAndCalculate(symbol, download, stats, pow) == Ok(None) <==> download(symbol) == []
    ensures FetchAndCalculate(symbol, download, stats, pow).Err? <==>
      download(symbol) != [] && download(symbol)[0].day == download(symbol)[|download(symbol)| - 1].day
    ensures match FetchAndCalculate(symbol, download, stats, pow)
      case Ok(Some((data, m))) =>
        && data == download(symbol)
        && m.symbol == symbol
        && data[0].day != data[|data| - 1].day
        && (data[0].adjClose.Some? && data[|data| - 1].adjClose.Some? && data[0].adjClose.value != 0.0 ==>
              m.cagr == Cagr(data[0].adjClose.value, data[|data| - 1].adjClose.value, data[|data| - 1].day - data[0].day, pow))
        && (data[0].adjClose.None? || data[|data| - 1].adjClose.None? ==> m.cagr.None?)
      case _ => true
  {
  }

  /** The per-year table: both sides' returns and the verdict. */
  datatype AnnualTable = AnnualTable(stock: map<int, Option<real>>, benchmark: map<int, Option<real>>, outcome: map<int, Verdict>)

  datatype Screen =
    | Crashed(error: PyError)
    | NoSummary
    | Summary(results: seq<Metrics>, annual: AnnualTable)

  /** The page: the stock is fetched before the index; with both present the summary lists
      the index first and the table holds both histories' annual returns. Each downloaded
      frame gets its `Year` column on the way, as `CalculateAnnualReturnsInPlace` states;
      the frames are local to the page. */
  method DashboardPage(stockSymbol: string, index: string, download: Download, stats: Statistics, pow: Power) returns (screen: Screen)
    ensures var s := FetchAndCalculate(stockSymbol, download, stats, pow);
      var i := FetchAndCalculate(index, download, stats, pow);
      && (s.Err? ==> screen == Crashed(s.error))
      && (s.Ok? && i.Err? ==> screen == Crashed(i.error))
      && (s.Ok? && i.Ok? ==> (screen == NoSummary <==> s.value.None? || i.value.None?))
      && (s.Ok? && i.Ok? && s.value.Some? && i.value.Some? ==>
            var sr := RawAnnualReturns(download(stockSymbol));
            var ir := RawAnnualReturns(download(index));
            screen == Summary([i.value.value.1, s.value.value.1], AnnualTable(sr, ir, OutcomeColumn(sr, ir))))
  {
    var s := FetchAndCalculate(stockSymbol, download, stats, pow);
    if s.Err? {
      return Crashed(s.error);
    }
    var i := FetchAndCalculate(index, download, stats, pow);
    if i.Err? {
      return Crashed(i.error);
    }
    if s.value.None? || i.value.None? {
      return NoSummary;
    }
    var (stockBars, stockMetrics) := s.value.value;
    var (indexBars, indexMetrics) := i.value.value;
    FetchAndCalculateRule(stockSymbol, download, stats, pow);
    FetchAndCalculateRule(index, download, stats, pow);
    var results := [indexMetrics, stockMetrics];
    var stockData := new PriceFrame(stockBars);
    var indexData := new PriceFrame(indexBars);
    var stockReturns := CalculateAnnualReturnsInPlace(stockData);
    var indexReturns := CalculateAnnualReturnsInPlace(indexData);
    screen := Summary(results, AnnualTable(stockReturns, indexReturns, OutcomeColumn(stockReturns, indexReturns)));
  }

  /** In the page's table a year is Outperform exactly when both histories have rows in
      that year, both years' returns are numbers, and the stock's is strictly higher. */
  lemma AnnualOutcome(stockBars: seq<Bar>, indexBars: seq<Bar>, y: int)
    ensures var sr := RawAnnualReturns(stockBars);
      var ir := RawAnnualReturns(indexBars);
      && (y in OutcomeColumn(sr, ir) <==>
            (exists j :: 0 <= j < |stockBars| && stockBars[j].year == y) || (exists j :: 0 <= j < |indexBars| && indexBars[j].year == y))
      && (y in OutcomeColumn(sr, ir) ==>
            (OutcomeColumn(sr, ir)[y] == Outperform <==>
              y in sr && y in ir && sr[y].Some? && ir[y].Some? && sr[y].value > ir[y].value))
  {
    var sr := RawAnnualReturns(stockBars);
    var ir := RawAnnualReturns(indexBars);
    RawAnnualReturnsExact(stockBars, y);
    RawAnnualReturnsExact(indexBars, y);
    OutcomeRule(sr, ir, y);
  }
}
