/** The two "Stock Analysis Dashboard" pages: several stocks measured against a benchmark,
    the benchmark first in the summary and the stocks after it by CAGR. One page reads the
    stock symbols from a text box and also shows annual returns; the other reads them from
    a CSV file chosen in the working directory. Downloads, the CSV reader and the
    volatility/Sharpe statistics are parameters. */
module StockDashboard {
  import opened Wrappers
  import opened Sequences
  import opened Text
  import opened Prices

  /* ---------------- inputs ---------------- */

  /** `[stock.strip() for stock in stocks_input.split(',')] if stocks_input else []`. */
  function ParseSymbols(input: string): (r: seq<string>)
    ensures r == [] <==> input == []
  {
    if input == [] then [] else StripEach(Split(input, [',']))
  }

  /** A piece without a comma keeps none after stripping. */
  lemma StripKeepsCommaFree(piece: string)
    requires !Contains(piece, [','])
    ensures ',' !in Strip(piece)
  {
    forall m | 0 <= m < |piece| ensures piece[m] != ',' {
      OccursAtChar(piece, ',', m);
    }
    var i, j := StripIsSlice(piece);
    var r := Strip(piece);
    forall k | 0 <= k < |r| ensures r[k] != ',' {
      assert r[k] == piece[i..j][k] == piece[i + k];
    }
  }

  /** A non-empty input gives one symbol per comma-separated piece (one more than the
      commas), each without commas and without surrounding white space. */
  lemma ParseSymbolsRule(input: string)
    requires input != []
    ensures |ParseSymbols(input)| == CountChar(input, ',') + 1
    ensures forall i :: 0 <= i < |ParseSymbols(input)| ==>
      ',' !in ParseSymbols(input)[i] && Strip(ParseSymbols(input)[i]) == ParseSymbols(input)[i]
  {
    var pieces := Split(input, [',']);
    SplitCharCount(input, ',');
    forall i | 0 <= i < |pieces|
      ensures ',' !in ParseSymbols(input)[i] && Strip(ParseSymbols(input)[i]) == ParseSymbols(input)[i]
    {
      StripKeepsCommaFree(pieces[i]);
      StripIdempotent(pieces[i]);
    }
  }

  /** `custom_index if custom_index else index`: a custom benchmark symbol, when one is
      typed, replaces the one picked from the list. */
  function ChooseBenchmark(selected: string, custom: string): (r: string)
    ensures custom != [] ==> r == custom
    ensures custom == [] ==> r == selected
  {
    if custom != [] then custom else selected
  }

  /** `[f for f in os.listdir() if f.endswith('.csv')]`. */
  function CsvFiles(listing: seq<string>): seq<string> {
    Filter(listing, (f: string) => EndsWith(f, ".csv"))
  }

  /** `st.selectbox`: `None` for an empty list, otherwise one of the options. The widget
      starts on the first option and never returns nothing from a non-empty list; `pick`
      is the position the user moved it to, taken round the list. */
  function SelectBox(options: seq<string>, pick: nat): (r: Option<string>)
    ensures r.Some? <==> options != []
    ensures r.Some? ==> r.value in options
    ensures pick < |options| ==> r == Some(options[pick])
  {
    if options == [] then None else Some(options[pick % |options|])
  }

  /** Only a CSV file of the directory listing can be chosen; a file is chosen exactly when
      the listing has a CSV file. */
  lemma ChosenFileIsCsv(listing: seq<string>, pick: nat)
    ensures SelectBox(CsvFiles(listing), pick).Some? ==>
      SelectBox(CsvFiles(listing), pick).value in listing && EndsWith(SelectBox(CsvFiles(listing), pick).value, ".csv")
    ensures SelectBox(CsvFiles(listing), pick).Some? <==> exists f :: f in listing && EndsWith(f, ".csv")
  {
    if f :| f in listing && EndsWith(f, ".csv") {
      assert f in CsvFiles(listing);
    }
    if CsvFiles(listing) != [] {
      assert CsvFiles(listing)[0] in CsvFiles(listing);
    }
  }

  /* ---------------- metrics ---------------- */

  /** `yf.download(symbol, start=..., end=...)` for a start day and the page's end date; it
      gives an empty history rather than failing. */
  type Download = (string, int) -> seq<Bar>

  /** The dictionary `fetch_and_calculate` returns; non-finite numbers are `None`. */
  datatype Metrics = Metrics(
    symbol: string,
    firstDay: int, firstPrice: Option<real>,
    lastDay: int, lastPrice: Option<real>,
    days: int,
    cagr: Option<real>, gain: Option<real>,
    volatility: Option<real>, sharpe: Option<real>)

  /** The overall gain of a price pair: not a number when a price is NaN or the first is
      0. */
  function PriceGain(first: Option<real>, last: Option<real>): Option<real> {
    if first.Some? && last.Some? && first.value != 0.0 then Some(OverallGain(first.value, last.value)) else None
  }

  /** `fetch_and_calculate(symbol, start, end)`: `None` for an empty download, and
      `365.25 / days` divides by zero when the first and last rows share a date. */
  function FetchAndCalculate(symbol: string, start: int, download: Download, stats: Statistics, pow: Power): Result<Option<Metrics>, PyError> {
    var data := download(symbol, start);
    if data == [] then Ok(None)
    else
      var first := data[0];
      var last := data[|data| - 1];
      var days := last.day - first.day;
      if days == 0 then Err(ZeroDivisionError)
      else
        var (volatility, sharpe) := stats(Closes(data));
        Ok(Some(Metrics(symbol, first.day, first.adjClose, last.day, last.adjClose, days,
                        PriceCagr(first.adjClose, last.adjClose, days, pow),
                        PriceGain(first.adjClose, last.adjClose),
                        volatility, sharpe)))
  }

  /** A symbol is skipped exactly when its download is empty and fails exactly when its
      first and last rows share a date; otherwise its metrics are labelled with the symbol
      asked for, span its first to its last row, and the gain has the sign of the price
      change from a positive first price. */
  lemma FetchAndCalculateRule(symbol: string, start: int, download: Download, stats: Statistics, pow: Power)
    ensures FetchAndCalculate(symbol, start, download, stats, pow) == Ok(None) <==> download(symbol, start) == []
    ensures FetchAndCalculate(symbol, start, download, stats, pow).Err? <==>
      download(symbol, start) != [] && download(symbol, start)[0].day == download(symbol, start)[|download(symbol, start)| - 1].day
    ensures FetchAndCalculate(symbol, start, download, stats, pow).Err? ==>
      FetchAndCalculate(symbol, start, download, stats, pow).error == ZeroDivisionError
    ensures match FetchAndCalculate(symbol, start, download, stats, pow)
      case Ok(Some(m)) =>
        var data := download(symbol, start);
        && m.symbol == symbol
        && m.firstDay == data[0].day && m.lastDay == data[|data| - 1].day
        && m.days == m.lastDay - m.firstDay != 0
        && (m.firstPrice.Some? && m.lastPrice.Some? && m.firstPrice.value > 0.0 ==>
              m.gain.Some? && (m.gain.value > 0.0 <==> m.lastPrice.value > m.firstPrice.value))
      case _ => true
  {
    var data := download(symbol, start);
    if data != [] && data[0].adjClose.Some? && data[|data| - 1].adjClose.Some? && data[0].adjClose.value > 0.0 {
      OverallGainSign(data[0].adjClose.value, data[|data| - 1].adjClose.value);
    }
  }

  /** The stocks' results in stock order, each fetched from `start`; the first failure in
      that order ends the list comprehension. */
  function FetchAll(stocks: seq<string>, start: int, download: Download, stats: Statistics, pow: Power): Result<seq<Option<Metrics>>, PyError>
    decreases |stocks|
  {
    if stocks == [] then Ok([])
    else
      match FetchAll(stocks[..|stocks| - 1], start, download, stats, pow)
      case Err(e) => Err(e)
      case Ok(ms) =>
        match FetchAndCalculate(stocks[|stocks| - 1], start, download, stats, pow)
        case Err(e) => Err(e)
        case Ok(m) => Ok(ms + [m])
  }

  /** `FetchAll` succeeds with one result per stock exactly when every stock succeeds, and
      otherwise reports the failure of the first stock that fails. */
  lemma {:induction false} FetchAllRule(stocks: seq<string>, start: int, download: Download, stats: Statistics, pow: Power)
    ensures FetchAll(stocks, start, download, stats, pow).Ok? <==>
      forall i :: 0 <= i < |stocks| ==> FetchAndCalculate(stocks[i], start, download, stats, pow).Ok?
    ensures FetchAll(stocks, start, download, stats, pow).Ok? ==>
      var ms := FetchAll(stocks, start, download, stats, pow).value;
      |ms| == |stocks| && forall i :: 0 <= i < |stocks| ==> Ok(ms[i]) == FetchAndCalculate(stocks[i], start, download, stats, pow)
    ensures FetchAll(stocks, start, download, stats, pow).Err? ==>
      exists i :: 0 <= i < |stocks| && FetchAndCalculate(stocks[i], start, download, stats, pow) == Err(FetchAll(stocks, start, download, stats, pow).error)
        && forall j :: 0 <= j < i ==> FetchAndCalculate(stocks[j], start, download, stats, pow).Ok?
    decreases |stocks|
  {
    if stocks != [] {
      var init := stocks[..|stocks| - 1];
      FetchAllRule(init, start, download, stats, pow);
      assert forall i :: 0 <= i < |init| ==> init[i] == stocks[i];
      var r := FetchAll(stocks, start, download, stats, pow);
      if r.Err? {
        var e := r.error;
        if FetchAll(init, start, download, stats, pow).Err? {
          var i :| 0 <= i < |init| && FetchAndCalculate(init[i], start, download, stats, pow) == Err(e)
            && forall j :: 0 <= j < i ==> FetchAndCalculate(init[j], start, download, stats, pow).Ok?;
          assert FetchAndCalculate(stocks[i], start, download, stats, pow) == Err(r.error);
        } else {
          var i := |stocks| - 1;
          assert FetchAndCalculate(stocks[i], start, download, stats, pow) == Err(r.error);
        }
      }
    }
  }

  /** Line `stock_metrics = [...]`: no stocks give no metrics; otherwise a missing
      benchmark cannot supply its first trading day; otherwise the stocks fetched from the
      benchmark's first trading day, skipped ones dropped. */
  function CollectStockMetrics(index: Option<Metrics>, stocks: seq<string>, download: Download, stats: Statistics, pow: Power): Result<seq<Metrics>, PyError> {
    if stocks == [] then Ok([])
    else if index.None? then Err(TypeError)
    else
      match FetchAll(stocks, index.value.firstDay, download, stats, pow)
      case Err(e) => Err(e)
      case Ok(ms) => Ok(Somes(ms))
  }

  /** The collected metrics are exactly the metrics of the stocks that were not skipped,
      each fetched from the benchmark's first trading day; a failing stock fails them
      all. */
  lemma CollectStockMetricsRule(index: Option<Metrics>, stocks: seq<string>, download: Download, stats: Statistics, pow: Power)
    ensures stocks != [] && index.None? ==> CollectStockMetrics(index, stocks, download, stats, pow) == Err(TypeError)
    ensures stocks != [] && index.Some? ==>
      (CollectStockMetrics(index, stocks, download, stats, pow).Ok? <==>
        forall i :: 0 <= i < |stocks| ==> FetchAndCalculate(stocks[i], index.value.firstDay, download, stats, pow).Ok?)
    ensures CollectStockMetrics(index, stocks, download, stats, pow).Ok? ==>
      var ms := CollectStockMetrics(index, stocks, download, stats, pow).value;
      && |ms| <= |stocks|
      && forall m :: m in ms <==>
           index.Some? && exists i :: 0 <= i < |stocks| && FetchAndCalculate(stocks[i], index.value.firstDay, download, stats, pow) == Ok(Some(m))
  {
    if stocks != [] && index.Some? {
      var start := index.value.firstDay;
      FetchAllRule(stocks, start, download, stats, pow);
      var r := FetchAll(stocks, start, download, stats, pow);
      if r.Ok? {
        var ms := r.value;
        forall m ensures m in Somes(ms) <==> exists i :: 0 <= i < |stocks| && FetchAndCalculate(stocks[i], start, download, stats, pow) == Ok(Some(m)) {
          if m in Somes(ms) {
            assert Some(m) in ms;
            var i :| 0 <= i < |ms| && ms[i] == Some(m);
            assert FetchAndCalculate(stocks[i], start, download, stats, pow) == Ok(Some(m));
          }
          if exists i :: 0 <= i < |stocks| && FetchAndCalculate(stocks[i], start, download, stats, pow) == Ok(Some(m)) {
            var i :| 0 <= i < |stocks| && FetchAndCalculate(stocks[i], start, download, stats, pow) == Ok(Some(m));
            assert ms[i] in ms;
          }
        }
      }
    }
  }

  /* ---------------- the summary table ---------------- */

  /** `sort_values(by='CAGR', ascending=False)`: higher CAGR first, NaN last. */
  predicate ByCagrDescending(a: Metrics, b: Metrics) {
    match (a.cagr, b.cagr)
    case (Some(x), Some(y)) => x >= y
    case (Some(_), None) => true
    case (None, Some(_)) => false
    case (None, None) => true
  }

  lemma ByCagrDescendingIsTotalPreorder()
    ensures IsTotalPreorder(ByCagrDescending)
  {
  }

  /** `results['Symbol'] == index` as a row test. */
  function IsBenchmark(index: string): Metrics -> bool {
    (m: Metrics) => m.symbol == index
  }

  /** `results['Symbol'] != index` as a row test. */
  function IsNotBenchmark(index: string): Metrics -> bool {
    (m: Metrics) => m.symbol != index
  }

  /** Line `results = pd.concat([...])`: the benchmark's rows in their order, then the
      other rows by CAGR. */
  function OrderResults(rows: seq<Metrics>, index: string): seq<Metrics> {
    ByCagrDescendingIsTotalPreorder();
    Filter(rows, IsBenchmark(index)) + SortBy(Filter(rows, IsNotBenchmark(index)), ByCagrDescending)
  }

  /** The summary reorders the rows without losing or adding any: the rows for the
      benchmark symbol come first, in their original order, and every other row follows,
      highest CAGR first with NaN last. */
  lemma OrderResultsRule(rows: seq<Metrics>, index: string)
    ensures multiset(OrderResults(rows, index)) == multiset(rows)
    ensures var k := |Filter(rows, IsBenchmark(index))|;
      && OrderResults(rows, index)[..k] == Filter(rows, IsBenchmark(index))
      && (forall i :: 0 <= i < k ==> OrderResults(rows, index)[i].symbol == index)
      && (forall i :: k <= i < |OrderResults(rows, index)| ==> OrderResults(rows, index)[i].symbol != index)
      && SortedBy(OrderResults(rows, index)[k..], ByCagrDescending)
  {
    FilterComplement(rows, IsBenchmark(index), IsNotBenchmark(index));
    ByCagrDescendingIsTotalPreorder();
    var front := Filter(rows, IsBenchmark(index));
    var back := SortBy(Filter(rows, IsNotBenchmark(index)), ByCagrDescending);
    var all := OrderResults(rows, index);
    assert all == front + back;
    assert all[..|front|] == front;
    assert all[|front|..] == back;
    forall i | 0 <= i < |front| ensures all[i].symbol == index {
      assert front[i] in front;
    }
    forall i | |front| <= i < |all| ensures all[i].symbol != index {
      var x := back[i - |front|];
      assert all[i] == x;
      assert x in multiset(back);
      assert x in multiset(Filter(rows, IsNotBenchmark(index)));
      assert IsNotBenchmark(index)(x);
    }
  }

  /** `pd.DataFrame([index_metrics] + stock_metrics)` reordered: without benchmark metrics
      the frame has no `Symbol` column. */
  function ResultsTable(index: Option<Metrics>, stockMetrics: seq<Metrics>, indexSymbol: string): (r: Result<seq<Metrics>, PyError>)
    ensures r.Ok? <==> index.Some?
    ensures r.Ok? ==> multiset(r.value) == multiset([index.value] + stockMetrics)
  {
    match index
    case None => Err(KeyError)
    case Some(im) => OrderResultsRule([im] + stockMetrics, indexSymbol); Ok(OrderResults([im] + stockMetrics, indexSymbol))
  }

  /* ---------------- the pages ---------------- */

  datatype StockScreen =
    | PromptForSymbols
    | PromptForFile
    | Crashed(error: PyError)
    | Summary(results: seq<Metrics>, annual: Option<(map<int, Option<real>>, map<int, Option<real>>)>)

  /** The summary both pages compute once the benchmark and the stock list are known. */
  function SummaryOf(indexSymbol: string, stocks: seq<string>, start: int, download: Download, stats: Statistics, pow: Power): Result<seq<Metrics>, PyError> {
    match FetchAndCalculate(indexSymbol, start, download, stats, pow)
    case Err(e) => Err(e)
    case Ok(im) =>
      match CollectStockMetrics(im, stocks, download, stats, pow)
      case Err(e) => Err(e)
      case Ok(sm) => ResultsTable(im, sm, indexSymbol)
  }

  /** A benchmark with no data breaks the page: reading its first trading day fails when
      there are stocks, and the summary has no `Symbol` column when there are none. */
  lemma MissingBenchmark(indexSymbol: string, stocks: seq<string>, start: int, download: Download, stats: Statistics, pow: Power)
    requires download(indexSymbol, start) == []
    ensures SummaryOf(indexSymbol, stocks, start, download, stats, pow) == if stocks == [] then Err(KeyError) else Err(TypeError)
  {
  }

  /** A summary holds the benchmark's metrics and the metrics of every stock that was not
      skipped, fetched from the benchmark's first trading day, and nothing else. */
  lemma SummaryContents(indexSymbol: string, stocks: seq<string>, start: int, download: Download, stats: Statistics, pow: Power, m: Metrics)
    ensures SummaryOf(indexSymbol, stocks, start, download, stats, pow).Ok? ==>
      && FetchAndCalculate(indexSymbol, start, download, stats, pow).Ok?
      && FetchAndCalculate(indexSymbol, start, download, stats, pow).value.Some?
    ensures match FetchAndCalculate(indexSymbol, start, download, stats, pow)
      case Ok(Some(im)) =>
        SummaryOf(indexSymbol, stocks, start, download, stats, pow).Ok? ==>
          (m in SummaryOf(indexSymbol, stocks, start, download, stats, pow).value <==>
            m == im || exists i :: 0 <= i < |stocks| && FetchAndCalculate(stocks[i], im.firstDay, download, stats, pow) == Ok(Some(m)))
      case _ => true
  {
    var fi := FetchAndCalculate(indexSymbol, start, download, stats, pow);
    if fi.Ok? && fi.value.Some? {
      var im := fi.value.value;
      CollectStockMetricsRule(fi.value, stocks, download, stats, pow);
      var c := CollectStockMetrics(fi.value, stocks, download, stats, pow);
      if c.Ok? {
        var rows := [im] + c.value;
        assert SummaryOf(indexSymbol, stocks, start, download, stats, pow) == Ok(OrderResults(rows, indexSymbol));
        OrderResultsRule(rows, indexSymbol);
        assert m in OrderResults(rows, indexSymbol) <==> m in multiset(rows);
        assert m in rows <==> m == im || m in c.value;
      }
    }
  }

  /** The text-box page: nothing is fetched until a symbol is typed; then the summary, and
      the first stock's and the benchmark's annual returns from `start`, each computed on
      its own downloaded frame. */
  method StockAnalysisPage(stocksInput: string, selectedIndex: string, customIndex: string, start: int,
                           download: Download, stats: Statistics, pow: Power) returns (screen: StockScreen)
    ensures ParseSymbols(stocksInput) == [] ==> screen == PromptForSymbols
    ensures ParseSymbols(stocksInput) != [] ==>
      var index := ChooseBenchmark(selectedIndex, customIndex);
      var summary := SummaryOf(index, ParseSymbols(stocksInput), start, download, stats, pow);
      && (summary.Err? ==> screen == Crashed(summary.error))
      && (summary.Ok? ==> screen == Summary(summary.value,
            Some((RawAnnualReturns(download(ParseSymbols(stocksInput)[0], start)), RawAnnualReturns(download(index, start))))))
  {
    var stocks := ParseSymbols(stocksInput);
    if stocks == [] {
      return PromptForSymbols;
    }
    var index := ChooseBenchmark(selectedIndex, customIndex);
    var summary := SummaryOf(index, stocks, start, download, stats, pow);
    if summary.Err? {
      return Crashed(summary.error);
    }
    var stockData := new PriceFrame(download(stocks[0], start));
    var benchmarkData := new PriceFrame(download(index, start));
    var stockReturns := CalculateAnnualReturnsInPlace(stockData);
    var benchmarkReturns := CalculateAnnualReturnsInPlace(benchmarkData);
    screen := Summary(summary.value, Some((stockReturns, benchmarkReturns)));
  }

  /** The CSV page: nothing is fetched until a CSV file is chosen; its `Symbol` column is
      then measured against the benchmark typed in the sidebar. */
  function SelectFilePage(listing: seq<string>, pick: nat, indexSymbol: string, readSymbols: string -> seq<string>,
                          start: int, download: Download, stats: Statistics, pow: Power): StockScreen {
    match SelectBox(CsvFiles(listing), pick)
    case None => PromptForFile
    case Some(file) =>
      match SummaryOf(indexSymbol, readSymbols(file), start, download, stats, pow)
      case Err(e) => Crashed(e)
      case Ok(results) => Summary(results, None)
  }

  /** The CSV page fetches nothing without a CSV file; with one, it shows the summary of
      the chosen CSV file's symbols, or the error that computing it raises. */
  lemma SelectFilePageRule(listing: seq<string>, pick: nat, indexSymbol: string, readSymbols: string -> seq<string>,
                           start: int, download: Download, stats: Statistics, pow: Power)
    ensures (forall f :: f in listing ==> !EndsWith(f, ".csv")) ==>
      SelectFilePage(listing, pick, indexSymbol, readSymbols, start, download, stats, pow) == PromptForFile
    ensures (exists f :: f in listing && EndsWith(f, ".csv")) ==>
      var file := SelectBox(CsvFiles(listing), pick).value;
      var summary := SummaryOf(indexSymbol, readSymbols(file), start, download, stats, pow);
      && file in listing && EndsWith(file, ".csv")
      && (summary.Ok? ==> SelectFilePage(listing, pick, indexSymbol, readSymbols, start, download, stats, pow) == Summary(summary.value, None))
      && (summary.Err? ==> SelectFilePage(listing, pick, indexSymbol, readSymbols, start, download, stats, pow) == Crashed(summary.error))
  {
    ChosenFileIsCsv(listing, pick);
  }
}
