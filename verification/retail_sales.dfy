/** The Hong Kong monthly retail sales page: the statistics department's `dataSet` records
    for one outlet type are cut down to the monthly volume-index rows, their `YYYYMM`
    periods become `YYYY-MM-01` dates, the rows are sorted by date, the figure column is
    renamed after the series, a lag-12 year-on-year column is added and the date becomes
    the index. The request and the plots are not part of this model. */
module RetailSales {
  import opened Wrappers
  import opened Sequences
  import opened Text
  import opened Frames

  /** One record of the `dataSet` list: the fields the page reads, which every record is
      taken to carry. */
  datatype Record = Record(freq: string, outletTypeDesc: string, svDesc: string, period: string, figure: Cell)

  /* ---------------- row filters ---------------- */

  /** `~df['freq'].str.contains('Y')`: not a yearly figure. */
  function NotYearly(): Record -> bool {
    (r: Record) => !Contains(r.freq, "Y")
  }

  /** `~df['OUTLET_TYPEDesc'].str.contains('Total')`: not a total over outlet types. */
  function NotTotal(): Record -> bool {
    (r: Record) => !Contains(r.outletTypeDesc, "Total")
  }

  /** `df['svDesc'].str.contains('Index')`: an index rather than a value. */
  function IsIndex(): Record -> bool {
    (r: Record) => Contains(r.svDesc, "Index")
  }

  /** What the three filters ask of a row, taken together. */
  predicate Kept(r: Record) {
    !Contains(r.freq, "Y") && !Contains(r.outletTypeDesc, "Total") && Contains(r.svDesc, "Index")
  }

  function KeptTest(): Record -> bool {
    (r: Record) => Kept(r)
  }

  /** The three row selections, one after the other. */
  function KeepRows(dataSet: seq<Record>): seq<Record> {
    Filter(Filter(Filter(dataSet, NotYearly()), NotTotal()), IsIndex())
  }

  /** The three selections keep exactly the rows that pass all three tests, in their
      order: selecting from two parts is selecting from each. */
  lemma KeepRowsRule(a: seq<Record>, b: seq<Record>)
    ensures KeepRows(a) == Filter(a, KeptTest())
    ensures forall r :: r in KeepRows(a) <==> r in a && Kept(r)
    ensures KeepRows(a + b) == KeepRows(a) + KeepRows(b)
  {
    var first := (r: Record) => !Contains(r.freq, "Y") && !Contains(r.outletTypeDesc, "Total");
    forall s: seq<Record> ensures KeepRows(s) == Filter(s, KeptTest()) {
      FilterFilter(s, NotYearly(), NotTotal(), first);
      FilterFilter(s, first, IsIndex(), KeptTest());
    }
    FilterAppend(a, b, KeptTest());
  }

  /* ---------------- periods ---------------- */

  /** A period `pd.to_datetime(..., format='%Y%m')` reads as a year and a month. */
  predicate IsPeriod(p: string) {
    |p| == 6 && AllDigits(p) && 1 <= DigitsValue(p[4..]) <= 12
  }

  function Year(p: string): nat
    requires |p| == 6 && AllDigits(p)
  {
    DigitsValue(p[..4])
  }

  function Month(p: string): nat
    requires |p| == 6 && AllDigits(p)
  {
    DigitsValue(p[4..])
  }

  /** The first day of the month lies within the range of a pandas `Timestamp`
      (1677-09-21 to 2262-04-11). */
  predicate InTimestampRange(p: string)
    requires |p| == 6 && AllDigits(p)
  {
    && (Year(p) > 1677 || (Year(p) == 1677 && Month(p) >= 10))
    && (Year(p) < 2262 || (Year(p) == 2262 && Month(p) <= 4))
  }

  /** `YYYYMM` written as `YYYY-MM-01`. */
  function Format(p: string): string
    requires |p| == 6
  {
    p[..4] + "-" + p[4..] + "-01"
  }

  /** `.dt.strftime('%Y-%m-%d')` after `pd.to_datetime(period, format='%Y%m')`; a period that
      does not parse, or lies outside the `Timestamp` range, is a `ValueError`. */
  function FormatPeriod(p: string): Result<string, PyError> {
    if IsPeriod(p) && InTimestampRange(p) then Ok(Format(p)) else Err(ValueError)
  }

  /** A date back in `YYYYMM` form. */
  function Unformat(f: string): string
    requires |f| == 10
  {
    f[..4] + f[5..7]
  }

  /** A date the page can produce. */
  predicate IsDate(f: string) {
    && |f| == 10 && f[4] == '-' && f[7..] == "-01"
    && IsPeriod(Unformat(f)) && InTimestampRange(Unformat(f))
  }

  /** Formatting and unformatting are inverse: a period that formats gives a date that
      unformats to it, and every such date is the format of its own period. */
  lemma FormatPeriodRoundTrip(p: string, f: string)
    ensures FormatPeriod(p) == Ok(f) ==> IsDate(f) && Unformat(f) == p
    ensures IsDate(f) ==> FormatPeriod(Unformat(f)) == Ok(f)
  {
    if FormatPeriod(p) == Ok(f) {
      assert f[..4] == p[..4] && f[5..7] == p[4..] && p == p[..4] + p[4..];
      assert f[7..] == "-01";
    }
    if IsDate(f) {
      var p' := Unformat(f);
      assert p'[..4] == f[..4] && p'[4..] == f[5..7];
      assert f == f[..4] + [f[4]] + f[5..7] + f[7..];
    }
  }

  /** Two dates the page can produce, the first not later than the second. */
  predicate DateNotLater(f: string, g: string) {
    IsDate(f) && IsDate(g) && NotLater(Unformat(f), Unformat(g))
  }

  /** Year and month order: not later than. */
  predicate NotLater(p: string, q: string)
    requires |p| == 6 && AllDigits(p) && |q| == 6 && AllDigits(q)
  {
    Year(p) < Year(q) || (Year(p) == Year(q) && Month(p) <= Month(q))
  }

  /** For digit strings of one length, strict string order is strict numeric order. */
  lemma DigitsLess(a: string, b: string)
    requires AllDigits(a) && AllDigits(b) && |a| == |b|
    ensures (LexLe(a, b) && a != b) <==> DigitsValue(a) < DigitsValue(b)
  {
    LexLeDigits(a, b);
    LexLeDigits(b, a);
    if a != b && DigitsValue(a) == DigitsValue(b) {
      LexLeAntisymmetric(a, b);
    }
  }

  /** Sorting the dates as strings sorts them by year and month: string order on
      `YYYY-MM-01` is chronological order. */
  lemma DateOrder(p: string, q: string)
    requires |p| == 6 && AllDigits(p) && |q| == 6 && AllDigits(q)
    ensures LexLe(Format(p), Format(q)) <==> NotLater(p, q)
  {
    var yp, mp, yq, mq := p[..4], p[4..], q[..4], q[4..];
    var tp, tq := "-" + (mp + "-01"), "-" + (mq + "-01");
    assert Format(p) == yp + tp && Format(q) == yq + tq;
    LexLeConcat(yp, tp, yq, tq);
    LexLeConcat("-", mp + "-01", "-", mq + "-01");
    LexLeConcat(mp, "-01", mq, "-01");
    LexLeTotal("-01", "-01");
    assert AllDigits(yp) && AllDigits(yq) && AllDigits(mp) && AllDigits(mq);
    DigitsEqual(yp, yq);
    DigitsLess(yp, yq);
    DigitsEqual(mp, mq);
    DigitsLess(mp, mq);
  }

  /** For digit strings of one length, equal values mean equal strings. */
  lemma DigitsEqual(a: string, b: string)
    requires AllDigits(a) && AllDigits(b) && |a| == |b|
    ensures a == b <==> DigitsValue(a) == DigitsValue(b)
  {
    LexLeTotal(a, b);
    DigitsLess(a, b);
    DigitsLess(b, a);
  }

  /* ---------------- the table ---------------- */

  /** A kept row once its period is a date. */
  datatype Dated = Dated(date: string, figure: Cell)

  /** The whole `period` column through `pd.to_datetime(..., format='%Y%m')`: one bad period
      fails the column. */
  function FormatPeriods(rows: seq<Record>): (r: Result<seq<Dated>, PyError>)
    ensures r.Ok? <==> forall k :: 0 <= k < |rows| ==> FormatPeriod(rows[k].period).Ok?
    ensures r.Err? ==> r.error == ValueError
    ensures r.Ok? ==> |r.value| == |rows|
    ensures r.Ok? ==> forall k :: 0 <= k < |rows| ==> r.value[k] == Dated(FormatPeriod(rows[k].period).value, rows[k].figure)
  {
    if forall k :: 0 <= k < |rows| ==> FormatPeriod(rows[k].period).Ok? then
      Ok(seq(|rows|, k requires 0 <= k < |rows| && FormatPeriod(rows[k].period).Ok? =>
        Dated(FormatPeriod(rows[k].period).value, rows[k].figure)))
    else Err(ValueError)
  }

  predicate ByDate(a: Dated, b: Dated) {
    LexLe(a.date, b.date)
  }

  lemma ByDateIsTotalPreorder()
    ensures IsTotalPreorder(ByDate)
  {
    forall a: Dated, b: Dated ensures ByDate(a, b) || ByDate(b, a) {
      LexLeTotal(a.date, b.date);
    }
    forall a: Dated, b: Dated, c: Dated | ByDate(a, b) && ByDate(b, c) ensures ByDate(a, c) {
      LexLeTransitive(a.date, b.date, c.date);
    }
  }

  /** `sort_values(by='period')`. */
  function SortByDate(rows: seq<Dated>): (r: seq<Dated>)
    ensures SortedBy(r, ByDate) && multiset(r) == multiset(rows) && |r| == |rows|
  {
    ByDateIsTotalPreorder();
    SortBy(rows, ByDate)
  }

  /** `f'{series}_volume_index'`, the new name of `figure`. */
  function VolumeColumn(series: string): string {
    series + "_volume_index"
  }

  /** `f'{series}_volume_index_yoy'`. */
  function YearOnYearColumn(series: string): string {
    series + "_volume_index_yoy"
  }

  function DateCells(rows: seq<Dated>): (r: seq<Cell>)
    ensures |r| == |rows| && forall i :: 0 <= i < |rows| ==> r[i] == Text(rows[i].date)
  {
    seq(|rows|, i requires 0 <= i < |rows| => Text(rows[i].date))
  }

  function Figures(rows: seq<Dated>): (r: seq<Cell>)
    ensures |r| == |rows| && forall i :: 0 <= i < |rows| ==> r[i] == rows[i].figure
  {
    seq(|rows|, i requires 0 <= i < |rows| => rows[i].figure)
  }

  /** What `fetch_data(series)` returns for the records of `response_data['dataSet']`: an
      empty list has no `freq` column (`KeyError`), a bad period fails the date parse
      (`ValueError`), a text figure with a present figure twelve rows away in date order
      fails `pct_change` (`TypeError`). */
  function RetailTable(series: string, dataSet: seq<Record>): Result<Table, PyError> {
    if dataSet == [] then Err(KeyError)
    else
      match FormatPeriods(KeepRows(dataSet))
      case Err(e) => Err(e)
      case Ok(dated) =>
        var sorted := SortByDate(dated);
        if TextClash(Figures(sorted)) then Err(TypeError)
        else
          Ok(Table(DateCells(sorted),
                   map[VolumeColumn(series) := Figures(sorted), YearOnYearColumn(series) := YearOnYear(Figures(sorted))]))
  }

  /** The table's rows as dates and figures. */
  function TableRows(t: Table, series: string): (r: seq<Dated>)
    requires WellFormed(t) && VolumeColumn(series) in t.columns
    requires forall i :: 0 <= i < |t.index| ==> t.index[i].Text?
    ensures |r| == |t.index|
  {
    seq(|t.index|, i requires 0 <= i < |t.index| => Dated(t.index[i].text, t.columns[VolumeColumn(series)][i]))
  }

  /** The two column names differ. */
  lemma ColumnsDistinct(series: string)
    ensures VolumeColumn(series) != YearOnYearColumn(series)
    ensures VolumeColumn(series) != "period" && YearOnYearColumn(series) != "period"
  {
    var v, y := VolumeColumn(series), YearOnYearColumn(series);
    assert |y| == |v| + 4;
    assert v[|v| - 1] == 'x' && y[|y| - 1] == 'y';
  }

  /** The page's table, when it has one, holds the kept rows with their periods as dates,
      rearranged and nothing else: the dates are in chronological order, each a date the
      page can produce, the figures sit in the series' volume column, and the other
      column is the lag-12 change of that one. */
  lemma RetailTableRule(series: string, dataSet: seq<Record>, t: Table)
    requires RetailTable(series, dataSet) == Ok(t)
    ensures WellFormed(t)
    ensures t.columns.Keys == {VolumeColumn(series), YearOnYearColumn(series)}
    ensures |t.index| == |KeepRows(dataSet)|
    ensures forall i :: 0 <= i < |t.index| ==> t.index[i].Text? && IsDate(t.index[i].text)
    ensures multiset(TableRows(t, series)) == multiset(FormatPeriods(KeepRows(dataSet)).value)
    ensures forall i, j :: 0 <= i < j < |t.index| ==> DateNotLater(t.index[i].text, t.index[j].text)
    ensures t.columns[YearOnYearColumn(series)] == YearOnYear(t.columns[VolumeColumn(series)])
  {
    var rows := KeepRows(dataSet);
    var dated := FormatPeriods(rows).value;
    RetailTableOfSorted(series, dataSet);
    TableOfSorted(series, rows, dated, SortByDate(dated), t);
  }

  lemma TableOfSorted(series: string, rows: seq<Record>, dated: seq<Dated>, sorted: seq<Dated>, t: Table)
    requires FormatPeriods(rows) == Ok(dated)
    requires SortedBy(sorted, ByDate) && multiset(sorted) == multiset(dated) && |sorted| == |dated|
    requires t == Table(DateCells(sorted), map[VolumeColumn(series) := Figures(sorted),
                                               YearOnYearColumn(series) := YearOnYear(Figures(sorted))])
    ensures WellFormed(t)
    ensures t.columns.Keys == {VolumeColumn(series), YearOnYearColumn(series)}
    ensures |t.index| == |rows|
    ensures forall i :: 0 <= i < |t.index| ==> t.index[i].Text? && IsDate(t.index[i].text)
    ensures multiset(TableRows(t, series)) == multiset(dated)
    ensures forall i, j :: 0 <= i < j < |t.index| ==> DateNotLater(t.index[i].text, t.index[j].text)
    ensures t.columns[YearOnYearColumn(series)] == YearOnYear(t.columns[VolumeColumn(series)])
  {
    ColumnsDistinct(series);
    assert TableRows(t, series) == sorted;
    DatedAreDates(rows, dated);
    SortedAreDates(dated, sorted);
    SortedDatesChronological(sorted);
  }

  /** Every formatted period is a date. */
  lemma DatedAreDates(rows: seq<Record>, dated: seq<Dated>)
    requires FormatPeriods(rows) == Ok(dated)
    ensures forall k :: 0 <= k < |dated| ==> IsDate(dated[k].date)
  {
    forall k | 0 <= k < |dated| ensures IsDate(dated[k].date) {
      FormatPeriodRoundTrip(rows[k].period, dated[k].date);
    }
  }

  lemma SortedAreDates(dated: seq<Dated>, sorted: seq<Dated>)
    requires multiset(sorted) == multiset(dated)
    requires forall k :: 0 <= k < |dated| ==> IsDate(dated[k].date)
    ensures forall i :: 0 <= i < |sorted| ==> IsDate(sorted[i].date)
  {
    forall i | 0 <= i < |sorted| ensures IsDate(sorted[i].date) {
      assert sorted[i] in multiset(dated);
    }
  }

  /** Dates in string order are in chronological order. */
  lemma SortedDatesChronological(sorted: seq<Dated>)
    requires SortedBy(sorted, ByDate)
    requires forall i :: 0 <= i < |sorted| ==> IsDate(sorted[i].date)
    ensures forall i, j :: 0 <= i < j < |sorted| ==> DateNotLater(sorted[i].date, sorted[j].date)
  {
    forall i, j | 0 <= i < j < |sorted| ensures DateNotLater(sorted[i].date, sorted[j].date)
    {
      var f, g := sorted[i].date, sorted[j].date;
      assert ByDate(sorted[i], sorted[j]);
      FormatPeriodRoundTrip(Unformat(f), f);
      FormatPeriodRoundTrip(Unformat(g), g);
      DateOrder(Unformat(f), Unformat(g));
    }
  }

  /** The errors, for records that carry every field: `KeyError` exactly for an empty
      `dataSet`; otherwise `ValueError` exactly when some kept row's period does not
      format, and failing that `TypeError` exactly when `pct_change` refuses the figures in
      date order. Only a text figure can cause that, and twelve kept rows or fewer never
      do. */
  lemma RetailTableErrors(series: string, dataSet: seq<Record>)
    ensures RetailTable(series, dataSet) == Err(KeyError) <==> dataSet == []
    ensures dataSet != [] ==>
      (RetailTable(series, dataSet) == Err(ValueError) <==>
        exists k :: 0 <= k < |KeepRows(dataSet)| && FormatPeriod(KeepRows(dataSet)[k].period).Err?)
    ensures dataSet != [] && FormatPeriods(KeepRows(dataSet)).Ok? ==>
      (RetailTable(series, dataSet) == Err(TypeError) <==>
        TextClash(Figures(SortByDate(FormatPeriods(KeepRows(dataSet)).value))))
    ensures RetailTable(series, dataSet) == Err(TypeError) ==>
      exists k :: 0 <= k < |KeepRows(dataSet)| && KeepRows(dataSet)[k].figure.Text?
    ensures dataSet != [] && |KeepRows(dataSet)| <= Lag ==> RetailTable(series, dataSet) != Err(TypeError)
  {
    var rows := KeepRows(dataSet);
    if dataSet != [] && FormatPeriods(rows).Ok? {
      RetailTableOfSorted(series, dataSet);
      var dated := FormatPeriods(rows).value;
      var figures := Figures(SortByDate(dated));
      FiguresText(rows, dated, SortByDate(dated));
      if TextClash(figures) {
        TextClashHasText(figures);
      }
      if |rows| <= Lag {
        ShortColumnNoClash(figures);
      }
    }
  }

  /** The sorted rows have a text figure exactly when some kept row has one. */
  lemma FiguresText(rows: seq<Record>, dated: seq<Dated>, sorted: seq<Dated>)
    requires FormatPeriods(rows) == Ok(dated) && multiset(sorted) == multiset(dated)
    ensures HasText(Figures(sorted)) <==> exists k :: 0 <= k < |rows| && rows[k].figure.Text?
  {
    if HasText(Figures(sorted)) {
      var i :| 0 <= i < |sorted| && Figures(sorted)[i].Text?;
      assert sorted[i] in multiset(dated);
      var k :| 0 <= k < |dated| && dated[k] == sorted[i];
      assert rows[k].figure.Text?;
    }
    if exists k :: 0 <= k < |rows| && rows[k].figure.Text? {
      var k :| 0 <= k < |rows| && rows[k].figure.Text?;
      assert dated[k] in multiset(sorted);
      var i :| 0 <= i < |sorted| && sorted[i] == dated[k];
      assert Figures(sorted)[i].Text?;
    }
  }

  /** `fetch_data(series)` on the records of the reply: the rows are selected, dated and
      sorted, the frame is built, the year-on-year column is added to it in place, and
      `period` is moved into the index in place. */
  method FetchRetailData(series: string, dataSet: seq<Record>) returns (r: Result<Frame, PyError>)
    ensures r.Err? <==> RetailTable(series, dataSet).Err?
    ensures r.Err? ==> r.error == RetailTable(series, dataSet).error
    ensures r.Ok? ==> fresh(r.value) && r.value.Valid() && r.value.Contents() == RetailTable(series, dataSet).value
  {
    if dataSet == [] {
      return Err(KeyError);
    }
    var dated := FormatPeriods(KeepRows(dataSet));
    if dated.Err? {
      return Err(dated.error);
    }
    var sorted := SortByDate(dated.value);
    var volume, yoy := VolumeColumn(series), YearOnYearColumn(series);
    RetailTableOfSorted(series, dataSet);
    ColumnsDistinct(series);
    var positions := seq(|sorted|, i requires 0 <= i < |sorted| => Number(i as real));
    var df := new Frame(Table(positions, map["period" := DateCells(sorted), volume := Figures(sorted)]));
    var added := df.AddYearOnYear(volume, yoy);
    if added.Err? {
      return Err(added.error);
    }
    var indexed := df.SetIndex("period");
    MoveToIndex(DateCells(sorted), Figures(sorted), volume, yoy);
    r := Ok(df);
  }

  /** The table once the sorted rows are known. */
  lemma RetailTableOfSorted(series: string, dataSet: seq<Record>)
    requires dataSet != [] && FormatPeriods(KeepRows(dataSet)).Ok?
    ensures var sorted := SortByDate(FormatPeriods(KeepRows(dataSet)).value);
      RetailTable(series, dataSet) ==
        if TextClash(Figures(sorted)) then Err(TypeError)
        else Ok(Table(DateCells(sorted), map[VolumeColumn(series) := Figures(sorted),
                                             YearOnYearColumn(series) := YearOnYear(Figures(sorted))]))
  {
  }

  /** Adding the change column and then moving `period` into the index leaves the two
      series columns. */
  lemma MoveToIndex(dates: seq<Cell>, figures: seq<Cell>, volume: string, yoy: string)
    requires volume != yoy && volume != "period" && yoy != "period"
    ensures map["period" := dates, volume := figures][yoy := YearOnYear(figures)] - {"period"}
      == map[volume := figures, yoy := YearOnYear(figures)]
  {
    var m := map["period" := dates, volume := figures][yoy := YearOnYear(figures)] - {"period"};
    assert m.Keys == {volume, yoy};
  }

  /* ---------------- series ---------------- */

  /** The outlet types offered in the selectbox, in its order. */
  const SeriesOptions: seq<string> := [
    "2", "8", "9", "12", "18", "30", "32", "35", "49", "3", "4", "5", "6", "7", "13", "14", "19",
    "23", "51", "36", "37", "38", "39", "40"]

  /** `series_dict`: the description of each outlet type. */
  const SeriesDict: map<string, string> := map[
    "2" := "Food, drink, tobacco (ex super)",
    "8" := "Supermarkets",
    "9" := "Fuels",
    "12" := "Clothing, footwear and others",
    "18" := "Consumer durable goods",
    "30" := "Department stores",
    "32" := "Jewellery, watches and clocks, and others",
    "35" := "Other consumer goods",
    "49" := "Supermarkets and supermarket sections of department stores",
    "3" := "Fish, livestock and poultry, fresh or frozen",
    "4" := "Fruits and vegetables, fresh",
    "5" := "Bread, pastry, confectionery and biscuits",
    "6" := "Other food not elsewhere classified",
    "7" := "Alcoholic drinks and tobacco",
    "13" := "Wearing apparel",
    "14" := "Footwear, allied products and other clothing accessories",
    "19" := "Motor vehicles and parts",
    "23" := "Furniture and fixtures",
    "36" := "Books, newspapers, stationery and gifts",
    "37" := "Chinese drugs and herbs",
    "38" := "Optical shops",
    "39" := "Medicines and cosmetics",
    "40" := "Other consumer goods not elsewhere",
    "51" := "Electrical goods and other consumer durable goods not elsewhere"]

  /** `series_dict[series]` in `plot_data`. */
  function Description(series: string): (r: Result<string, PyError>)
    ensures r.Ok? <==> series in SeriesDict
  {
    if series in SeriesDict then Ok(SeriesDict[series]) else Err(KeyError)
  }

  /** Every outlet type the selectbox offers has a description, so the lookup in
      `plot_data` never fails; and every described type is offered. */
  lemma SeriesCoverage(series: string)
    ensures series in SeriesOptions ==> Description(series).Ok?
    ensures SeriesDict.Keys == set s | s in SeriesOptions
  {
  }
}
