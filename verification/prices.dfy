/** Daily price histories as the finance dashboards download them, and the calculations
    they share: overall gain, compound annual growth, per-year returns from each year's
    first and last price, and the Outperform/Underperform verdict. */
module Prices {
  import opened Wrappers
  import opened Sequences

  /** One trading day: the date as a day number, the calendar year of that date, and the
      `Adj Close` value (`None` where pandas holds NaN). */
  datatype Bar = Bar(day: int, year: int, adjClose: Option<real>)

  /** Floating-point `x ** y`, `None` when the result is not a finite number. */
  type Power = (real, real) -> Option<real>

  /** `(last - first) / first * 100`. */
  function OverallGain(first: real, last: real): real
    requires first != 0.0
  {
    (last - first) / first * 100.0
  }

  /** With a positive first price the gain has the sign of the price change. */
  lemma OverallGainSign(first: real, last: real)
    requires first > 0.0
    ensures OverallGain(first, last) > 0.0 <==> last > first
    ensures OverallGain(first, last) == 0.0 <==> last == first
    ensures OverallGain(first, last) < 0.0 <==> last < first
  {
    var q := (last - first) / first;
    assert q * first == last - first;
    if q > 0.0 {
      assert q * first > 0.0;
    } else if q < 0.0 {
      assert q * first < 0.0;
    }
  }

  /** The gain determines the last price: applying it to the first price gives it back. */
  lemma OverallGainInverse(first: real, last: real)
    requires first != 0.0
    ensures first * (1.0 + OverallGain(first, last) / 100.0) == last
  {
    var q := (last - first) / first;
    assert q * first == last - first;
    assert OverallGain(first, last) / 100.0 == q;
  }

  /** `((last / first) ** (365.25 / days) - 1) * 100`, with the power left abstract. */
  function Cagr(first: real, last: real, days: int, pow: Power): Option<real>
    requires first != 0.0 && days != 0
  {
    match pow(last / first, 365.25 / days as real)
    case None => None
    case Some(g) => Some((g - 1.0) * 100.0)
  }

  /** The CAGR of a price pair: not a number when a price is NaN or the first is 0. */
  function PriceCagr(first: Option<real>, last: Option<real>, days: int, pow: Power): Option<real>
    requires days != 0
  {
    if first.Some? && last.Some? && first.value != 0.0 then Cagr(first.value, last.value, days, pow) else None
  }

  /** Annualised volatility (%) and Sharpe ratio from the daily closes; `None` where the
      value is not a finite number. */
  type Statistics = seq<Option<real>> -> (Option<real>, Option<real>)

  /** The `Adj Close` column. */
  function Closes(bars: seq<Bar>): (r: seq<Option<real>>)
    ensures |r| == |bars| && forall i :: 0 <= i < |r| ==> r[i] == bars[i].adjClose
  {
    seq(|bars|, i requires 0 <= i < |bars| => bars[i].adjClose)
  }

  /* ---------------- per-year returns ---------------- */

  /** `data.index.year`: the `Year` column. */
  function YearColumn(bars: seq<Bar>): (r: seq<int>)
    ensures |r| == |bars|
    ensures forall j :: 0 <= j < |bars| ==> r[j] == bars[j].year
  {
    if bars == [] then [] else YearColumn(bars[..|bars| - 1]) + [bars[|bars| - 1].year]
  }

  /** The `Adj Close` values of the rows in year `y`, in row order. */
  function ClosesIn(bars: seq<Bar>, y: int): (r: seq<Option<real>>)
    ensures |r| <= |bars|
  {
    if bars == [] then []
    else
      var last := bars[|bars| - 1];
      ClosesIn(bars[..|bars| - 1], y) + (if last.year == y then [last.adjClose] else [])
  }

  /** Group aggregate `first`: the first value that is not NaN. */
  function FirstValid(xs: seq<Option<real>>): (r: Option<real>)
    ensures r.Some? <==> exists i :: 0 <= i < |xs| && xs[i].Some?
    ensures r.Some? ==> exists i :: 0 <= i < |xs| && xs[i] == r && forall j :: 0 <= j < i ==> xs[j].None?
  {
    if xs == [] then None
    else if xs[0].Some? then xs[0]
    else
      var r := FirstValid(xs[1..]);
      assert forall i :: 1 <= i < |xs| ==> xs[1..][i - 1] == xs[i];
      r
  }

  /** Group aggregate `last`: the last value that is not NaN. */
  function LastValid(xs: seq<Option<real>>): (r: Option<real>)
    ensures r.Some? <==> exists i :: 0 <= i < |xs| && xs[i].Some?
    ensures r.Some? ==> exists i :: 0 <= i < |xs| && xs[i] == r && forall j :: i < j < |xs| ==> xs[j].None?
  {
    if xs == [] then None
    else if xs[|xs| - 1].Some? then xs[|xs| - 1]
    else
      var init := xs[..|xs| - 1];
      var r := LastValid(init);
      LastValidStep(xs, init, r);
      r
  }

  lemma LastValidStep(xs: seq<Option<real>>, init: seq<Option<real>>, r: Option<real>)
    requires xs != [] && init == xs[..|xs| - 1] && xs[|xs| - 1].None?
    requires r.Some? <==> exists i :: 0 <= i < |init| && init[i].Some?
    requires r.Some? ==> exists i :: 0 <= i < |init| && init[i] == r && forall j :: i < j < |init| ==> init[j].None?
    ensures r.Some? <==> exists i :: 0 <= i < |xs| && xs[i].Some?
    ensures r.Some? ==> exists i :: 0 <= i < |xs| && xs[i] == r && forall j :: i < j < |xs| ==> xs[j].None?
  {
    if r.Some? {
      var i :| 0 <= i < |init| && init[i] == r && forall j :: i < j < |init| ==> init[j].None?;
      forall j | i < j < |xs| ensures xs[j].None? {
        if j < |init| { assert init[j] == xs[j]; }
      }
      assert xs[i] == r && xs[i].Some?;
    } else {
      forall i | 0 <= i < |xs| ensures xs[i].None? {
        if i < |init| { assert init[i] == xs[i]; }
      }
    }
  }

  /** `(last / first - 1) * 100` for one year's aggregates: NaN (here `None`) when the year
      has no price, and not finite when its first price is 0. */
  function YearReturn(first: Option<real>, last: Option<real>): Option<real> {
    if first.Some? && last.Some? && first.value != 0.0 then Some((last.value / first.value - 1.0) * 100.0)
    else None
  }

  /** `calculate_annual_returns` of the two dashboards that group the raw frame: one entry
      per year that occurs, from the year's first and last price that is not NaN. */
  function RawAnnualReturns(bars: seq<Bar>): map<int, Option<real>> {
    map y | y in YearColumn(bars) :: YearReturn(FirstValid(ClosesIn(bars, y)), LastValid(ClosesIn(bars, y)))
  }

  lemma {:induction false} ClosesInAbsent(bars: seq<Bar>, y: int)
    ensures ClosesIn(bars, y) == [] <==> y !in YearColumn(bars)
    decreases |bars|
  {
    if bars != [] {
      ClosesInAbsent(bars[..|bars| - 1], y);
      assert YearColumn(bars) == YearColumn(bars[..|bars| - 1]) + [bars[|bars| - 1].year];
    }
  }

  /** Reading rows is compositional per year: the closes of `a + b` in a year are those of
      `a` followed by those of `b`. */
  lemma {:induction false} ClosesInAppend(a: seq<Bar>, b: seq<Bar>, y: int)
    ensures ClosesIn(a + b, y) == ClosesIn(a, y) + ClosesIn(b, y)
    decreases |b|
  {
    if b == [] {
      assert a + b == a;
    } else {
      var b' := b[..|b| - 1];
      assert (a + b)[..|a + b| - 1] == a + b';
      ClosesInAppend(a, b', y);
    }
  }

  /** The raw returns have a key for exactly the years that occur, and a year's entry is a
      number exactly when the year has a price and its first price is not 0; the number is
      the change from that first price to the year's last price. */
  lemma RawAnnualReturnsExact(bars: seq<Bar>, y: int)
    ensures y in RawAnnualReturns(bars) <==> exists j :: 0 <= j < |bars| && bars[j].year == y
    ensures y in RawAnnualReturns(bars) ==>
      var f := FirstValid(ClosesIn(bars, y));
      var l := LastValid(ClosesIn(bars, y));
      && (RawAnnualReturns(bars)[y].Some? <==> f.Some? && f.value != 0.0)
      && (RawAnnualReturns(bars)[y].Some? ==> RawAnnualReturns(bars)[y].value == (l.value / f.value - 1.0) * 100.0)
  {
    if exists j :: 0 <= j < |bars| && bars[j].year == y {
      var j :| 0 <= j < |bars| && bars[j].year == y;
      assert YearColumn(bars)[j] == y;
    }
  }

  /** The dashboard that cleans its copy first keeps only rows with a price above 0. */
  function Usable(bars: seq<Bar>): seq<Bar> {
    Filter(bars, (b: Bar) => b.adjClose.Some? && b.adjClose.value > 0.0)
  }

  /** `calculate_annual_returns` of the outcome dashboard: nothing for fewer than two rows,
      nothing when fewer than two rows have a price above 0, otherwise one entry per year of
      those rows. */
  function AnnualReturns(bars: seq<Bar>): map<int, real> {
    if |bars| < 2 then map[]
    else
      var v := Usable(bars);
      if |v| < 2 then map[]
      else
        map y | y in YearColumn(v) && YearReturn(FirstValid(ClosesIn(v, y)), LastValid(ClosesIn(v, y))).Some? ::
          YearReturn(FirstValid(ClosesIn(v, y)), LastValid(ClosesIn(v, y))).value
  }

  lemma {:induction false} ClosesOfUsable(bars: seq<Bar>, y: int)
    ensures forall c :: c in ClosesIn(Usable(bars), y) ==> c.Some? && c.value > 0.0
    decreases |bars|
  {
    if bars != [] {
      var init := bars[..|bars| - 1];
      var b := bars[|bars| - 1];
      assert bars == init + [b];
      ClosesOfUsable(init, y);
      FilterAppend(init, [b], (b: Bar) => b.adjClose.Some? && b.adjClose.value > 0.0);
      ClosesInAppend(Usable(init), Usable([b]), y);
      assert Usable([b]) == Filter([], (b: Bar) => b.adjClose.Some? && b.adjClose.value > 0.0) +
        (if b.adjClose.Some? && b.adjClose.value > 0.0 then [b] else []) by {
        assert [b][..0] == [];
      }
      if b.adjClose.Some? && b.adjClose.value > 0.0 {
        assert ClosesIn([b], y) == ClosesIn([], y) + (if b.year == y then [b.adjClose] else []) by {
          assert [b][..0] == [];
        }
      }
    }
  }

  /** Once there are two usable rows, every year with a usable row has a return, computed
      from that year's first and last usable price in row order, and since those prices are
      positive no return is -100 % or below. */
  lemma AnnualReturnsExact(bars: seq<Bar>, y: int)
    requires |bars| >= 2 && |Usable(bars)| >= 2
    ensures y in AnnualReturns(bars) <==> exists b :: b in Usable(bars) && b.year == y
    ensures y in AnnualReturns(bars) ==>
      var c := ClosesIn(Usable(bars), y);
      && c != [] && c[0].Some? && c[|c| - 1].Some?
      && AnnualReturns(bars)[y] == (c[|c| - 1].value / c[0].value - 1.0) * 100.0
      && AnnualReturns(bars)[y] > -100.0
  {
    var v := Usable(bars);
    var c := ClosesIn(v, y);
    ClosesOfUsable(bars, y);
    ClosesInAbsent(v, y);
    if exists b :: b in v && b.year == y {
      var b :| b in v && b.year == y;
      var j :| 0 <= j < |v| && v[j] == b;
      assert YearColumn(v)[j] == y;
    }
    if y in YearColumn(v) {
      assert c[0] in c && c[|c| - 1] in c;
      assert FirstValid(c) == c[0];
      assert LastValid(c) == c[|c| - 1];
      var q := c[|c| - 1].value / c[0].value;
      assert q > 0.0;
      var j :| 0 <= j < |v| && YearColumn(v)[j] == y;
      assert v[j] in v;
    }
  }

  /** With fewer than two usable rows there are no returns at all. */
  lemma AnnualReturnsTooFew(bars: seq<Bar>)
    requires |bars| < 2 || |Usable(bars)| < 2
    ensures AnnualReturns(bars) == map[]
  {
  }

  /* ---------------- the 'Year' column added in place ---------------- */

  /** A downloaded data frame that `calculate_annual_returns` may extend with a `Year`
      column. */
  class PriceFrame {
    var bars: seq<Bar>
    var yearColumn: Option<seq<int>>

    constructor (bars: seq<Bar>)
      ensures this.bars == bars && yearColumn == None
    {
      this.bars := bars;
      yearColumn := None;
    }
  }

  /** `calculate_annual_returns(data)` of the two dashboards that group the caller's frame:
      it writes the `Year` column into `data` and returns the per-year returns. */
  method CalculateAnnualReturnsInPlace(data: PriceFrame) returns (annual: map<int, Option<real>>)
    modifies data
    ensures data.bars == old(data.bars)
    ensures data.yearColumn == Some(YearColumn(data.bars))
    ensures annual == RawAnnualReturns(data.bars)
  {
    data.yearColumn := Some(YearColumn(data.bars));
    annual := RawAnnualReturns(data.bars);
  }

  /* ---------------- the verdict ---------------- */

  datatype Verdict = Outperform | Underperform

  /** `np.where(stock > benchmark, 'Outperform', 'Underperform')` for one year, where a
      missing or NaN side compares false. */
  function Outcome(stock: Option<real>, benchmark: Option<real>): Verdict {
    if stock.Some? && benchmark.Some? && stock.value > benchmark.value then Outperform else Underperform
  }

  /** A cell of the joined table: absent years are NaN. */
  function Cell(m: map<int, Option<real>>, y: int): Option<real> {
    if y in m then m[y] else None
  }

  /** The joined table's `Outcome` column, one entry per year of either side. */
  function OutcomeColumn(stock: map<int, Option<real>>, benchmark: map<int, Option<real>>): map<int, Verdict> {
    map y | y in stock.Keys + benchmark.Keys :: Outcome(Cell(stock, y), Cell(benchmark, y))
  }

  /** A year is marked Outperform exactly when both sides have a number for it and the
      stock's is strictly greater; ties and gaps are Underperform, and the two sides can
      never both outperform each other. */
  lemma OutcomeRule(stock: map<int, Option<real>>, benchmark: map<int, Option<real>>, y: int)
    ensures y in OutcomeColumn(stock, benchmark) <==> y in stock || y in benchmark
    ensures y in OutcomeColumn(stock, benchmark) ==>
      (OutcomeColumn(stock, benchmark)[y] == Outperform <==>
        Cell(stock, y).Some? && Cell(benchmark, y).Some? && Cell(stock, y).value > Cell(benchmark, y).value)
    ensures y in OutcomeColumn(stock, benchmark) && OutcomeColumn(stock, benchmark)[y] == Outperform ==>
      OutcomeColumn(benchmark, stock)[y] == Underperform
  {
  }

  /** The outcome dashboard's returns never hold NaN; this lifts them into the joined
      table. */
  function Lift(m: map<int, real>): (r: map<int, Option<real>>)
    ensures r.Keys == m.Keys && forall y :: y in m ==> r[y] == Some(m[y])
  {
    map y | y in m :: Some(m[y])
  }
}
