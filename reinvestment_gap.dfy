/**
 * The "portfolio reinvestment difference" tab: what the portfolio is worth now, plus the
 * dividends its positions were credited with, minus what was invested.
 */
module ReinvestmentGap {
  import opened Wrappers
  import opened Calendar
  import opened Ledger

  datatype Trend = Increase | Decrease | NoChange

  datatype Report = Report(initialInvestment: real, currentValue: real, totalDividends: real,
                           difference: real, trend: Trend)

  datatype GapOutcome =
    | NoPortfolio      // the portfolio is empty
    | NoDividendData   // no position has any dividend event
    | Computed(report: Report)

  /** The dates of every dividend event of every position. */
  function AllDates(ps: seq<Position>): seq<Date> {
    if |ps| == 0 then []
    else AllDates(ps[..|ps| - 1]) + seq(|ps[|ps| - 1].dividends|, j requires 0 <= j < |ps[|ps| - 1].dividends| => ps[|ps| - 1].dividends[j].date)
  }

  /**
   * Current value: shares times the latest quote, summed over the positions that got a
   * quote. `quotes[i]` is the provider's answer for position `i`; a missing quote skips it.
   */
  function CurrentValueOf(ps: seq<Position>, quotes: seq<Option<real>>): real
    requires |quotes| == |ps|
  {
    if |ps| == 0 then 0.0
    else
      CurrentValueOf(ps[..|ps| - 1], quotes[..|ps| - 1]) +
      (match quotes[|ps| - 1]
       case Some(q) => ps[|ps| - 1].numShares * q
       case None => 0.0)
  }

  /** Sum of all dividends credited to all positions. */
  function DividendTotal(ps: seq<Position>): real {
    if |ps| == 0 then 0.0 else DividendTotal(ps[..|ps| - 1]) + SumAmounts(ps[|ps| - 1].dividends)
  }

  /** The sign test that picks the success, error or info message. */
  function TrendOf(x: real): (t: Trend)
    ensures t == Increase <==> x > 0.0
    ensures t == Decrease <==> x < 0.0
    ensures t == NoChange <==> x == 0.0
  {
    if x > 0.0 then Increase else if x < 0.0 then Decrease else NoChange
  }

  /**
   * The loop that finds the most recent dividend date over all positions, starting from
   * the "minimum timestamp" sentinel, here `None`.
   */
  method LatestDividendDate(ps: seq<Position>) returns (recent: Option<Date>)
    ensures recent.None? <==> AllDates(ps) == []
    ensures recent.Some? ==> recent.value in AllDates(ps)
    ensures recent.Some? ==> forall d :: d in AllDates(ps) ==> !Before(recent.value, d)
  {
    recent := None;
    var i := 0;
    while i < |ps|
      invariant 0 <= i <= |ps|
      invariant recent.None? <==> AllDates(ps[..i]) == []
      invariant recent.Some? ==> recent.value in AllDates(ps[..i])
      invariant recent.Some? ==> forall d :: d in AllDates(ps[..i]) ==> !Before(recent.value, d)
    {
      assert ps[..i + 1][..i] == ps[..i];
      var ds := ps[i].dividends;
      var dates := seq(|ds|, j requires 0 <= j < |ds| => ds[j].date);
      assert AllDates(ps[..i + 1]) == AllDates(ps[..i]) + dates;
      if |ds| > 0 {
        var latest := Latest(dates);
        if recent.None? || Before(recent.value, latest) {
          recent := Some(latest);
        }
      }
      i := i + 1;
    }
    assert ps[..i] == ps;
  }

  /** The loop adding up `num_shares * latest_price` over the quoted positions. */
  method TotalCurrentValue(ps: seq<Position>, quotes: seq<Option<real>>) returns (total: real)
    requires |quotes| == |ps|
    ensures total == CurrentValueOf(ps, quotes)
  {
    total := 0.0;
    var i := 0;
    while i < |ps|
      invariant 0 <= i <= |ps|
      invariant total == CurrentValueOf(ps[..i], quotes[..i])
    {
      assert ps[..i + 1][..i] == ps[..i] && quotes[..i + 1][..i] == quotes[..i];
      if quotes[i].Some? {
        total := total + ps[i].numShares * quotes[i].value;
      }
      i := i + 1;
    }
    assert ps[..i] == ps && quotes[..i] == quotes;
  }

  /** The loop adding up every position's dividend sum. */
  method TotalDividends(ps: seq<Position>) returns (total: real)
    ensures total == DividendTotal(ps)
  {
    total := 0.0;
    var i := 0;
    while i < |ps|
      invariant 0 <= i <= |ps|
      invariant total == DividendTotal(ps[..i])
    {
      assert ps[..i + 1][..i] == ps[..i];
      total := total + SumAmounts(ps[i].dividends);
      i := i + 1;
    }
    assert ps[..i] == ps;
  }

  /**
   * The whole tab: empty portfolio and "no dividend data" are reported, otherwise the
   * difference `current value + dividends - invested` and its sign.
   */
  method Analyze(ps: seq<Position>, quotes: seq<Option<real>>) returns (outcome: GapOutcome)
    requires |quotes| == |ps|
    ensures outcome == NoPortfolio <==> ps == []
    ensures outcome == NoDividendData <==> ps != [] && AllDates(ps) == []
    ensures outcome.Computed? ==>
      var r := outcome.report;
      r.initialInvestment == SumInvestment(ps) &&
      r.currentValue == CurrentValueOf(ps, quotes) &&
      r.totalDividends == DividendTotal(ps) &&
      r.difference == r.currentValue + r.totalDividends - r.initialInvestment &&
      (r.trend == Increase <==> r.difference > 0.0) &&
      (r.trend == Decrease <==> r.difference < 0.0) &&
      (r.trend == NoChange <==> r.difference == 0.0)
  {
    if ps == [] {
      return NoPortfolio;
    }
    var initialInvestment := SumInvestment(ps);
    var recent := LatestDividendDate(ps);
    if recent.None? {
      return NoDividendData;
    }
    var currentValue := TotalCurrentValue(ps, quotes);
    var totalDividends := TotalDividends(ps);
    var difference := currentValue + totalDividends - initialInvestment;
    outcome := Computed(Report(initialInvestment, currentValue, totalDividends, difference, TrendOf(difference)));
  }

  /** Positions without a quote contribute nothing: with no quotes at all the current value is 0. */
  lemma {:induction false} NoQuotesNoValue(ps: seq<Position>, quotes: seq<Option<real>>)
    requires |quotes| == |ps|
    requires forall i :: 0 <= i < |quotes| ==> quotes[i].None?
    ensures CurrentValueOf(ps, quotes) == 0.0
  {
    if |ps| > 0 {
      NoQuotesNoValue(ps[..|ps| - 1], quotes[..|ps| - 1]);
    }
  }

  /**
   * A position without a quote is skipped whatever the portfolio around it: replacing it by
   * any other position leaves the current value unchanged.
   */
  lemma {:induction false} UnquotedIgnored(ps: seq<Position>, quotes: seq<Option<real>>, i: nat, q: Position)
    requires |quotes| == |ps| && i < |ps| && quotes[i].None?
    ensures CurrentValueOf(ps[i := q], quotes) == CurrentValueOf(ps, quotes)
  {
    var n := |ps| - 1;
    var other := ps[i := q];
    if i < n {
      assert other[..n] == ps[..n][i := q];
      UnquotedIgnored(ps[..n], quotes[..n], i, q);
    } else {
      assert other[..n] == ps[..n];
    }
  }

  /**
   * With every position quoted at its purchase price, the current value equals the amount
   * invested, so the difference is exactly the dividends credited.
   */
  lemma {:induction false} UnchangedPricesGap(ps: seq<Position>, quotes: seq<Option<real>>)
    requires |quotes| == |ps|
    requires forall i :: 0 <= i < |ps| ==>
      quotes[i].Some? && ps[i].totalInvestment == ps[i].numShares * quotes[i].value
    ensures CurrentValueOf(ps, quotes) == SumInvestment(ps)
    ensures CurrentValueOf(ps, quotes) + DividendTotal(ps) - SumInvestment(ps) == DividendTotal(ps)
  {
    if |ps| > 0 {
      var n := |ps| - 1;
      UnchangedPricesGap(ps[..n], quotes[..n]);
    }
  }

  /**
   * For a position opened by a purchase, the dividends counted here are the per-share
   * dividends times the share count fixed at purchase time.
   */
  lemma PurchasedDividends(ticker: string, perShare: seq<DividendEvent>, amount: real, price: real)
    requires price > 0.0
    ensures var p := NewPosition(ticker, perShare, amount, price);
      DividendTotal([p]) == p.numShares * SumAmounts(perShare)
  {
    var p := NewPosition(ticker, perShare, amount, price);
    SumScaled(perShare, p.numShares);
    assert [p][..0] == [];
    assert DividendTotal([p]) == SumAmounts(p.dividends);
  }
}
