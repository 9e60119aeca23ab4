/**
 * The "dividend reinvestment analysis" tab: replay a daily price history holding one share
 * and buy `dividend / close` more shares on every day that pays a dividend.
 * The same code appears in app.py and app_2.py; it is modelled once.
 */
module Reinvestment {
  import opened Wrappers
  import opened Calendar

  /** One trading day of the price history: closing price and the (possibly missing) dividend. */
  datatype PriceRow = PriceRow(close: real, dividend: Option<real>)

  /** The series the chart shows: share count and investment value per trading day. */
  datatype Simulation = Simulation(shares: seq<real>, values: seq<real>)

  datatype AnalysisOutcome =
    | BadRange         // the start date is after the end date
    | NoPriceData      // the provider returned no rows for the range
    | NoDividendData   // no row pays a positive dividend
    | Simulated(simulation: Simulation)

  /** `Dividends.fillna(0)`: a missing dividend counts as 0. */
  function Paid(r: PriceRow): real {
    r.dividend.GetOr(0.0)
  }

  /** Every day from the second on whose dividend is reinvested has a positive close. */
  predicate PricedWhereReinvested(rows: seq<PriceRow>) {
    forall i :: 1 <= i < |rows| && Paid(rows[i]) > 0.0 ==> rows[i].close > 0.0
  }

  /** Shares bought on one day: `dividend / close` when the dividend is positive. */
  function Added(r: PriceRow): (a: real)
    requires Paid(r) > 0.0 ==> r.close > 0.0
    ensures a >= 0.0
    ensures a > 0.0 <==> Paid(r) > 0.0
  {
    if Paid(r) > 0.0 then Paid(r) / r.close else 0.0
  }

  /** Market value of a holding: shares times the closing price. */
  function Worth(shares: real, close: real): real {
    shares * close
  }

  /** Shares held at the end of day `i`: one share on day 0, then each day's purchase added. */
  function SharesAt(rows: seq<PriceRow>, i: nat): real
    requires i < |rows| && PricedWhereReinvested(rows)
  {
    if i == 0 then 1.0 else SharesAt(rows, i - 1) + Added(rows[i])
  }

  /**
   * The simulation loop over the pre-allocated `shares` and `investment_value` series.
   * The caller only runs it on a non-empty history.
   */
  method Simulate(rows: seq<PriceRow>) returns (sim: Simulation)
    requires |rows| > 0 && PricedWhereReinvested(rows)
    ensures |sim.shares| == |rows| && |sim.values| == |rows|
    ensures sim.shares[0] == 1.0 && sim.values[0] == rows[0].close
    ensures forall i :: 0 <= i < |rows| ==> sim.shares[i] == SharesAt(rows, i)
    ensures forall i :: 0 <= i < |rows| ==> sim.values[i] == Worth(sim.shares[i], rows[i].close)
  {
    var shares := new real[|rows|];
    var values := new real[|rows|];
    shares[0] := 1.0;
    values[0] := Worth(1.0, rows[0].close);
    for i := 1 to |rows|
      invariant forall k :: 0 <= k < i ==> shares[k] == SharesAt(rows, k)
      invariant forall k :: 0 <= k < i ==> values[k] == Worth(SharesAt(rows, k), rows[k].close)
    {
      var previous := shares[i - 1];
      var dividend := Paid(rows[i]);
      var next := previous;
      if dividend > 0.0 {
        next := previous + dividend / rows[i].close;
      }
      assert next == SharesAt(rows, i);
      shares[i] := next;
      values[i] := Worth(next, rows[i].close);
    }
    sim := Simulation(shares[..], values[..]);
  }

  /**
   * The tab's checks before the loop: the date range, an empty history, and a history
   * without any positive dividend.
   */
  method Analyze(start: Date, end: Date, rows: seq<PriceRow>) returns (outcome: AnalysisOutcome)
    requires PricedWhereReinvested(rows)
    ensures outcome == BadRange <==> Before(end, start)
    ensures outcome == NoPriceData <==> !Before(end, start) && rows == []
    ensures outcome == NoDividendData <==>
      !Before(end, start) && rows != [] && forall i :: 0 <= i < |rows| ==> Paid(rows[i]) <= 0.0
    ensures outcome.Simulated? ==>
      var sim := outcome.simulation;
      |sim.shares| == |rows| && |sim.values| == |rows| &&
      forall i :: 0 <= i < |rows| ==> sim.shares[i] == SharesAt(rows, i) && sim.values[i] == Worth(sim.shares[i], rows[i].close)
  {
    if Before(end, start) {
      return BadRange;
    }
    if rows == [] {
      return NoPriceData;
    }
    var i := 0;
    while i < |rows| && Paid(rows[i]) <= 0.0
      invariant 0 <= i <= |rows|
      invariant forall k :: 0 <= k < i ==> Paid(rows[k]) <= 0.0
    {
      i := i + 1;
    }
    if i == |rows| {
      return NoDividendData;
    }
    var sim := Simulate(rows);
    outcome := Simulated(sim);
  }

  /** Reinvesting never sells: the share count does not decrease from one day to a later one. */
  lemma {:induction false} SharesNonDecreasing(rows: seq<PriceRow>, i: nat, j: nat)
    requires i <= j < |rows| && PricedWhereReinvested(rows)
    ensures SharesAt(rows, i) <= SharesAt(rows, j)
  {
    if i < j {
      SharesNonDecreasing(rows, i, j - 1);
    }
  }

  /** Without any positive dividend the holding stays at one share, so the value is the close. */
  lemma {:induction false} NoDividendsOneShare(rows: seq<PriceRow>, i: nat)
    requires i < |rows| && PricedWhereReinvested(rows)
    requires forall k :: 0 <= k < |rows| ==> Paid(rows[k]) <= 0.0
    ensures SharesAt(rows, i) == 1.0
    ensures Worth(SharesAt(rows, i), rows[i].close) == rows[i].close
  {
    if i > 0 {
      NoDividendsOneShare(rows, i - 1);
    }
  }

  /** The first day's dividend is never reinvested: replacing that day's dividend changes nothing. */
  lemma {:induction false} FirstDividendIgnored(rows: seq<PriceRow>, d: Option<real>, i: nat)
    requires i < |rows| && PricedWhereReinvested(rows)
    ensures PricedWhereReinvested(rows[0 := PriceRow(rows[0].close, d)])
    ensures SharesAt(rows[0 := PriceRow(rows[0].close, d)], i) == SharesAt(rows, i)
  {
    var other := rows[0 := PriceRow(rows[0].close, d)];
    assert forall k :: 1 <= k < |rows| ==> other[k] == rows[k];
    if i > 0 {
      FirstDividendIgnored(rows, d, i - 1);
    }
  }

  /** Shares bought over days `lo` to `hi - 1`. */
  function AddedBetween(rows: seq<PriceRow>, lo: nat, hi: nat): real
    requires lo <= hi <= |rows| && PricedWhereReinvested(rows) && lo >= 1
    decreases hi - lo
  {
    if lo == hi then 0.0 else Added(rows[lo]) + AddedBetween(rows, lo + 1, hi)
  }

  /**
   * No compounding: the share count is one plus the day-by-day purchases, each of which
   * depends only on that day's dividend and close, never on the shares already held.
   */
  lemma {:induction false} SharesAreOnePlusPurchases(rows: seq<PriceRow>, i: nat)
    requires i < |rows| && PricedWhereReinvested(rows)
    ensures SharesAt(rows, i) == 1.0 + AddedBetween(rows, 1, i + 1)
  {
    if i > 0 {
      SharesAreOnePlusPurchases(rows, i - 1);
      AddedBetweenSplit(rows, 1, i, i + 1);
    }
  }

  lemma {:induction false} AddedBetweenSplit(rows: seq<PriceRow>, lo: nat, mid: nat, hi: nat)
    requires 1 <= lo <= mid <= hi <= |rows| && PricedWhereReinvested(rows)
    ensures AddedBetween(rows, lo, hi) == AddedBetween(rows, lo, mid) + AddedBetween(rows, mid, hi)
    decreases mid - lo
  {
    if lo < mid {
      AddedBetweenSplit(rows, lo + 1, mid, hi);
    }
  }

  /**
   * Two dividends of 5 at a close of 100 give 1.1 shares, not the 1.1025 that
   * reinvesting the dividends of the reinvested shares would give.
   */
  lemma NoCompoundingExample()
    ensures var rows := [PriceRow(100.0, Some(0.0)), PriceRow(100.0, Some(5.0)), PriceRow(100.0, Some(5.0))];
      SharesAt(rows, 1) == 1.05 && SharesAt(rows, 2) == 1.1 && SharesAt(rows, 2) != 1.1025
  {
  }
}
