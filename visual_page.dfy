/**
 * The reinvestment simulation of the "main" page of visual_page.py: it starts from one
 * share and adds `dividend / price` shares on every row, the first one included, with no
 * test that the dividend is positive.
 */
module VisualPage {
  import opened Reinvestment

  /** Every row has a positive price (the loop divides by every one of them). */
  predicate AllPriced(rows: seq<PriceRow>) {
    forall i :: 0 <= i < |rows| ==> rows[i].close > 0.0
  }

  /** Shares held after processing the first `n` rows. */
  function SharesAfter(rows: seq<PriceRow>, n: nat): real
    requires n <= |rows| && AllPriced(rows)
  {
    if n == 0 then 1.0 else SharesAfter(rows, n - 1) + Paid(rows[n - 1]) / rows[n - 1].close
  }

  /** The three lists the loop builds, one entry per row. */
  datatype Series = Series(prices: seq<real>, dividends: seq<real>, investmentValue: seq<real>)

  /** The `iterrows` loop of `main_page`. */
  method MainPageSimulation(rows: seq<PriceRow>) returns (out: Series)
    requires AllPriced(rows)
    ensures |out.prices| == |rows| && |out.dividends| == |rows| && |out.investmentValue| == |rows|
    ensures forall k :: 0 <= k < |rows| ==> out.prices[k] == rows[k].close && out.dividends[k] == Paid(rows[k])
    ensures forall k :: 0 <= k < |rows| ==> out.investmentValue[k] == Worth(SharesAfter(rows, k + 1), rows[k].close)
  {
    var shares := 1.0;
    var priceList, dividendList, investmentValue := [], [], [];
    for i := 0 to |rows|
      invariant shares == SharesAfter(rows, i)
      invariant |priceList| == i && |dividendList| == i && |investmentValue| == i
      invariant forall k :: 0 <= k < i ==> priceList[k] == rows[k].close && dividendList[k] == Paid(rows[k])
      invariant forall k :: 0 <= k < i ==> investmentValue[k] == Worth(SharesAfter(rows, k + 1), rows[k].close)
    {
      var dividend := Paid(rows[i]);
      var price := rows[i].close;
      shares := shares + dividend / price;
      priceList := priceList + [price];
      dividendList := dividendList + [dividend];
      investmentValue := investmentValue + [Worth(shares, price)];
    }
    out := Series(priceList, dividendList, investmentValue);
  }

  /** With no negative dividend, the share count never decreases. */
  lemma {:induction false} SharesAfterNonDecreasing(rows: seq<PriceRow>, m: nat, n: nat)
    requires m <= n <= |rows| && AllPriced(rows)
    requires forall k :: 0 <= k < |rows| ==> Paid(rows[k]) >= 0.0
    ensures SharesAfter(rows, m) <= SharesAfter(rows, n)
  {
    if m < n {
      SharesAfterNonDecreasing(rows, m, n - 1);
      var r := rows[n - 1];
      assert Paid(r) / r.close >= 0.0;
    }
  }

  /** With every dividend zero, the holding stays at one share and each value is that row's price. */
  lemma {:induction false} ZeroDividendsValueIsPrice(rows: seq<PriceRow>, n: nat)
    requires n <= |rows| && AllPriced(rows)
    requires forall k :: 0 <= k < |rows| ==> Paid(rows[k]) == 0.0
    ensures SharesAfter(rows, n) == 1.0
    ensures n < |rows| ==> Worth(SharesAfter(rows, n + 1), rows[n].close) == rows[n].close
  {
    if n > 0 {
      ZeroDividendsValueIsPrice(rows, n - 1);
    }
    if n < |rows| {
      assert SharesAfter(rows, n + 1) == SharesAfter(rows, n) + Paid(rows[n]) / rows[n].close;
    }
  }

  /**
   * How this page differs from the analysis tab: with no negative dividend, after row `i`
   * it holds exactly the tab's shares plus what the first row's dividend buys.
   */
  lemma {:induction false} FirstRowDifference(rows: seq<PriceRow>, i: nat)
    requires i < |rows| && AllPriced(rows)
    requires forall k :: 0 <= k < |rows| ==> Paid(rows[k]) >= 0.0
    ensures PricedWhereReinvested(rows)
    ensures SharesAfter(rows, i + 1) == SharesAt(rows, i) + Paid(rows[0]) / rows[0].close
  {
    if i > 0 {
      FirstRowDifference(rows, i - 1);
    }
  }
}
