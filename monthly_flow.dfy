/**
 * The rows behind the "monthly dividend flow" bar chart: every dividend event of every
 * position becomes one (ticker, month, amount) row; the year is dropped.
 */
module MonthlyFlow {
  import opened Calendar
  import opened Ledger

  datatype MonthlyRow = MonthlyRow(ticker: string, month: Month, dividend: real)

  /** The row one dividend event of a position contributes. */
  function RowOf(p: Position, e: DividendEvent): MonthlyRow {
    MonthlyRow(p.ticker, e.date.month, e.amount)
  }

  /** The rows of one position, in the order of its dividend history. */
  function RowsOf(p: Position): (r: seq<MonthlyRow>)
    ensures |r| == |p.dividends|
    ensures forall j :: 0 <= j < |r| ==> r[j] == RowOf(p, p.dividends[j])
  {
    seq(|p.dividends|, j requires 0 <= j < |p.dividends| => RowOf(p, p.dividends[j]))
  }

  /** The rows of all positions, position by position. */
  function Flatten(ps: seq<Position>): seq<MonthlyRow> {
    if |ps| == 0 then [] else Flatten(ps[..|ps| - 1]) + RowsOf(ps[|ps| - 1])
  }

  /** Number of dividend events over all positions. */
  function EventCount(ps: seq<Position>): nat {
    if |ps| == 0 then 0 else EventCount(ps[..|ps| - 1]) + |ps[|ps| - 1].dividends|
  }

  /** The two nested loops that build `portfolio_data`. */
  method MonthlyRows(ps: seq<Position>) returns (rows: seq<MonthlyRow>)
    ensures rows == Flatten(ps)
  {
    rows := [];
    var i := 0;
    while i < |ps|
      invariant 0 <= i <= |ps|
      invariant rows == Flatten(ps[..i])
    {
      var p := ps[i];
      var j := 0;
      while j < |p.dividends|
        invariant 0 <= j <= |p.dividends|
        invariant rows == Flatten(ps[..i]) + RowsOf(p)[..j]
      {
        rows := rows + [RowOf(p, p.dividends[j])];
        j := j + 1;
      }
      assert RowsOf(p)[..j] == RowsOf(p);
      assert ps[..i + 1][..i] == ps[..i];
      i := i + 1;
    }
    assert ps[..i] == ps;
  }

  /** One row per dividend event: the table has exactly as many rows as there are events. */
  lemma {:induction false} FlattenLength(ps: seq<Position>)
    ensures |Flatten(ps)| == EventCount(ps)
  {
    if |ps| > 0 {
      FlattenLength(ps[..|ps| - 1]);
    }
  }

  /**
   * Event `j` of position `i` sits at offset `EventCount(ps[..i]) + j`, carrying that
   * position's ticker, the event's month and the (already scaled) amount.
   */
  lemma {:induction false} FlattenAt(ps: seq<Position>, i: nat, j: nat)
    requires i < |ps| && j < |ps[i].dividends|
    ensures EventCount(ps[..i]) + j < |Flatten(ps)|
    ensures Flatten(ps)[EventCount(ps[..i]) + j] == MonthlyRow(ps[i].ticker, ps[i].dividends[j].date.month, ps[i].dividends[j].amount)
  {
    var n := |ps| - 1;
    FlattenLength(ps);
    if i == n {
      FlattenLength(ps[..n]);
    } else {
      assert ps[..n][..i] == ps[..i];
      FlattenAt(ps[..n], i, j);
      assert ps[..n][i] == ps[i];
    }
    EventCountPrefix(ps, i);
  }

  lemma {:induction false} EventCountPrefix(ps: seq<Position>, i: nat)
    requires i < |ps|
    ensures EventCount(ps[..i]) + |ps[i].dividends| <= EventCount(ps)
  {
    var n := |ps| - 1;
    if i < n {
      assert ps[..n][..i] == ps[..i];
      EventCountPrefix(ps[..n], i);
      assert ps[..n][i] == ps[i];
    } else {
      assert ps[..i] == ps[..n];
    }
  }

  /** Every row comes from some dividend event of some position. */
  lemma {:induction false} FlattenOrigin(ps: seq<Position>, k: nat)
    requires k < |Flatten(ps)|
    ensures exists i, j ::
              0 <= i < |ps| && 0 <= j < |ps[i].dividends| && Flatten(ps)[k] == RowOf(ps[i], ps[i].dividends[j])
  {
    var n := |ps| - 1;
    var front := Flatten(ps[..n]);
    if k < |front| {
      FlattenOrigin(ps[..n], k);
      var i, j :|
        0 <= i < n && 0 <= j < |ps[..n][i].dividends| && front[k] == RowOf(ps[..n][i], ps[..n][i].dividends[j]);
      assert ps[..n][i] == ps[i];
      assert Flatten(ps)[k] == RowOf(ps[i], ps[i].dividends[j]);
    } else {
      var j := k - |front|;
      assert Flatten(ps)[k] == RowsOf(ps[n])[j];
    }
  }
}
