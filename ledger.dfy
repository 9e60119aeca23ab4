/**
 * The portfolio ledger of the "monthly dividend portfolio" tab: an ordered list of
 * positions, the capital the user starts from and the capital left to invest.
 * The same code appears twice in the repository (app.py and app_2.py); it is modelled once.
 */
module Ledger {
  import opened Wrappers
  import opened Calendar

  /** One entry of a dividend history: the payment date and the amount paid. */
  datatype DividendEvent = DividendEvent(date: Date, amount: real)

  /**
   * A ledger entry. `dividends` is the per-share history scaled by `numShares` at purchase
   * time; `totalInvestment` is the cash the purchase took.
   */
  datatype Position = Position(ticker: string, numShares: real, dividends: seq<DividendEvent>, totalInvestment: real)

  /** What a click on the "buy" button did. */
  datatype BuyOutcome =
    | NoTicker           // the ticker box is empty: nothing is fetched
    | NoMarketData       // no dividend history or no latest price for the ticker
    | AmountRejected     // the amount is not in (0, remaining capital]
    | Bought(position: Position)

  // ---------------------------------------------------------------------------
  // Sums over positions and dividend histories

  /** Sum of `totalInvestment` over the positions (Python's `sum([...])`). */
  function SumInvestment(ps: seq<Position>): real {
    if |ps| == 0 then 0.0 else SumInvestment(ps[..|ps| - 1]) + ps[|ps| - 1].totalInvestment
  }

  /** Sum of the amounts of a dividend history (pandas' `Series.sum`). */
  function SumAmounts(ds: seq<DividendEvent>): real {
    if |ds| == 0 then 0.0 else SumAmounts(ds[..|ds| - 1]) + ds[|ds| - 1].amount
  }

  /** `dividends * num_shares`: every amount multiplied by `k`, dates kept. */
  function Scaled(ds: seq<DividendEvent>, k: real): (r: seq<DividendEvent>)
    ensures |r| == |ds|
    ensures forall j :: 0 <= j < |ds| ==> r[j].date == ds[j].date && r[j].amount == ds[j].amount * k
  {
    seq(|ds|, j requires 0 <= j < |ds| => DividendEvent(ds[j].date, ds[j].amount * k))
  }

  /** Scaling a history scales its total: the position's dividends are `k` times the per-share dividends. */
  lemma {:induction false} SumScaled(ds: seq<DividendEvent>, k: real)
    ensures SumAmounts(Scaled(ds, k)) == k * SumAmounts(ds)
  {
    if |ds| > 0 {
      var n := |ds| - 1;
      var r := Scaled(ds, k);
      assert forall j :: 0 <= j < n ==> r[..n][j] == Scaled(ds[..n], k)[j];
      assert r[..n] == Scaled(ds[..n], k);
      SumScaled(ds[..n], k);
      var a, b := SumAmounts(ds[..n]), ds[n].amount;
      assert SumAmounts(r) == k * a + b * k;
      assert k * a + b * k == k * (a + b);
    }
  }

  // ---------------------------------------------------------------------------
  // Buying

  /**
   * `investment_amount // latest_price`: the whole number of shares the amount buys.
   * Their cost never exceeds the amount, and less than one more share's price is left over.
   */
  function WholeShares(amount: real, price: real): (n: real)
    requires price > 0.0
    ensures n == n.Floor as real
    ensures n * price <= amount < (n + 1.0) * price
    ensures amount >= 0.0 ==> n >= 0.0
    ensures 0.0 <= amount < price ==> n == 0.0
  {
    FloorBounds(amount, price);
    var n := (amount / price).Floor as real;
    assert 0.0 <= amount < price ==> n < 1.0 by {
      if 0.0 <= amount < price {
        MultiplyMonotone(1.0, n, price);
      }
    }
    n
  }

  lemma FloorBounds(amount: real, price: real)
    requires price > 0.0
    ensures var n := (amount / price).Floor as real;
      n * price <= amount < (n + 1.0) * price
  {
    var q := amount / price;
    var n := q.Floor as real;
    assert q * price == amount;
    assert n <= q < n + 1.0;
    MultiplyMonotone(n, q, price);
    var m := n + 1.0;
    MultiplyMonotone(q, m, price);
    assert amount < m * price;
  }

  lemma MultiplyMonotone(x: real, y: real, c: real)
    requires c > 0.0
    ensures x <= y ==> x * c <= y * c
    ensures x < y ==> x * c < y * c
  {
  }

  /** ASCII upper case of one character (`str.upper` restricted to ASCII). */
  function UpperChar(c: char): char {
    if 'a' <= c <= 'z' then (c as int - 32) as char else c
  }

  /** `ticker.upper()`: the ticker with every lower-case ASCII letter raised, everything else kept. */
  function Upper(s: string): (r: string)
    ensures |r| == |s|
    ensures forall i :: 0 <= i < |r| ==> !('a' <= r[i] <= 'z')
    ensures forall i :: 0 <= i < |s| && !('a' <= s[i] <= 'z') ==> r[i] == s[i]
    ensures forall i :: 0 <= i < |s| && 'a' <= s[i] <= 'z' ==> r[i] as int == s[i] as int - 32
  {
    seq(|s|, i requires 0 <= i < |s| => UpperChar(s[i]))
  }

  /** The position a purchase of `amount` at `price` appends. */
  function NewPosition(ticker: string, perShare: seq<DividendEvent>, amount: real, price: real): (p: Position)
    requires price > 0.0
    ensures p.ticker == Upper(ticker)
    ensures p.numShares == WholeShares(amount, price)
    ensures p.totalInvestment == p.numShares * price
    ensures p.dividends == Scaled(perShare, p.numShares)
  {
    var n := WholeShares(amount, price);
    Position(Upper(ticker), n, Scaled(perShare, n), n * price)
  }

  /**
   * A purchase never costs more than the amount offered, leaves less than one share's price
   * unspent, and an amount below the price buys a zero-share, zero-cost position.
   */
  lemma PurchaseCost(ticker: string, perShare: seq<DividendEvent>, amount: real, price: real)
    requires price > 0.0 && amount > 0.0
    ensures var p := NewPosition(ticker, perShare, amount, price);
      0.0 <= p.totalInvestment <= amount &&
      amount - p.totalInvestment < price &&
      (amount < price ==> p.numShares == 0.0 && p.totalInvestment == 0.0)
  {
    var p := NewPosition(ticker, perShare, amount, price);
    assert p.numShares >= 0.0;
    MultiplyMonotone(0.0, p.numShares, price);
  }

  // ---------------------------------------------------------------------------
  // Removing

  /** The list comprehension `[stock for stock in portfolio if stock['ticker'] != t]`. */
  function Without(ps: seq<Position>, t: string): (r: seq<Position>)
    ensures |r| <= |ps|
    ensures forall p :: p in r ==> p in ps && p.ticker != t
    ensures forall p :: p in ps && p.ticker != t ==> p in r
  {
    if |ps| == 0 then []
    else
      var rest := Without(ps[..|ps| - 1], t);
      var last := ps[|ps| - 1];
      assert forall p :: p in ps ==> p in ps[..|ps| - 1] || p == last;
      if last.ticker != t then rest + [last] else rest
  }

  /** Filtering a list extended by one position: the position is kept at the end iff its ticker differs. */
  lemma WithoutSnoc(ps: seq<Position>, x: Position, t: string)
    ensures Without(ps + [x], t) == if x.ticker != t then Without(ps, t) + [x] else Without(ps, t)
  {
    assert (ps + [x])[..|ps|] == ps;
  }

  /** The filter keeps the original order: filtering a concatenation concatenates the filtered parts. */
  lemma {:induction false} WithoutAppend(ps: seq<Position>, qs: seq<Position>, t: string)
    ensures Without(ps + qs, t) == Without(ps, t) + Without(qs, t)
  {
    if |qs| > 0 {
      var n := |qs| - 1;
      var front, x := qs[..n], qs[n];
      assert qs == front + [x];
      assert ps + qs == (ps + front) + [x];
      WithoutAppend(ps, front, t);
      WithoutSnoc(ps + front, x, t);
      WithoutSnoc(front, x, t);
    } else {
      assert ps + qs == ps;
    }
  }

  /** A list without the ticker is left unchanged by the filter. */
  lemma {:induction false} WithoutAbsent(ps: seq<Position>, t: string)
    requires forall p :: p in ps ==> p.ticker != t
    ensures Without(ps, t) == ps
  {
    if |ps| > 0 {
      var n := |ps| - 1;
      assert forall p :: p in ps[..n] ==> p in ps;
      WithoutAbsent(ps[..n], t);
      assert ps[..n] + [ps[n]] == ps;
    }
  }

  /** Index of the first position with ticker `t` (the loop that breaks at the first match). */
  function FirstMatch(ps: seq<Position>, t: string): (r: Option<nat>)
    ensures r.None? <==> forall j :: 0 <= j < |ps| ==> ps[j].ticker != t
    ensures r.Some? ==> r.value < |ps| && ps[r.value].ticker == t &&
                        forall j :: 0 <= j < r.value ==> ps[j].ticker != t
  {
    if |ps| == 0 then None
    else if ps[0].ticker == t then Some(0)
    else
      match FirstMatch(ps[1..], t)
      case None => None
      case Some(i) => Some(i + 1)
  }

  /** The capital the remove loop credits back: the first match's cost, or nothing. */
  function FirstCost(ps: seq<Position>, t: string): real {
    match FirstMatch(ps, t)
    case None => 0.0
    case Some(i) => ps[i].totalInvestment
  }

  /** Total cost of every position with ticker `t`. */
  function MatchingInvestment(ps: seq<Position>, t: string): real {
    if |ps| == 0 then 0.0
    else MatchingInvestment(ps[..|ps| - 1], t) +
         (if ps[|ps| - 1].ticker == t then ps[|ps| - 1].totalInvestment else 0.0)
  }

  /** Number of positions with ticker `t`. */
  function Count(ps: seq<Position>, t: string): nat {
    if |ps| == 0 then 0
    else Count(ps[..|ps| - 1], t) + (if ps[|ps| - 1].ticker == t then 1 else 0)
  }

  /** Filtering out a ticker lowers the total investment by exactly that ticker's total. */
  lemma {:induction false} SumWithout(ps: seq<Position>, t: string)
    ensures SumInvestment(ps) == SumInvestment(Without(ps, t)) + MatchingInvestment(ps, t)
  {
    if |ps| > 0 {
      var n := |ps| - 1;
      SumWithout(ps[..n], t);
      var rest := Without(ps[..n], t);
      if ps[n].ticker != t {
        assert (rest + [ps[n]])[..|rest|] == rest;
      }
    }
  }

  /** When the ticker occurs at most once, the first match's cost is all of that ticker's cost. */
  lemma {:induction false} SingleMatchCost(ps: seq<Position>, t: string)
    requires Count(ps, t) <= 1
    ensures MatchingInvestment(ps, t) == FirstCost(ps, t)
  {
    if |ps| > 0 {
      var n := |ps| - 1;
      SingleMatchCost(ps[..n], t);
      if ps[n].ticker == t {
        NoneCounted(ps[..n], t);
        assert forall j :: 0 <= j < n ==> ps[j].ticker != t by {
          forall j | 0 <= j < n ensures ps[j].ticker != t { assert ps[..n][j] == ps[j]; }
        }
      } else {
        FirstMatchExtend(ps, t);
      }
    }
  }

  lemma {:induction false} NoneCounted(ps: seq<Position>, t: string)
    requires Count(ps, t) == 0
    ensures forall j :: 0 <= j < |ps| ==> ps[j].ticker != t
    ensures MatchingInvestment(ps, t) == 0.0
  {
    if |ps| > 0 {
      var n := |ps| - 1;
      NoneCounted(ps[..n], t);
      assert forall j :: 0 <= j < n ==> ps[j] == ps[..n][j];
    }
  }

  /** A last position with another ticker does not change the first match's cost. */
  lemma FirstMatchExtend(ps: seq<Position>, t: string)
    requires |ps| > 0 && ps[|ps| - 1].ticker != t
    ensures FirstCost(ps, t) == FirstCost(ps[..|ps| - 1], t)
  {
    var n := |ps| - 1;
    assert forall j :: 0 <= j < n ==> ps[j] == ps[..n][j];
    match FirstMatch(ps[..n], t)
    case None =>
    case Some(i) =>
  }

  /** Extending a list by one position changes the first match only when there was none before. */
  lemma FirstCostSnoc(ps: seq<Position>, x: Position, t: string)
    ensures FirstCost(ps + [x], t) ==
      match FirstMatch(ps, t)
      case Some(i) => ps[i].totalInvestment
      case None => if x.ticker == t then x.totalInvestment else 0.0
  {
    var all := ps + [x];
    assert forall j :: 0 <= j < |ps| ==> all[j] == ps[j];
    var r := FirstMatch(all, t);
    match FirstMatch(ps, t)
    case Some(i) =>
      assert all[i].ticker == t;
      assert r.Some? && r.value <= i;
      assert ps[r.value].ticker == t;
    case None =>
      if x.ticker == t {
        assert all[|ps|].ticker == t;
        assert r.Some? && r.value == |ps|;
      } else {
        assert r.None?;
      }
  }

  /** With no negative cost, the first match's cost is between 0 and the cost of every match. */
  lemma {:induction false} FirstCostBounded(ps: seq<Position>, t: string)
    requires forall p :: p in ps ==> 0.0 <= p.totalInvestment
    ensures 0.0 <= FirstCost(ps, t) <= MatchingInvestment(ps, t)
  {
    if |ps| > 0 {
      var n := |ps| - 1;
      var front, x := ps[..n], ps[n];
      assert ps == front + [x];
      assert forall p :: p in front ==> p in ps;
      FirstCostBounded(front, t);
      MatchingNonNegative(front, t);
      FirstCostSnoc(front, x, t);
    }
  }

  lemma {:induction false} MatchingNonNegative(ps: seq<Position>, t: string)
    requires forall p :: p in ps ==> 0.0 <= p.totalInvestment
    ensures 0.0 <= MatchingInvestment(ps, t)
  {
    if |ps| > 0 {
      var n := |ps| - 1;
      assert forall p :: p in ps[..n] ==> p in ps;
      MatchingNonNegative(ps[..n], t);
    }
  }

  /** What a removal does to the totals, gathered for `Session.Remove`. */
  lemma RemovalAccounts(ps: seq<Position>, t: string)
    ensures SumInvestment(ps) == SumInvestment(Without(ps, t)) + MatchingInvestment(ps, t)
    ensures SoundLots(ps) ==> SoundLots(Without(ps, t)) && 0.0 <= FirstCost(ps, t) <= MatchingInvestment(ps, t)
    ensures Count(ps, t) <= 1 ==> MatchingInvestment(ps, t) == FirstCost(ps, t)
  {
    SumWithout(ps, t);
    if SoundLots(ps) {
      FirstCostBounded(ps, t);
    }
    if Count(ps, t) <= 1 {
      SingleMatchCost(ps, t);
    }
  }

  /** Undoing a purchase: removing a ticker that only the new position carries gives back the old list and its cost. */
  lemma UndoPurchase(ps: seq<Position>, p: Position)
    requires forall q :: q in ps ==> q.ticker != p.ticker
    ensures Without(ps + [p], p.ticker) == ps
    ensures FirstCost(ps + [p], p.ticker) == p.totalInvestment
  {
    WithoutAppend(ps, [p], p.ticker);
    WithoutAbsent(ps, p.ticker);
    assert Without([p], p.ticker) == [];
    assert forall j :: 0 <= j < |ps| ==> (ps + [p])[j] == ps[j];
  }

  /** A lot bought by `Buy`: a whole, non-negative number of shares at a non-negative cost. */
  predicate SoundLot(p: Position) {
    0.0 <= p.numShares && p.numShares == p.numShares.Floor as real && 0.0 <= p.totalInvestment
  }

  predicate SoundLots(ps: seq<Position>) {
    forall p :: p in ps ==> SoundLot(p)
  }

  // ---------------------------------------------------------------------------
  // The session state: `portfolio` and `remaining_capital`

  /**
   * The ledger kept in the session state. `initialCapital` is the value the capital
   * widget had at the last rerun (the widget itself is not session state).
   */
  class Session {
    var initialCapital: real
    var portfolio: seq<Position>
    var remainingCapital: real

    /** The capital equation: what is left is what was started with minus what was invested. */
    predicate Balanced()
      reads this
    {
      remainingCapital == initialCapital - SumInvestment(portfolio)
    }

    /** Every lot holds a whole, non-negative number of shares and cost a non-negative amount. */
    predicate LotsSound()
      reads this
    {
      SoundLots(portfolio)
    }

    /** The ledger invariant. */
    predicate Valid()
      reads this
    {
      Balanced() && LotsSound()
    }

    /** First run of the script: an empty portfolio and all of the initial capital left. */
    constructor (initial: real)
      ensures initialCapital == initial && portfolio == [] && remainingCapital == initial
      ensures Valid()
    {
      initialCapital := initial;
      portfolio := [];
      remainingCapital := initial;
    }

    /** Every later rerun recomputes the remaining capital from the positions. */
    method Rerun(initial: real)
      modifies this
      ensures portfolio == old(portfolio)
      ensures initialCapital == initial
      ensures remainingCapital == initial - SumInvestment(portfolio)
      ensures Balanced()
      ensures old(Valid()) ==> Valid()
      ensures remainingCapital >= 0.0 <==> SumInvestment(portfolio) <= initial
      ensures old(Valid()) && initial == old(initialCapital) ==> remainingCapital == old(remainingCapital)
    {
      initialCapital := initial;
      remainingCapital := initial - SumInvestment(portfolio);
    }

    /**
     * Enter a ticker and an amount and press "buy". `latestPrice` and `perShare` are what
     * the market-data provider returned for the upper-cased ticker.
     */
    method Buy(ticker: string, latestPrice: Option<real>, perShare: seq<DividendEvent>, amount: real)
      returns (outcome: BuyOutcome)
      requires latestPrice.Some? ==> latestPrice.value > 0.0
      modifies this
      ensures outcome == NoTicker <==> ticker == []
      ensures outcome == NoMarketData <==> ticker != [] && (perShare == [] || latestPrice.None?)
      ensures outcome == AmountRejected <==>
        ticker != [] && perShare != [] && latestPrice.Some? &&
        !(0.0 < amount <= old(remainingCapital))
      ensures outcome.Bought? ==>
        outcome.position == NewPosition(ticker, perShare, amount, latestPrice.value) &&
        portfolio == old(portfolio) + [outcome.position] &&
        remainingCapital == old(remainingCapital) - outcome.position.totalInvestment &&
        0.0 <= remainingCapital
      ensures !outcome.Bought? ==> portfolio == old(portfolio) && remainingCapital == old(remainingCapital)
      ensures initialCapital == old(initialCapital)
      ensures old(Valid()) ==> Valid()
      ensures old(remainingCapital) >= 0.0 ==> remainingCapital >= 0.0
    {
      if ticker == [] {
        return NoTicker;
      }
      if perShare == [] || latestPrice.None? {
        return NoMarketData;
      }
      var price := latestPrice.value;
      if !(0.0 < amount <= remainingCapital) {
        return AmountRejected;
      }
      var p := NewPosition(ticker, perShare, amount, price);
      PurchaseCost(ticker, perShare, amount, price);
      portfolio := portfolio + [p];
      remainingCapital := remainingCapital - p.totalInvestment;
      assert portfolio[..|portfolio| - 1] == old(portfolio);
      outcome := Bought(p);
    }

    /**
     * Pick a ticker and press "remove": the first matching position's cost is credited back,
     * then every position with that ticker is filtered out.
     */
    method Remove(t: string)
      modifies this
      ensures portfolio == Without(old(portfolio), t)
      ensures remainingCapital == old(remainingCapital) + FirstCost(old(portfolio), t)
      ensures initialCapital == old(initialCapital)
      ensures old(Valid()) ==>
        remainingCapital ==
          initialCapital - SumInvestment(portfolio) - (MatchingInvestment(old(portfolio), t) - FirstCost(old(portfolio), t))
      ensures old(Valid()) ==> (Balanced() <==> MatchingInvestment(old(portfolio), t) == FirstCost(old(portfolio), t))
      ensures old(Valid()) && Count(old(portfolio), t) <= 1 ==> Valid()
      ensures old(LotsSound()) ==> LotsSound()
      ensures old(Valid()) ==> remainingCapital >= old(remainingCapital)
      ensures old(Valid()) ==> remainingCapital <= initialCapital - SumInvestment(portfolio)
    {
      var i := 0;
      while i < |portfolio| && portfolio[i].ticker != t
        invariant 0 <= i <= |portfolio|
        invariant forall j :: 0 <= j < i ==> portfolio[j].ticker != t
      {
        i := i + 1;
      }
      ghost var before := portfolio;
      var credit := 0.0;
      if i < |portfolio| {
        assert FirstMatch(before, t) == Some(i);
        credit := portfolio[i].totalInvestment;
      } else {
        assert FirstMatch(before, t).None?;
      }
      assert credit == FirstCost(before, t);
      RemovalAccounts(before, t);
      remainingCapital := remainingCapital + credit;
      portfolio := Without(portfolio, t);
    }
  }
}
