# Dividend dashboard core, modelled in Dafny

This project models the bookkeeping and arithmetic inside the Streamlit pages of a dividend
investing dashboard. The pages are app.py, app_2.py and visual_page.py. Five parts are modelled:

- **Portfolio ledger** (`Ledger`, file `ledger.dfy`). The session holds an ordered list of
  positions `{ticker, num_shares, dividends, total_investment}` and the remaining capital.
  - Buy appends a position of `floor(amount / price)` shares, but only when
    `0 < amount <= remaining capital`, and debits its cost.
  - Remove credits back the cost of the *first* position with the ticker. It then filters out
    *every* position with that ticker.
  - Each rerun recomputes the remaining capital as `initial capital − Σ total_investment`.
  - `Session` is a class. Its `portfolio` and `remainingCapital` fields are the session-state
    entries; `initialCapital` is the value the capital input widget (app.py:23) had at the last
    rerun, since the widget itself is not session state. The methods update the fields in place.
    `Valid()` is the ledger invariant: the capital equation (`Balanced()`) and every lot having a
    whole, non-negative share count and a non-negative cost (`LotsSound()`).
- **Monthly dividend rows** (`MonthlyFlow`). Every dividend event of every position becomes one
  (ticker, month, amount) row for the stacked bar chart.
- **Reinvestment difference** (`ReinvestmentGap`). The third tab computes
  `current value + Σ dividends − Σ investment` and reports its sign. Positions the market-data
  provider cannot price are skipped.
- **Reinvestment simulators**:
  - `Reinvestment` models the analysis tab. It starts with one share and, on every later day
    with a positive dividend, adds `dividend / close` shares.
  - `VisualPage` models visual_page.py. It adds `dividend / price` on every row, the first
    included.
- **Company picks and ETF AUM** (`Selection`, `EtfAum`). These model tab4 and tab5, which exist
  only in app_2.py.
  - The picks are an append/filter list of (ticker, category) pairs. Names are resolved back to
    tickers by a first-match reverse lookup.
  - The AUM view finds an ETF's first non-missing value in an 18-year table. It gates the chosen
    year on that launch year.

Tabs 1–3 of app_2.py (lines 30–367) repeat app.py lines 15–352 line for line, 15 lines further
down. They are modelled once, and the table below cites app.py. Prices are `real` numbers, and a
price the code divides by must be positive. Fetched data (prices, dividend histories, quotes) are
parameters. Widget values (the initial capital, the amount, the chosen names and years) are also
parameters.

In three places the code does not do what one would expect of such a ledger and simulator
(compounding reinvested shares, rejecting a ticker already held, crediting back every removed lot).
The model follows the code each time:

- The simulators do not compound. The added shares are `dividend / close`, not
  `shares × dividend / close` (`NoCompoundingExample`, `SharesAreOnePlusPurchases`).
- A ticker that is already held is not rejected: a purchase always adds a new lot.
- Remove drops every lot of the ticker but credits back only the first one's cost. The capital
  equation holds after Remove exactly when the ticker's other lots cost nothing, in particular
  when there is one lot; otherwise the remaining capital is short by the other lots' cost
  (`Session.Remove`, `SumWithout`, `SingleMatchCost`, `FirstCostBounded`). Lots of zero cost do
  occur: an amount below the price buys a zero-share lot (`PurchaseCost`). The page reruns right after a removal, and the rerun recomputes the
  remaining capital (`Session.Rerun`), so the shortfall is never displayed.

## Model

| member | source | states |
|---|---|---|
| `Ledger.Session.constructor` | app.py:19-27 | First run: empty portfolio, remaining capital equal to the initial capital, invariant holds |
| `Ledger.Session.Rerun` | app.py:26-29 | Remaining capital becomes `initial − Σ total_investment`, positions unchanged, capital equation restored, invariant kept; it is ≥ 0 exactly when the investments do not exceed the initial capital; with the same initial capital on a valid ledger it changes nothing |
| `Ledger.Session.Buy` | app.py:39-79 | Empty ticker, missing dividends or price, and an amount outside `(0, remaining]` each leave the ledger unchanged; otherwise exactly one new position is appended at the end, earlier ones untouched, remaining capital lowered by its cost and still ≥ 0; the invariant (including whole, non-negative lots) is preserved; a non-negative remaining capital stays non-negative; duplicate tickers are accepted |
| `Ledger.Session.Remove` | app.py:127-138 | Positions become exactly those with another ticker, in order; capital credited with the first match's cost only, so on a valid ledger it never goes down and never exceeds `initial − Σ total_investment`; the capital equation holds afterwards iff the other matches cost nothing (always when the ticker occurs at most once); lots stay sound |
| `Ledger.WholeShares` | app.py:63 | Floor division: integral share count with `n·price ≤ amount < (n+1)·price`, non-negative for non-negative amounts, zero when the amount is below the price |
| `Ledger.PurchaseCost` | app.py:63-64 | A purchase costs at most the amount, leaves less than one price unspent, and an amount below the price gives a zero-share, zero-cost position |
| `Ledger.NewPosition` | app.py:70-75 | The appended record: upper-cased ticker, floor share count, cost `shares·price`, dividends scaled by the share count |
| `Ledger.Upper` | app.py:71 | Same length, no lower-case ASCII letter left, other characters kept, letters shifted to upper case |
| `Ledger.Scaled` | app.py:73 | The stored dividend series has the same dates as the per-share series, each amount multiplied by the share count |
| `Ledger.SumScaled` | app.py:73 | The scaled series sums to the share count times the per-share sum |
| `Ledger.Without` | app.py:136 | The filter keeps a position iff its ticker differs, never adds one |
| `Ledger.WithoutAppend` | app.py:136 | The filter keeps the original order (it distributes over concatenation) |
| `Ledger.WithoutAbsent` | app.py:136 | Filtering a ticker that is not held changes nothing |
| `Ledger.FirstMatch` | app.py:131-134 | The loop with `break` stops at the first position with the ticker, or finds none |
| `Ledger.SumWithout` | app.py:131-136 | Total investment after the filter is the old total minus every matching position's cost |
| `Ledger.SingleMatchCost` | app.py:131-136 | With at most one matching position the first match's cost is all of the removed cost |
| `Ledger.FirstCostBounded` | app.py:131-136 | With non-negative costs, the credited first match's cost is non-negative and at most the cost of all matches |
| `Ledger.UndoPurchase` | app.py:131-136 | Removing the ticker of a just-bought position not held before restores the old list and credits exactly its cost |
| `Calendar.Latest` | app.py:316 | `max` of a non-empty date list returns one of its dates, and no date is later |
| `Calendar.BeforeIsStrictTotalOrder` | app.py:317 | Timestamp comparison is irreflexive, asymmetric, transitive and total |
| `MonthlyFlow.RowsOf` | app.py:92-99 | One row per dividend event of a position, each carrying the position's ticker, the event's month and amount |
| `MonthlyFlow.MonthlyRows` | app.py:89-99 | The nested loops build exactly the position-by-position concatenation of the rows |
| `MonthlyFlow.FlattenLength` | app.py:89-99 | The table has exactly one row per dividend event of all positions |
| `MonthlyFlow.FlattenAt` | app.py:89-99 | Event `j` of position `i` is at offset (events before `i`) + `j`, with that position's ticker, the month 1–12 of its date and the scaled amount |
| `MonthlyFlow.FlattenOrigin` | app.py:89-99 | Every row comes from some event of some position |
| `ReinvestmentGap.LatestDividendDate` | app.py:311-321 | None exactly when no position has a dividend event; otherwise the latest dividend date over all positions |
| `ReinvestmentGap.TotalCurrentValue` | app.py:323-333 | The loop sums `num_shares · quote` over positions, skipping those without a quote |
| `ReinvestmentGap.TotalDividends` | app.py:335-339 | The loop sums every position's dividend series |
| `ReinvestmentGap.TrendOf` | app.py:347-352 | The message is "increase" iff the difference is positive, "decrease" iff negative, "no change" iff zero |
| `ReinvestmentGap.Analyze` | app.py:300-352 | Empty portfolio and no-dividend-data are reported; otherwise `difference = current value + dividends − Σ total_investment` with its sign |
| `ReinvestmentGap.NoQuotesNoValue` | app.py:329-333 | With no quote at all the current value is 0 |
| `ReinvestmentGap.UnquotedIgnored` | app.py:325-333 | A position without a quote is skipped in any portfolio: replacing it by any other position leaves the current value unchanged |
| `ReinvestmentGap.UnchangedPricesGap` | app.py:342 | With every position quoted at its purchase price the current value equals the investment, so the difference is exactly the dividends |
| `ReinvestmentGap.PurchasedDividends` | app.py:339 | A purchased position's dividend total is its share count times the per-share total |
| `Reinvestment.Added` | app.py:199-204 | Shares added on a day are non-negative and positive exactly when the dividend is positive |
| `Reinvestment.Simulate` | app.py:186-207 | Output series as long as the input; `shares[0] = 1`, `value[0] = close[0]`; `shares[i]` follows the recurrence; `value[i] = shares[i]·close[i]` |
| `Reinvestment.Analyze` | app.py:164-207 | Bad date range, empty history and a history without a positive dividend are reported; otherwise the simulation series |
| `Reinvestment.SharesNonDecreasing` | app.py:199-204 | Shares never decrease over time |
| `Reinvestment.NoDividendsOneShare` | app.py:199-207 | With no positive dividend the holding stays at one share and the value equals the close |
| `Reinvestment.FirstDividendIgnored` | app.py:191-194 | Day 0's dividend has no effect on any share count |
| `Reinvestment.SharesAreOnePlusPurchases` | app.py:199-202 | Shares are 1 plus the sum of the daily `dividend/close` purchases: no compounding |
| `Reinvestment.NoCompoundingExample` | app.py:201 | Two dividends of 5 at a close of 100 give 1.05 then 1.1 shares, not 1.1025 |
| `VisualPage.MainPageSimulation` | visual_page.py:38-66 | One entry per row in each list, in row order; prices and filled dividends copied; each value is (shares after that row) × price |
| `VisualPage.SharesAfterNonDecreasing` | visual_page.py:53 | With non-negative dividends and positive prices the shares never decrease |
| `VisualPage.ZeroDividendsValueIsPrice` | visual_page.py:42-58 | With all dividends zero the shares stay 1 and every investment value equals the price |
| `VisualPage.FirstRowDifference` | visual_page.py:48-53 | With non-negative dividends, shares after row `i` equal the analysis tab's shares plus row 0's `dividend/price` |
| `Selection.FirstNamed` | app_2.py:473 | The reverse lookup returns the first entry whose name equals the selection |
| `Selection.TickersNamed` | app_2.py:486 | A ticker is collected iff the table lists it under the selected name |
| `Selection.KeepUnlisted` | app_2.py:487 | A pick is kept iff it was there and its ticker is not among the collected ones |
| `Selection.KeepUnlistedAppend` | app_2.py:487 | The removal keeps the picks' original order |
| `Selection.AddThenRemove` | app_2.py:472-487 | Adding a company and removing it by name removes every pick of that ticker and otherwise acts as the removal alone |
| `Selection.Picks.constructor` | app_2.py:419-420 | The pick list starts empty |
| `Selection.Picks.Add` | app_2.py:471-481 | The placeholder adds nothing; a name appends (first ticker with that name, category) at the end, duplicates allowed |
| `Selection.Picks.Remove` | app_2.py:484-489 | The placeholder removes nothing; a name keeps, in order, exactly the picks whose ticker is not named so in either table |
| `EtfAum.YearsShape` | app_2.py:496 | The year list has 18 increasing entries, 2006 to 2023 |
| `EtfAum.CheckLengths` | app_2.py:509-512 | Passes iff every column has one entry per year; otherwise reports the first column whose length differs |
| `EtfAum.ColumnNamed` | app_2.py:525-528 | Finds the column `<ETF>_AUM` or reports that there is none |
| `EtfAum.FirstValid` | app_2.py:530-531 | The launch row is the first non-missing cell |
| `EtfAum.RowOfYear` | app_2.py:538 | The chosen year's row is the first row with that year |
| `EtfAum.Lookup` | app_2.py:524-542 | Unknown ETF and all-missing columns are reported; otherwise the launch year and first AUM, and the chosen year's cell, which is None exactly when the chosen year is before the launch year |
| `EtfAum.GateMatchesRows` | app_2.py:530-538 | On increasing years, the year gate excludes exactly the rows above the launch row, and the launch year shows the first AUM |
| `EtfAum.YearGate` | app_2.py:496-538 | The same for the tab's own 2006–2023 table, whose years are increasing by `YearsShape` |

## Left out

- Streamlit widgets, tabs, messages, `st.experimental_rerun` and page navigation
  (visual_page.py:10-22 and 93-118). The session state is the `Session` and `Picks` objects.
  Widget values are method parameters.
- Fetches from the market-data provider (yfinance). Dividend histories, latest prices, price
  histories and the per-position quotes of the third tab are parameters. The check that the full
  history is empty (app.py:156) is folded into the empty-history check of `Reinvestment.Analyze`.
  The date pickers' bounds are not modelled.
- Chart building and styling with Plotly and matplotlib, logo downloads and file I/O
  (app_2.py:20-26, 426-465, 545-630). The static king, aristocrat and AUM tables are also left out;
  they are parameters of the same shape.
- Floating point is not modelled: amounts and prices are `real`, with no rounding, NaN or
  infinity. A price that is divided by is required to be positive. The code does not guard these
  divisions (app.py:63, app.py:201, visual_page.py:53).
- Timezone stripping and the `Timestamp.min` sentinel (app.py:312-320). The sentinel is `None`.
  Dates carry only year, month and day.
- `Ledger.Upper`: does not model `str.upper` beyond ASCII letters, because tickers are ASCII
  symbols.
- `Reinvestment.PriceRow`: a missing `Dividends` column (app.py:176-178) is the same as every
  dividend missing, and both are filled with 0.
- Tab4's select box offers a company name or the placeholder only. `Selection.Picks.Add`
  therefore requires a listed name, because the source's `[...][0]` would fail on any other
  name.
- Tab5's year slider only offers years of the table, so `EtfAum.Lookup` requires that the chosen
  year is in the table. It is applied to a table that passed `CheckLengths`.
