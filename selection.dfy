/**
 * The "build your own dividend portfolio" tab of app_2.py: the user picks companies by name
 * from the dividend-king and dividend-aristocrat tables; the picks are kept as an ordered
 * list of (ticker, category) pairs.
 */
module Selection {

  datatype Category = King | Aristocrat

  /** One entry of a reference table, in the table's own order: ticker and company name. */
  datatype Listing = Listing(ticker: string, name: string)

  /** One entry of `selected_companies`. */
  datatype Pick = Pick(ticker: string, category: Category)

  /** The first option of every select box, meaning "nothing chosen". */
  const Placeholder: string := "선택하세요"

  predicate Listed(table: seq<Listing>, name: string) {
    exists i :: 0 <= i < |table| && table[i].name == name
  }

  /** Reverse lookup: the position of the first entry whose name is `name`. */
  function FirstNamed(table: seq<Listing>, name: string): (i: nat)
    requires Listed(table, name)
    ensures i < |table| && table[i].name == name
    ensures forall j :: 0 <= j < i ==> table[j].name != name
  {
    if table[0].name == name then 0
    else
      assert Listed(table[1..], name) by {
        var k :| 0 <= k < |table| && table[k].name == name;
        assert table[1..][k - 1] == table[k];
      }
      1 + FirstNamed(table[1..], name)
  }

  /** `[ticker for ticker, name in table.items() if name == selection]`. */
  function TickersNamed(table: seq<Listing>, name: string): (r: seq<string>)
    ensures forall t :: t in r <==> Listing(t, name) in table
  {
    if |table| == 0 then []
    else
      var rest := TickersNamed(table[..|table| - 1], name);
      var last := table[|table| - 1];
      assert forall l :: l in table <==> l in table[..|table| - 1] || l == last;
      if last.name == name then rest + [last.ticker] else rest
  }

  /** `[(c, k) for c, k in selected if c not in drop]`. */
  function KeepUnlisted(picks: seq<Pick>, drop: seq<string>): (r: seq<Pick>)
    ensures |r| <= |picks|
    ensures forall p :: p in r <==> p in picks && p.ticker !in drop
  {
    if |picks| == 0 then []
    else
      var rest := KeepUnlisted(picks[..|picks| - 1], drop);
      var last := picks[|picks| - 1];
      assert forall p :: p in picks <==> p in picks[..|picks| - 1] || p == last;
      if last.ticker !in drop then rest + [last] else rest
  }

  /** Removing from a list extended by one pick: the pick is kept at the end iff its ticker is not dropped. */
  lemma KeepUnlistedSnoc(ps: seq<Pick>, x: Pick, drop: seq<string>)
    ensures KeepUnlisted(ps + [x], drop) == if x.ticker !in drop then KeepUnlisted(ps, drop) + [x] else KeepUnlisted(ps, drop)
  {
    assert (ps + [x])[..|ps|] == ps;
  }

  /** The filter keeps the original order: it distributes over concatenation. */
  lemma {:induction false} KeepUnlistedAppend(ps: seq<Pick>, qs: seq<Pick>, drop: seq<string>)
    ensures KeepUnlisted(ps + qs, drop) == KeepUnlisted(ps, drop) + KeepUnlisted(qs, drop)
  {
    if |qs| > 0 {
      var n := |qs| - 1;
      var front, x := qs[..n], qs[n];
      assert qs == front + [x];
      assert ps + qs == (ps + front) + [x];
      KeepUnlistedAppend(ps, front, drop);
      KeepUnlistedSnoc(ps + front, x, drop);
      KeepUnlistedSnoc(front, x, drop);
    } else {
      assert ps + qs == ps;
    }
  }

  /** The tickers a removal by name drops: matches from both tables, kings first. */
  function RemovedTickers(kings: seq<Listing>, aristocrats: seq<Listing>, name: string): seq<string> {
    TickersNamed(kings, name) + TickersNamed(aristocrats, name)
  }

  /**
   * Picking a company and removing it again by the same name takes out the new pick and
   * every earlier pick of the same ticker, and leaves the rest of the list as the removal
   * alone would.
   */
  lemma AddThenRemove(kings: seq<Listing>, aristocrats: seq<Listing>, picks: seq<Pick>, category: Category, name: string)
    requires Listed(if category == King then kings else aristocrats, name)
    ensures var table := if category == King then kings else aristocrats;
      var t := table[FirstNamed(table, name)].ticker;
      var after := KeepUnlisted(picks + [Pick(t, category)], RemovedTickers(kings, aristocrats, name));
      after == KeepUnlisted(picks, RemovedTickers(kings, aristocrats, name)) &&
      forall p :: p in after ==> p.ticker != t
  {
    var table := if category == King then kings else aristocrats;
    var t := table[FirstNamed(table, name)].ticker;
    var drop := RemovedTickers(kings, aristocrats, name);
    assert Listing(t, name) == table[FirstNamed(table, name)];
    assert t in drop;
    KeepUnlistedAppend(picks, [Pick(t, category)], drop);
    assert KeepUnlisted([Pick(t, category)], drop) == [];
  }

  /** `st.session_state.selected_companies`. */
  class Picks {
    var companies: seq<Pick>

    constructor ()
      ensures companies == []
    {
      companies := [];
    }

    /**
     * "Add" under one of the two select boxes: the placeholder adds nothing; a company name
     * appends the pair (first ticker with that name, category) at the end, duplicates allowed.
     * The select box only offers the table's names or the placeholder.
     */
    method Add(table: seq<Listing>, category: Category, selection: string)
      requires selection != Placeholder ==> Listed(table, selection)
      modifies this
      ensures selection == Placeholder ==> companies == old(companies)
      ensures selection != Placeholder ==>
        companies == old(companies) + [Pick(table[FirstNamed(table, selection)].ticker, category)]
    {
      if selection != Placeholder {
        var ticker := table[FirstNamed(table, selection)].ticker;
        companies := companies + [Pick(ticker, category)];
      }
    }

    /**
     * "Remove": every pick whose ticker carries the selected name in either table is
     * dropped; the others stay, in order.
     */
    method Remove(kings: seq<Listing>, aristocrats: seq<Listing>, selection: string)
      modifies this
      ensures selection == Placeholder ==> companies == old(companies)
      ensures selection != Placeholder ==>
        companies == KeepUnlisted(old(companies), RemovedTickers(kings, aristocrats, selection))
    {
      if selection != Placeholder {
        companies := KeepUnlisted(companies, RemovedTickers(kings, aristocrats, selection));
      }
    }
  }
}
