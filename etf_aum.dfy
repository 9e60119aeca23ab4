/**
 * The "ETF growth" tab of app_2.py: a table with one row per year and one assets-under-management
 * column per ETF, where the years before an ETF's launch are missing. The tab checks the table's
 * shape, finds an ETF's launch year and first AUM, and looks up the AUM of the chosen year.
 */
module EtfAum {
  import opened Wrappers

  /** One table cell: missing (`None` before launch) or an AUM in billions of dollars. */
  datatype Cell = Missing | Aum(value: real)

  /** One column of the table: its key (such as "SCHD_AUM") and its cells, one per year. */
  datatype Column = Column(key: string, cells: seq<Cell>)

  /** What the tab shows for the chosen ETF and year. */
  datatype AumView =
    | UnknownEtf     // no column for the ETF
    | NeverListed    // the column has no value at all (looking up its first value fails)
    | Shown(initialYear: int, initialAum: real, selected: Option<Cell>)

  /** `list(range(2006, 2024))`: the table's 18 years. */
  const Years: seq<int> := seq(18, i => 2006 + i)

  /** Every year is later than the one before it. */
  predicate Increasing(years: seq<int>) {
    forall i, j :: 0 <= i < j < |years| ==> years[i] < years[j]
  }

  lemma YearsShape()
    ensures |Years| == 18 && Years[0] == 2006 && Years[17] == 2023
    ensures Increasing(Years)
  {
  }

  /**
   * The loop that raises an error for the first column whose length differs from the number
   * of years; `None` means the table passed.
   */
  method CheckLengths(columns: seq<Column>, years: seq<int>) returns (bad: Option<Column>)
    ensures bad.None? <==> forall i :: 0 <= i < |columns| ==> |columns[i].cells| == |years|
    ensures bad.Some? ==> exists i :: 0 <= i < |columns| && columns[i] == bad.value && |bad.value.cells| != |years| &&
                                      forall j :: 0 <= j < i ==> |columns[j].cells| == |years|
  {
    for i := 0 to |columns|
      invariant forall j :: 0 <= j < i ==> |columns[j].cells| == |years|
    {
      if |columns[i].cells| != |years| {
        return Some(columns[i]);
      }
    }
    return None;
  }

  /** The column with the given key (the first one, should a key repeat). */
  function ColumnNamed(columns: seq<Column>, key: string): (r: Option<nat>)
    ensures r.None? <==> forall i :: 0 <= i < |columns| ==> columns[i].key != key
    ensures r.Some? ==> r.value < |columns| && columns[r.value].key == key
  {
    if |columns| == 0 then None
    else if columns[0].key == key then Some(0)
    else
      match ColumnNamed(columns[1..], key)
      case None => None
      case Some(i) => Some(i + 1)
  }

  /** Index of the first non-missing cell: the launch row. */
  function FirstValid(cells: seq<Cell>): (r: Option<nat>)
    ensures r.None? <==> forall i :: 0 <= i < |cells| ==> cells[i].Missing?
    ensures r.Some? ==> r.value < |cells| && cells[r.value].Aum? &&
                        forall j :: 0 <= j < r.value ==> cells[j].Missing?
  {
    if |cells| == 0 then None
    else if cells[0].Aum? then Some(0)
    else
      match FirstValid(cells[1..])
      case None => None
      case Some(i) => Some(i + 1)
  }

  /** Index of the first row whose year is `y` (`df[df['Year'] == y]...values[0]`). */
  function RowOfYear(years: seq<int>, y: int): (i: nat)
    requires y in years
    ensures i < |years| && years[i] == y
    ensures forall j :: 0 <= j < i ==> years[j] != y
  {
    if years[0] == y then 0 else 1 + RowOfYear(years[1..], y)
  }

  /**
   * The lookup for ETF `etf` and the slider's year: the launch year and first AUM, and the
   * chosen year's cell unless the chosen year is before the launch.
   */
  function Lookup(years: seq<int>, columns: seq<Column>, etf: string, selectedYear: int): (v: AumView)
    requires selectedYear in years
    requires forall i :: 0 <= i < |columns| ==> |columns[i].cells| == |years|
    ensures v == UnknownEtf <==> ColumnNamed(columns, etf + "_AUM").None?
    ensures v == NeverListed <==>
      ColumnNamed(columns, etf + "_AUM").Some? &&
      forall i :: 0 <= i < |years| ==> columns[ColumnNamed(columns, etf + "_AUM").value].cells[i].Missing?
    ensures v.Shown? ==>
      var cells := columns[ColumnNamed(columns, etf + "_AUM").value].cells;
      exists k :: 0 <= k < |cells| && cells[k] == Aum(v.initialAum) && years[k] == v.initialYear &&
                  forall j :: 0 <= j < k ==> cells[j].Missing?
    ensures v.Shown? ==> (v.selected.None? <==> selectedYear < v.initialYear)
    ensures v.Shown? && v.selected.Some? ==>
      v.selected.value == columns[ColumnNamed(columns, etf + "_AUM").value].cells[RowOfYear(years, selectedYear)]
  {
    match ColumnNamed(columns, etf + "_AUM")
    case None => UnknownEtf
    case Some(c) =>
      var cells := columns[c].cells;
      match FirstValid(cells)
      case None => NeverListed
      case Some(k) =>
        var selected := if selectedYear < years[k] then None else Some(cells[RowOfYear(years, selectedYear)]);
        Shown(years[k], cells[k].value, selected)
  }

  /**
   * On a table with increasing years, the year test matches the rows: the chosen year is
   * gated out exactly when its row lies above the launch row, and choosing the launch year
   * shows the first AUM.
   */
  lemma {:induction false} GateMatchesRows(years: seq<int>, cells: seq<Cell>, selectedYear: int)
    requires Increasing(years) && |cells| == |years| && selectedYear in years
    requires FirstValid(cells).Some?
    ensures var k := FirstValid(cells).value;
      (selectedYear < years[k] <==> RowOfYear(years, selectedYear) < k) &&
      (selectedYear == years[k] ==> cells[RowOfYear(years, selectedYear)] == cells[k])
  {
    var k := FirstValid(cells).value;
    var r := RowOfYear(years, selectedYear);
    if r < k {
      assert years[r] < years[k];
    } else if r > k {
      assert years[k] < years[r];
    }
  }

  /**
   * The same on the tab's own 18-year table: a year is shown exactly when its row is at or
   * below the launch row.
   */
  lemma YearGate(cells: seq<Cell>, selectedYear: int)
    requires |cells| == |Years| && selectedYear in Years
    requires FirstValid(cells).Some?
    ensures var k := FirstValid(cells).value;
      (selectedYear < Years[k] <==> RowOfYear(Years, selectedYear) < k) &&
      (selectedYear == Years[k] ==> cells[RowOfYear(Years, selectedYear)] == cells[k])
  {
    YearsShape();
    GateMatchesRows(Years, cells, selectedYear);
  }
}
