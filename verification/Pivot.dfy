/**
 The pivot of `PivotTable`: rows grouped twice through nested maps, one aggregate a cell.
 */
module Pivot {
  import opened Options
  import opened Grouping

  datatype AggFunction = Count | Summed | Avg | Min | Max

  /** A cell's text before formatting: a plain count, a number to two decimals, an exact one, or a stand-in. */
  datatype Shown = Plain(n: nat) | Fixed(x: real) | Exact(x: real) | Zero | Dash
  {
    function Amount(): real {
      match this
      case Plain(n) => n as real
      case Fixed(x) => x
      case Exact(x) => x
      case Zero => 0.0
      case Dash => 0.0
    }
  }

  datatype PivotRow = PivotRow(rowKey: string, values: map<string, Shown>)

  datatype Grid = Grid(colKeys: seq<string>, pivotRows: seq<PivotRow>)

  // ---------------------------------------------------------------------------
  // Keys and values

  const ALL := "__all__"

  /** A field is chosen where it is neither absent nor the empty string. */
  predicate Chosen(field: Option<string>) {
    field.Some? && field.value != ""
  }

  /** `String(row[field] ?? "NULL")` */
  function KeyBy(field: string): Row -> string {
    (row: Row) => if field in row && row[field].Known? then row[field].text else "NULL"
  }

  function ColumnKey(field: Option<string>): Row -> string {
    if Chosen(field) then KeyBy(field.value) else (row: Row) => ALL
  }

  /** What a row puts into its cell: the number 1 where no value field is chosen. */
  function ValueBy(field: Option<string>): Row -> Option<Cell> {
    if Chosen(field) then (row: Row) => Get(row, field.value) else (row: Row) => Some(Known("1", Some(1.0)))
  }

  /** `Number(v)`: an absent value or unreadable text is NaN and null is zero. */
  function NumberOf(v: Option<Cell>): Option<real> {
    match v
    case None => None
    case Some(Null) => Some(0.0)
    case Some(Known(_, number)) => number
  }

  function Numbers(values: seq<Option<Cell>>): seq<real> {
    if values == [] then [] else
    var before, last := Numbers(values[..|values| - 1]), NumberOf(values[|values| - 1]);
    if last.Some? then before + [last.value] else before
  }

  /** The values of the rows that share both keys, in order. */
  function CellRows(rows: seq<Row>, row: Row -> string, col: Row -> string, rk: string, ck: string): seq<Row> {
    GroupOf(GroupOf(rows, row, rk), col, ck)
  }

  function ValuesBy(rows: seq<Row>, value: Row -> Option<Cell>): (r: seq<Option<Cell>>)
    ensures |r| == |rows|
  {
    seq(|rows|, i requires 0 <= i < |rows| => value(rows[i]))
  }

  ghost predicate Aggregates(values: seq<Option<Cell>>, fn: AggFunction, shown: Shown) {
    var nums := Numbers(values);
    match fn
    case Count => shown == Plain(|values|)
    case Summed => shown == if nums == [] then Zero else Fixed(Sum(nums))
    case Avg => if nums == [] then shown == Zero else shown.Fixed? && Times(|nums|, shown.x) == Sum(nums)
    case Min => if nums == [] then shown == Dash else shown.Exact? && Least(shown.x, nums)
    case Max => if nums == [] then shown == Dash else shown.Exact? && Greatest(shown.x, nums)
  }

  method Aggregate(values: seq<Option<Cell>>, fn: AggFunction) returns (shown: Shown)
    ensures Aggregates(values, fn, shown)
  {
    var nums := Numbers(values);
    match fn
    case Count => shown := Plain(|values|);
    case Summed =>
      var sum := SumOf(nums);
      shown := if nums == [] then Zero else Fixed(sum);
    case Avg =>
      if nums == [] { return Zero; }
      var sum := SumOf(nums);
      shown := Fixed(sum / |nums| as real);
    case Min =>
      if nums == [] { return Dash; }
      var x := MinOf(nums);
      shown := Exact(x);
    case Max =>
      if nums == [] { return Dash; }
      var x := MaxOf(nums);
      shown := Exact(x);
  }

  // ---------------------------------------------------------------------------
  // The nested maps

  type Cells = map<string, map<string, seq<Option<Cell>>>>

  function CellAt(cells: Cells, rk: string, ck: string): seq<Option<Cell>> {
    if rk in cells && ck in cells[rk] then cells[rk][ck] else []
  }

  ghost predicate Filled(cells: Cells, rows: seq<Row>, row: Row -> string, col: Row -> string, value: Row -> Option<Cell>) {
    forall rk, ck :: CellAt(cells, rk, ck) == ValuesBy(CellRows(rows, row, col, rk, ck), value)
  }

  lemma CellRowsGrow(rows: seq<Row>, r: Row, row: Row -> string, col: Row -> string, rk: string, ck: string)
    ensures CellRows(rows + [r], row, col, rk, ck) ==
      CellRows(rows, row, col, rk, ck) + if row(r) == rk && col(r) == ck then [r] else []
  {
    GroupGrows(rows, r, row, rk);
    if row(r) == rk {
      GroupGrows(GroupOf(rows, row, rk), r, col, ck);
    }
  }

  /** A row appends its value to the cell of its two keys. */
  function AddTo(cells: Cells, rk: string, ck: string, v: Option<Cell>): (r: Cells)
    ensures forall rk', ck' ::
              CellAt(r, rk', ck') == CellAt(cells, rk', ck') + if rk' == rk && ck' == ck then [v] else []
  {
    var colMap := if rk in cells then cells[rk] else map[];
    cells[rk := colMap[ck := (if ck in colMap then colMap[ck] else []) + [v]]]
  }

  method PushValue(groups: Cells, rk: string, ck: string, v: Option<Cell>) returns (cells: Cells)
    ensures cells == AddTo(groups, rk, ck, v)
    ensures forall k :: k in cells <==> k in groups || k == rk
  {
    cells := groups;
    if rk !in cells { cells := cells[rk := map[]]; }
    var colMap := cells[rk];
    if ck !in colMap { colMap := colMap[ck := []]; }
    colMap := colMap[ck := colMap[ck] + [v]];
    cells := cells[rk := colMap];
    assert colMap == AddTo(groups, rk, ck, v)[rk];
  }

  lemma RowFills(cells: Cells, rows: seq<Row>, r: Row, row: Row -> string, col: Row -> string, value: Row -> Option<Cell>)
    requires Filled(cells, rows, row, col, value)
    ensures Filled(AddTo(cells, row(r), col(r), value(r)), rows + [r], row, col, value)
  {
    forall rk, ck
      ensures CellAt(AddTo(cells, row(r), col(r), value(r)), rk, ck)
           == ValuesBy(CellRows(rows + [r], row, col, rk, ck), value)
    {
      CellRowsGrow(rows, r, row, col, rk, ck);
      ValuesGrow(CellRows(rows, row, col, rk, ck), r, value);
    }
  }

  lemma ValuesGrow(rows: seq<Row>, r: Row, value: Row -> Option<Cell>)
    ensures ValuesBy(rows + [r], value) == ValuesBy(rows, value) + [value(r)] && rows + [] == rows
  {
  }

  /** The grouping loop: every row joins the cell of its two keys. */
  method FillCells(rows: seq<Row>, row: Row -> string, col: Row -> string, value: Row -> Option<Cell>)
      returns (rowKeys: seq<string>, colKeys: seq<string>, cells: Cells)
    ensures rowKeys == KeysOf(rows, row) && colKeys == KeysOf(rows, col)
    ensures Filled(cells, rows, row, col, value)
  {
    rowKeys, colKeys, cells := [], [], map[];
    for i := 0 to |rows|
      invariant rowKeys == KeysOf(rows[..i], row) && colKeys == KeysOf(rows[..i], col)
      invariant forall k :: k in cells <==> k in rowKeys
      invariant Filled(cells, rows[..i], row, col, value)
    {
      var rk, ck, v := row(rows[i]), col(rows[i]), value(rows[i]);
      assert rows[..i + 1] == rows[..i] + [rows[i]];
      KeysGrow(rows[..i], rows[i], row);
      KeysGrow(rows[..i], rows[i], col);
      RowFills(cells, rows[..i], rows[i], row, col, value);
      if ck !in colKeys { colKeys := colKeys + [ck]; }
      if rk !in cells { rowKeys := rowKeys + [rk]; }
      cells := PushValue(cells, rk, ck, v);
    }
    assert rows[..|rows|] == rows;
  }

  /** Sorting: distinct keys keep their members. */
  ghost predicate Reorders(sort: seq<string> -> seq<string>) {
    forall keys :: Distinct(keys) ==> Distinct(sort(keys)) && forall k :: k in sort(keys) <==> k in keys
  }

  /** Each key of the rows once, each cell the aggregate of exactly the rows with its two keys. */
  ghost predicate IsPivot(grid: Grid, rows: seq<Row>, row: Row -> string, col: Row -> string, value: Row -> Option<Cell>, fn: AggFunction) {
    && Distinct(grid.colKeys) && (forall k :: k in grid.colKeys <==> k in KeysOf(rows, col))
    && Distinct(RowKeys(grid)) && (forall k :: k in RowKeys(grid) <==> k in KeysOf(rows, row))
    && forall i | 0 <= i < |grid.pivotRows| :: IsPivotRow(grid.pivotRows[i], grid.colKeys, rows, row, col, value, fn)
  }

  ghost predicate IsPivotRow(r: PivotRow, colKeys: seq<string>, rows: seq<Row>, row: Row -> string, col: Row -> string,
                             value: Row -> Option<Cell>, fn: AggFunction) {
    && (forall ck :: ck in r.values <==> ck in colKeys)
    && forall ck <- colKeys :: Aggregates(ValuesBy(CellRows(rows, row, col, r.rowKey, ck), value), fn, r.values[ck])
  }

  function RowKeys(grid: Grid): (r: seq<string>)
    ensures |r| == |grid.pivotRows|
  {
    seq(|grid.pivotRows|, i requires 0 <= i < |grid.pivotRows| => grid.pivotRows[i].rowKey)
  }

  method BuildRow(rk: string, colKeys: seq<string>, cells: Cells, fn: AggFunction,
                  ghost rows: seq<Row>, ghost row: Row -> string, ghost col: Row -> string, ghost value: Row -> Option<Cell>)
      returns (r: PivotRow)
    requires Filled(cells, rows, row, col, value)
    ensures r.rowKey == rk && IsPivotRow(r, colKeys, rows, row, col, value, fn)
  {
    var values: map<string, Shown> := map[];
    for j := 0 to |colKeys|
      invariant forall ck :: ck in values <==> ck in colKeys[..j]
      invariant forall ck <- values :: Aggregates(ValuesBy(CellRows(rows, row, col, rk, ck), value), fn, values[ck])
    {
      assert colKeys[..j + 1] == colKeys[..j] + [colKeys[j]];
      var shown := Aggregate(CellAt(cells, rk, colKeys[j]), fn);
      values := values[colKeys[j] := shown];
    }
    assert colKeys[..|colKeys|] == colKeys;
    return PivotRow(rk, values);
  }

  method BuildRows(rowKeys: seq<string>, colKeys: seq<string>, cells: Cells, fn: AggFunction,
                   ghost rows: seq<Row>, ghost row: Row -> string, ghost col: Row -> string, ghost value: Row -> Option<Cell>)
      returns (pivotRows: seq<PivotRow>)
    requires Filled(cells, rows, row, col, value)
    ensures |pivotRows| == |rowKeys| && forall j | 0 <= j < |rowKeys| :: pivotRows[j].rowKey == rowKeys[j]
    ensures forall r <- pivotRows :: IsPivotRow(r, colKeys, rows, row, col, value, fn)
  {
    pivotRows := [];
    for i := 0 to |rowKeys|
      invariant |pivotRows| == i
      invariant forall j | 0 <= j < i :: pivotRows[j].rowKey == rowKeys[j]
      invariant forall r <- pivotRows :: IsPivotRow(r, colKeys, rows, row, col, value, fn)
    {
      var built := BuildRow(rowKeys[i], colKeys, cells, fn, rows, row, col, value);
      pivotRows := pivotRows + [built];
    }
  }

  /** `pivotData`: null without a row field or without rows. */
  method PivotData(rows: seq<Row>, rowField: Option<string>, colField: Option<string>, valueField: Option<string>,
                   fn: AggFunction, sort: seq<string> -> seq<string>) returns (r: Option<Grid>)
    requires Reorders(sort)
    ensures r.Some? <==> rowField.Some? && rowField.value != "" && rows != []
    ensures r.Some? ==> IsPivot(r.value, rows, KeyBy(rowField.value), ColumnKey(colField), ValueBy(valueField), fn)
    ensures r.Some? && (colField == None || colField == Some("")) ==> r.value.colKeys == ["__all__"]
  {
    if !Chosen(rowField) || rows == [] { return None; }
    ghost var row, col, value := KeyBy(rowField.value), ColumnKey(colField), ValueBy(valueField);
    var rowKeys, colValues, cells := FillCells(rows, KeyBy(rowField.value), ColumnKey(colField), ValueBy(valueField));
    KeysAreTheKeys(rows, row);
    KeysAreTheKeys(rows, col);
    var colKeys := if Chosen(colField) then sort(colValues) else [ALL];
    if !Chosen(colField) {
      assert rows[0] in rows && col(rows[0]) == ALL;
    }
    var sorted := sort(rowKeys);
    var pivotRows := BuildRows(sorted, colKeys, cells, fn, rows, row, col, value);
    assert RowKeys(Grid(colKeys, pivotRows)) == sorted;
    return Some(Grid(colKeys, pivotRows));
  }

  // ---------------------------------------------------------------------------
  // The grid accounts for every row

  /** Every row is in the cell of its own keys and in no other. */
  lemma InItsCell(rows: seq<Row>, row: Row -> string, col: Row -> string, r: Row, rk: string, ck: string)
    requires r in rows
    ensures r in CellRows(rows, row, col, rk, ck) <==> row(r) == rk && col(r) == ck
  {
    InItsGroup(rows, row, r, rk);
    if row(r) == rk {
      InItsGroup(GroupOf(rows, row, rk), col, r, ck);
    }
  }

  /** In terms of what the row shows: a row is in the cells of its texts, `NULL` where it shows none. */
  lemma InItsCellIff(rows: seq<Row>, rowField: string, colField: Option<string>, r: Row, rk: string, ck: string)
    requires r in rows
    ensures r in CellRows(rows, KeyBy(rowField), ColumnKey(colField), rk, ck) <==>
      && ShowsText(r, rowField, rk, "NULL")
      && if colField == None || colField == Some("") then ck == "__all__" else ShowsText(r, colField.value, ck, "NULL")
  {
    InItsCell(rows, KeyBy(rowField), ColumnKey(colField), r, rk, ck);
  }

  /** What a row adds to a cell's numbers: 1 without a value field, nothing where the value is missing or no number, 0 for null. */
  lemma NumberOfIff(r: Row, field: Option<string>, x: real)
    ensures NumberOf(ValueBy(field)(r)) == Some(x) <==>
      if field == None || field == Some("") then x == 1.0
      else HasNumber(r, field.value, x) || (x == 0.0 && field.value in r && r[field.value] == Null)
  {
  }

  function RowSum(values: map<string, Shown>, colKeys: seq<string>): real {
    if colKeys == [] then 0.0 else
    var ck := colKeys[|colKeys| - 1];
    RowSum(values, colKeys[..|colKeys| - 1]) + if ck in values then values[ck].Amount() else 0.0
  }

  function GridSum(pivotRows: seq<PivotRow>, colKeys: seq<string>): real {
    if pivotRows == [] then 0.0
    else GridSum(pivotRows[..|pivotRows| - 1], colKeys) + RowSum(pivotRows[|pivotRows| - 1].values, colKeys)
  }

  /** Every cell of the row shows the total of `f` over its own rows. */
  ghost predicate RowTotals(r: PivotRow, colKeys: seq<string>, rows: seq<Row>, row: Row -> string, col: Row -> string, f: Row -> real) {
    forall ck <- colKeys :: ck in r.values && r.values[ck].Amount() == Total(CellRows(rows, row, col, r.rowKey, ck), f)
  }

  lemma {:induction false} RowSumIsTotals(values: map<string, Shown>, colKeys: seq<string>, group: seq<Row>, col: Row -> string, f: Row -> real)
    requires forall ck <- colKeys :: ck in values && values[ck].Amount() == Total(GroupOf(group, col, ck), f)
    ensures RowSum(values, colKeys) == GroupTotals(colKeys, group, col, f)
  {
    if colKeys != [] {
      RowSumIsTotals(values, colKeys[..|colKeys| - 1], group, col, f);
    }
  }

  lemma {:induction false} GridSumIsTotals(pivotRows: seq<PivotRow>, keys: seq<string>, colKeys: seq<string>,
                                           rows: seq<Row>, row: Row -> string, col: Row -> string, f: Row -> real)
    requires |keys| == |pivotRows| && forall i | 0 <= i < |keys| :: keys[i] == pivotRows[i].rowKey
    requires forall r <- pivotRows :: RowTotals(r, colKeys, rows, row, col, f)
    requires Distinct(colKeys) && forall r <- rows :: col(r) in colKeys
    ensures GridSum(pivotRows, colKeys) == GroupTotals(keys, rows, row, f)
  {
    if keys != [] {
      var n := |keys| - 1;
      var group := GroupOf(rows, row, keys[n]);
      assert RowTotals(pivotRows[n], colKeys, rows, row, col, f);
      RowSumIsTotals(pivotRows[n].values, colKeys, group, col, f);
      GroupsAddUp(colKeys, group, col, f);
      GridSumIsTotals(pivotRows[..n], keys[..n], colKeys, rows, row, col, f);
    }
  }

  lemma GridAddsUp(grid: Grid, rows: seq<Row>, row: Row -> string, col: Row -> string, value: Row -> Option<Cell>, fn: AggFunction, f: Row -> real)
    requires IsPivot(grid, rows, row, col, value, fn)
    requires forall r <- grid.pivotRows :: RowTotals(r, grid.colKeys, rows, row, col, f)
    ensures GridSum(grid.pivotRows, grid.colKeys) == Total(rows, f)
  {
    KeysAreTheKeys(rows, row);
    KeysAreTheKeys(rows, col);
    GridSumIsTotals(grid.pivotRows, RowKeys(grid), grid.colKeys, rows, row, col, f);
    GroupsAddUp(RowKeys(grid), rows, row, f);
  }

  /** The count grid sums to the number of rows. */
  lemma CountsAddUp(grid: Grid, rows: seq<Row>, row: Row -> string, col: Row -> string, value: Row -> Option<Cell>)
    requires IsPivot(grid, rows, row, col, value, Count)
    ensures GridSum(grid.pivotRows, grid.colKeys) == |rows| as real
  {
    forall r, ck | r in grid.pivotRows && ck in grid.colKeys
      ensures ck in r.values && r.values[ck].Amount() == Total(CellRows(rows, row, col, r.rowKey, ck), One())
    {
      assert IsPivotRow(r, grid.colKeys, rows, row, col, value, Count);
      TotalOfOnes(CellRows(rows, row, col, r.rowKey, ck));
    }
    GridAddsUp(grid, rows, row, col, value, Count, One());
    TotalOfOnes(rows);
  }

  /** A row's number, or nothing where its value is not one. */
  function AmountBy(value: Row -> Option<Cell>): Row -> real {
    (r: Row) => if NumberOf(value(r)).Some? then NumberOf(value(r)).value else 0.0
  }

  lemma {:induction false} SumOfNumbers(rows: seq<Row>, value: Row -> Option<Cell>)
    ensures Sum(Numbers(ValuesBy(rows, value))) == Total(rows, AmountBy(value))
  {
    if rows != [] {
      SumOfNumbers(rows[..|rows| - 1], value);
      assert ValuesBy(rows, value)[..|rows| - 1] == ValuesBy(rows[..|rows| - 1], value);
    }
  }

  /** The sum grid sums to the sum over all rows, of the values that are numbers. */
  lemma SumsAddUp(grid: Grid, rows: seq<Row>, row: Row -> string, col: Row -> string, value: Row -> Option<Cell>)
    requires IsPivot(grid, rows, row, col, value, Summed)
    ensures GridSum(grid.pivotRows, grid.colKeys) == Total(rows, AmountBy(value))
  {
    forall r, ck | r in grid.pivotRows && ck in grid.colKeys
      ensures ck in r.values && r.values[ck].Amount() == Total(CellRows(rows, row, col, r.rowKey, ck), AmountBy(value))
    {
      assert IsPivotRow(r, grid.colKeys, rows, row, col, value, Summed);
      SumOfNumbers(CellRows(rows, row, col, r.rowKey, ck), value);
    }
    GridAddsUp(grid, rows, row, col, value, Summed, AmountBy(value));
  }
}
