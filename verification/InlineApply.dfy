/** What applying the pending changes does to the table they were read from. */
module InlineApply {
  import opened Options
  import opened Strings
  import opened SqlText
  import opened InlineEdits
  import opened UpdateText

  // ---------------------------------------------------------------------------
  // Tables

  function Assign(sets: seq<(string, Val)>, row: Row): Row {
    if sets == [] then row else Assign(sets[1..], row[sets[0].0 := sets[0].1])
  }

  /** A NULL key equals nothing. */
  predicate Matches(u: Update, row: Row) {
    u.value != Null && u.key in row && row[u.key] == u.value
  }

  function RunUpdate(u: Update, table: seq<Row>): seq<Row> {
    seq(|table|, j requires 0 <= j < |table| => if Matches(u, table[j]) then Assign(u.sets, table[j]) else table[j])
  }

  /** The statements submitted one after another, each as the engine reads it. */
  function RunStatements(statements: seq<Statement>, g: Grammar, table: seq<Row>): Option<seq<Row>> {
    if statements == [] then Some(table)
    else Then(RunStatements(statements[..|statements| - 1], g, table), Meaning(statements[|statements| - 1], g))
  }

  function Then(table: Option<seq<Row>>, update: Option<Update>): Option<seq<Row>> {
    if table.Some? && update.Some? then Some(RunUpdate(update.value, table.value)) else None
  }

  // ---------------------------------------------------------------------------
  // What the user means

  function OverlayCell(row: Row, pending: seq<CellChange>, i: nat, col: string): Val {
    match Lookup(pending, (i, col))
    case Some(change) => change.Stored()
    case None => if col in row then row[col] else Null
  }

  function EditedColumns(pending: seq<CellChange>, i: nat): set<string> {
    set change <- pending | change.rowIndex == i :: change.columnId
  }

  /** Row `i` of the grid with every pending change of it in place, whatever their order. */
  function OverlayRow(row: Row, pending: seq<CellChange>, i: nat): Row {
    map col | col in row.Keys + EditedColumns(pending, i) :: OverlayCell(row, pending, i, col)
  }

  /** The first of `rows` whose grid row has the same key as `row`. */
  function Owner(rows: seq<nat>, grid: seq<Row>, key: string, row: Row): (o: Option<nat>)
    requires forall i | 0 <= i < |rows| :: rows[i] < |grid| && key in grid[rows[i]]
    ensures o.Some? ==> o.value in rows && key in row && grid[o.value][key] == row[key]
    ensures o.None? ==> forall i | 0 <= i < |rows| :: key !in row || grid[rows[i]][key] != row[key]
  {
    if rows == [] then None
    else if key in row && grid[rows[0]][key] == row[key] then Some(rows[0])
    else Owner(rows[1..], grid, key, row)
  }

  /** All pending changes of `rows` at once, laid over whatever rows carry their keys. */
  function Overlay(rows: seq<nat>, grid: seq<Row>, pending: seq<CellChange>, key: string, table: seq<Row>): seq<Row>
    requires forall i | 0 <= i < |rows| :: rows[i] < |grid| && key in grid[rows[i]]
  {
    seq(|table|, j requires 0 <= j < |table| =>
      match Owner(rows, grid, key, table[j])
      case Some(i) => OverlayRow(table[j], pending, i)
      case None => table[j])
  }

  /** The grid as the user sees it with the edits in place. */
  function Intended(grid: seq<Row>, pending: seq<CellChange>): seq<Row> {
    seq(|grid|, j requires 0 <= j < |grid| => OverlayRow(grid[j], pending, j))
  }

  predicate InGrid(pending: seq<CellChange>, grid: seq<Row>) {
    forall change <- pending :: change.rowIndex < |grid|
  }

  /** The statements Apply submits. */
  function Compiled(pending: seq<CellChange>, grid: seq<Row>, name: string, key: string, g: Grammar): seq<Statement>
    requires InGrid(pending, grid)
  {
    var rows := EditedRows(pending);
    assert forall i | 0 <= i < |rows| :: rows[i] in rows;
    CompileRows(rows, grid, pending, name, key, g)
  }

  function Applied(pending: seq<CellChange>, grid: seq<Row>, name: string, key: string, g: Grammar, table: seq<Row>)
    : Option<seq<Row>>
    requires InGrid(pending, grid)
  {
    RunStatements(Compiled(pending, grid, name, key, g), g, table)
  }

  // ---------------------------------------------------------------------------
  // One row's assignments are its overlay

  lemma {:induction false} ChangesOfIs(pending: seq<CellChange>, i: nat)
    ensures forall c :: c in ChangesOf(pending, i) <==> c in pending && c.rowIndex == i
    ensures UniqueCells(pending) ==> UniqueCells(ChangesOf(pending, i))
  {
    if pending != [] {
      var before, last := pending[..|pending| - 1], pending[|pending| - 1];
      ChangesOfIs(before, i);
      assert pending == before + [last];
    }
  }

  lemma {:induction false} AssignKeys(changes: seq<CellChange>, row: Row)
    ensures Assign(SetsOf(changes), row).Keys == row.Keys + (set c <- changes :: c.columnId)
  {
    if changes != [] {
      var first, rest := changes[0], changes[1..];
      AssignKeys(rest, row[first.columnId := first.Stored()]);
      assert changes == [first] + rest;
    }
  }

  lemma {:induction false} AssignElsewhere(changes: seq<CellChange>, row: Row, col: string)
    requires col in row && forall c <- changes :: c.columnId != col
    ensures col in Assign(SetsOf(changes), row) && Assign(SetsOf(changes), row)[col] == row[col]
  {
    if changes != [] {
      AssignElsewhere(changes[1..], row[changes[0].columnId := changes[0].Stored()], col);
    }
  }

  lemma {:induction false} AssignNth(changes: seq<CellChange>, i: nat, row: Row, k: nat)
    requires UniqueCells(changes) && (forall c <- changes :: c.rowIndex == i) && k < |changes|
    ensures
      var row' := Assign(SetsOf(changes), row);
      changes[k].columnId in row' && row'[changes[k].columnId] == changes[k].Stored()
  {
    var first, rest := changes[0], changes[1..];
    var next := row[first.columnId := first.Stored()];
    assert forall m | 0 <= m < |rest| :: rest[m] == changes[m + 1];
    if k == 0 {
      assert forall m | 0 <= m < |rest| :: rest[m].rowIndex == i && rest[m].Cell() != first.Cell();
      AssignElsewhere(rest, next, first.columnId);
    } else {
      AssignNth(rest, i, next, k - 1);
    }
  }

  lemma AssignAt(changes: seq<CellChange>, i: nat, row: Row)
    requires UniqueCells(changes) && forall c <- changes :: c.rowIndex == i
    ensures
      var row' := Assign(SetsOf(changes), row);
      && row'.Keys == row.Keys + (set c <- changes :: c.columnId)
      && (forall c <- changes :: row'[c.columnId] == c.Stored())
      && (forall col <- row.Keys :: (forall c <- changes :: c.columnId != col) ==> row'[col] == row[col])
  {
    AssignKeys(changes, row);
    forall k | 0 <= k < |changes| ensures Assign(SetsOf(changes), row)[changes[k].columnId] == changes[k].Stored() {
      AssignNth(changes, i, row, k);
    }
    forall col <- row.Keys | forall c <- changes :: c.columnId != col
      ensures Assign(SetsOf(changes), row)[col] == row[col]
    {
      AssignElsewhere(changes, row, col);
    }
  }

  lemma LookupIn(pending: seq<CellChange>, i: nat, col: string)
    ensures
      match Lookup(pending, (i, col))
      case Some(change) => change in ChangesOf(pending, i) && change.columnId == col
      case None => forall change <- ChangesOf(pending, i) :: change.columnId != col
  {
    ChangesOfIs(pending, i);
    var k := FindCell(pending, (i, col));
    if k < |pending| {
      assert pending[k] in pending;
    } else {
      forall change | change in ChangesOf(pending, i)
        ensures change.columnId != col
      {
        var m :| 0 <= m < |pending| && pending[m] == change;
        assert pending[m].Cell() != (i, col);
      }
    }
  }

  lemma SameColumns(pending: seq<CellChange>, i: nat, row: Row)
    ensures Assign(SetsOf(ChangesOf(pending, i)), row).Keys == OverlayRow(row, pending, i).Keys
  {
    ChangesOfIs(pending, i);
    AssignKeys(ChangesOf(pending, i), row);
    assert (set c <- ChangesOf(pending, i) :: c.columnId) == EditedColumns(pending, i);
  }

  lemma AssignIsOverlay(pending: seq<CellChange>, i: nat, row: Row)
    requires UniqueCells(pending)
    ensures Assign(SetsOf(ChangesOf(pending, i)), row) == OverlayRow(row, pending, i)
  {
    var l, r := Assign(SetsOf(ChangesOf(pending, i)), row), OverlayRow(row, pending, i);
    SameColumns(pending, i, row);
    forall col | col in l.Keys
      ensures l[col] == r[col]
    {
      AssignedCell(pending, i, row, col);
    }
  }

  lemma AssignedCell(pending: seq<CellChange>, i: nat, row: Row, col: string)
    requires UniqueCells(pending) && col in Assign(SetsOf(ChangesOf(pending, i)), row)
    ensures Assign(SetsOf(ChangesOf(pending, i)), row)[col] == OverlayCell(row, pending, i, col)
  {
    ChangesOfIs(pending, i);
    AssignAt(ChangesOf(pending, i), i, row);
    LookupIn(pending, i, col);
  }

  // ---------------------------------------------------------------------------
  // Running the statements

  /** The edited rows can be told apart by their keys. */
  predicate KeysDistinct(rows: seq<nat>, grid: seq<Row>, key: string) {
    && (forall i | 0 <= i < |rows| :: rows[i] < |grid| && key in grid[rows[i]] && grid[rows[i]][key] != Null)
    && (forall i, j | 0 <= i < j < |rows| :: grid[rows[i]][key] != grid[rows[j]][key])
  }

  /** No change writes a key that a row edited after it still goes by. */
  predicate NoKeyTaken(rows: seq<nat>, grid: seq<Row>, pending: seq<CellChange>, key: string)
    requires KeysDistinct(rows, grid, key)
  {
    forall i, j | 0 <= i < j < |rows| ::
      Lookup(pending, (rows[i], key)).Some? ==>
        Lookup(pending, (rows[i], key)).value.Stored() != grid[rows[j]][key]
  }

  lemma {:induction false} OwnerSnoc(rows: seq<nat>, last: nat, grid: seq<Row>, key: string, row: Row)
    requires forall i | 0 <= i < |rows| :: rows[i] < |grid| && key in grid[rows[i]]
    requires last < |grid| && key in grid[last]
    ensures
      var before, all := Owner(rows, grid, key, row), rows + [last];
      Owner(all, grid, key, row) == if before.Some? then before
                                    else if key in row && grid[last][key] == row[key] then Some(last) else None
  {
    var all := rows + [last];
    if rows == [] {
      assert all[1..] == [];
    } else {
      assert all[1..] == rows[1..] + [last];
      OwnerSnoc(rows[1..], last, grid, key, row);
    }
  }

  /** An overlaid row no longer goes by the key of a row edited later. */
  lemma OverlaidKey(rows: seq<nat>, last: nat, grid: seq<Row>, pending: seq<CellChange>, key: string, row: Row)
    requires KeysDistinct(rows + [last], grid, key) && NoKeyTaken(rows + [last], grid, pending, key)
    requires forall i | 0 <= i < |rows| :: rows[i] < |grid| && key in grid[rows[i]]
    requires last < |grid| && key in grid[last] && Owner(rows, grid, key, row).Some?
    ensures
      var overlaid := OverlayRow(row, pending, Owner(rows, grid, key, row).value);
      key in overlaid && overlaid[key] != grid[last][key]
  {
    var all, owner := rows + [last], Owner(rows, grid, key, row).value;
    var i :| 0 <= i < |rows| && rows[i] == owner;
    assert all[i] == owner && all[|rows|] == last;
  }

  lemma RunLast(rows: seq<nat>, last: nat, grid: seq<Row>, pending: seq<CellChange>, key: string,
                name: string, table: seq<Row>)
    requires KeysDistinct(rows + [last], grid, key) && NoKeyTaken(rows + [last], grid, pending, key)
    requires forall i | 0 <= i < |rows| :: rows[i] < |grid| && key in grid[rows[i]]
    requires UniqueCells(pending) && last < |grid| && key in grid[last] && grid[last][key] != Null
    ensures
      var u := Update(name, SetsOf(ChangesOf(pending, last)), key, grid[last][key]);
      RunUpdate(u, Overlay(rows, grid, pending, key, table)) == Overlay(rows + [last], grid, pending, key, table)
  {
    var u := Update(name, SetsOf(ChangesOf(pending, last)), key, grid[last][key]);
    var before, after := Overlay(rows, grid, pending, key, table), Overlay(rows + [last], grid, pending, key, table);
    forall j | 0 <= j < |table|
      ensures RunUpdate(u, before)[j] == after[j]
    {
      OwnerSnoc(rows, last, grid, key, table[j]);
      if Owner(rows, grid, key, table[j]).Some? {
        OverlaidKey(rows, last, grid, pending, key, table[j]);
      } else {
        AssignIsOverlay(pending, last, table[j]);
      }
    }
  }

  lemma PrefixKeys(rows: seq<nat>, last: nat, grid: seq<Row>, pending: seq<CellChange>, key: string)
    requires KeysDistinct(rows + [last], grid, key) && NoKeyTaken(rows + [last], grid, pending, key)
    ensures KeysDistinct(rows, grid, key) && NoKeyTaken(rows, grid, pending, key)
    ensures last < |grid| && key in grid[last] && grid[last][key] != Null
  {
    var all := rows + [last];
    assert all[|rows|] == last;
    assert forall i | 0 <= i < |rows| :: all[i] == rows[i];
  }

  lemma RunSnoc(statements: seq<Statement>, last: Statement, g: Grammar, table: seq<Row>, table': seq<Row>, u: Update)
    requires RunStatements(statements, g, table) == Some(table') && Meaning(last, g) == Some(u)
    ensures RunStatements(statements + [last], g, table) == Some(RunUpdate(u, table'))
  {
    var all := statements + [last];
    assert all[..|all| - 1] == statements && all[|all| - 1] == last;
    assert RunStatements(all, g, table) == Then(RunStatements(statements, g, table), Meaning(last, g));
  }

  lemma {:induction false} ApplyRows(rows: seq<nat>, grid: seq<Row>, pending: seq<CellChange>, key: string,
                                     name: string, g: Grammar, table: seq<Row>)
    requires WellFormed(g) && IsBareIdentifier(name) && UniqueCells(pending)
    requires KeysDistinct(rows, grid, key) && NoKeyTaken(rows, grid, pending, key)
    requires forall r <- rows :: ChangesOf(pending, r) != []
    ensures RunStatements(CompileRows(rows, grid, pending, name, key, g), g, table)
         == Some(Overlay(rows, grid, pending, key, table))
  {
    if rows == [] {
      assert Overlay(rows, grid, pending, key, table) == table;
    } else {
      var before, last := rows[..|rows| - 1], rows[|rows| - 1];
      assert rows == before + [last];
      PrefixKeys(before, last, grid, pending, key);
      ApplyRows(before, grid, pending, key, name, g, table);
      StatementMeans(name, key, grid[last], ChangesOf(pending, last), g);
      RunLast(before, last, grid, pending, key, name, table);
      var changes := ChangesOf(pending, last);
      RunSnoc(CompileRows(before, grid, pending, name, key, g), Compile(name, key, grid[last], changes, g), g,
              table, Overlay(before, grid, pending, key, table), Update(name, SetsOf(changes), key, grid[last][key]));
    }
  }

  /**
   Submitting the generated statements one after another is laying all pending changes over
   the table at once, on every table, whenever the edited rows have distinct keys that are
   not NULL and no change of a key collides with a row edited after it.
   */
  lemma ApplyIsOverlay(pending: seq<CellChange>, grid: seq<Row>, name: string, key: string, g: Grammar, table: seq<Row>)
    requires WellFormed(g) && IsBareIdentifier(name) && UniqueCells(pending) && InGrid(pending, grid)
    requires KeysDistinct(EditedRows(pending), grid, key)
    requires NoKeyTaken(EditedRows(pending), grid, pending, key)
    ensures Applied(pending, grid, name, key, g, table)
         == Some(Overlay(EditedRows(pending), grid, pending, key, table))
  {
    forall r | r in EditedRows(pending)
      ensures ChangesOf(pending, r) != []
    {
      var c :| c in pending && c.rowIndex == r;
      ChangesOfIs(pending, r);
      assert c in ChangesOf(pending, r);
    }
    ApplyRows(EditedRows(pending), grid, pending, key, name, g, table);
  }

  // ---------------------------------------------------------------------------
  // When the detected key column is good enough

  /** Every row of the grid has a key of its own. */
  predicate KeysIdentify(grid: seq<Row>, key: string) {
    && (forall i | 0 <= i < |grid| :: key in grid[i] && grid[i][key] != Null)
    && (forall i, j | 0 <= i < j < |grid| :: key in grid[i] && key in grid[j] ==> grid[i][key] != grid[j][key])
  }

  /** The text a cell shows; NULL shows none. */
  function Shown(v: Val): Option<string> {
    match v
    case Null => None
    case Num(text) => Some(text)
    case Text(value) => Some(value)
  }

  /** An edit of a cell the grid has, to a text it does not show. */
  predicate EditsCell(c: CellChange, grid: seq<Row>) {
    && c.rowIndex < |grid| && c.columnId in grid[c.rowIndex]
    && c.originalValue == Shown(grid[c.rowIndex][c.columnId]) && c.Real()
  }

  /** Pending changes of this grid's cells that leave the key column alone. */
  ghost predicate Editable(pending: seq<CellChange>, grid: seq<Row>, key: string) {
    UniqueCells(pending) && forall c <- pending :: EditsCell(c, grid) && c.columnId != key
  }

  /** The row's key is there, is not NULL, and is no other row's. */
  predicate RowTold(grid: seq<Row>, key: string, i: nat) {
    && i < |grid| && key in grid[i] && grid[i][key] != Null
    && forall j | 0 <= j < |grid| && j != i && key in grid[j] :: grid[j][key] != grid[i][key]
  }

  lemma NoCell(pending: seq<CellChange>, cell: (nat, string))
    requires forall c <- pending :: c.Cell() != cell
    ensures Lookup(pending, cell) == None
  {
  }

  lemma UneditedRow(pending: seq<CellChange>, row: Row, j: nat)
    requires j !in EditedRows(pending)
    ensures OverlayRow(row, pending, j) == row
  {
    assert EditedColumns(pending, j) == {};
    forall col | col in row
      ensures OverlayCell(row, pending, j, col) == row[col]
    {
      assert forall c <- pending :: c.rowIndex in EditedRows(pending);
      NoCell(pending, (j, col));
    }
  }

  lemma OwnerOfTold(rows: seq<nat>, grid: seq<Row>, key: string, j: nat)
    requires (forall r <- rows :: RowTold(grid, key, r)) && j < |grid|
    requires forall k | 0 <= k < |rows| :: rows[k] < |grid| && key in grid[rows[k]]
    ensures Owner(rows, grid, key, grid[j]) == if j in rows then Some(j) else None
  {
    var owner := Owner(rows, grid, key, grid[j]);
    if owner.Some? {
      assert RowTold(grid, key, owner.value);
    } else {
      assert forall k | 0 <= k < |rows| :: rows[k] != j;
    }
  }

  lemma OverlayIsIntended(pending: seq<CellChange>, grid: seq<Row>, key: string)
    requires forall r <- EditedRows(pending) :: RowTold(grid, key, r)
    requires forall k | 0 <= k < |EditedRows(pending)| :: EditedRows(pending)[k] < |grid| && key in grid[EditedRows(pending)[k]]
    ensures Overlay(EditedRows(pending), grid, pending, key, grid) == Intended(grid, pending)
  {
    var rows := EditedRows(pending);
    forall j | 0 <= j < |grid|
      ensures Overlay(rows, grid, pending, key, grid)[j] == Intended(grid, pending)[j]
    {
      OwnerOfTold(rows, grid, key, j);
      if j !in rows {
        UneditedRow(pending, grid[j], j);
      }
    }
  }

  lemma EditedKeysDistinct(pending: seq<CellChange>, grid: seq<Row>, key: string)
    requires Editable(pending, grid, key) && forall r <- EditedRows(pending) :: RowTold(grid, key, r)
    ensures KeysDistinct(EditedRows(pending), grid, key)
    ensures NoKeyTaken(EditedRows(pending), grid, pending, key)
  {
    var rows := EditedRows(pending);
    assert forall i | 0 <= i < |rows| :: rows[i] in rows && RowTold(grid, key, rows[i]);
    forall i | 0 <= i < |rows|
      ensures Lookup(pending, (rows[i], key)).None?
    {
      NoCell(pending, (rows[i], key));
    }
  }

  /** Applying edits does what the grid shows wherever each edited row can be told by its key. */
  lemma AppliesAsIntended(pending: seq<CellChange>, grid: seq<Row>, name: string, key: string, g: Grammar)
    requires WellFormed(g) && IsBareIdentifier(name)
    requires Editable(pending, grid, key) && forall r <- EditedRows(pending) :: RowTold(grid, key, r)
    ensures Applied(pending, grid, name, key, g, grid) == Some(Intended(grid, pending))
  {
    assert InGrid(pending, grid);
    EditedKeysDistinct(pending, grid, key);
    ApplyIsOverlay(pending, grid, name, key, g, grid);
    OverlayIsIntended(pending, grid, key);
  }

  /** A text that is neither of two. */
  function Other(a: Option<string>, b: Option<string>): (r: string)
    ensures Some(r) != a && Some(r) != b && r != "" && Upper(r) != "NULL"
  {
    var r := if Some("a") != a && Some("a") != b then "a" else if Some("b") != a && Some("b") != b then "b" else "c";
    assert "a"[0] == 'a' && "b"[0] == 'b' && "c"[0] == 'c';
    assert |Upper(r)| == 1;
    r
  }

  lemma SingleEdit(grid: seq<Row>, c: CellChange, name: string, key: string, g: Grammar)
    requires WellFormed(g) && IsBareIdentifier(name) && c.rowIndex < |grid|
    ensures Applied([c], grid, name, key, g, grid)
         == Some(RunUpdate(Update(name, [(c.columnId, c.Stored())], key, KeyValue(grid[c.rowIndex], key)), grid))
  {
    var i := c.rowIndex;
    OneChange(c);
    StatementMeans(name, key, grid[i], [c], g);
    var statement := Compile(name, key, grid[i], [c], g);
    OneRow(i, grid, [c], name, key, g);
    RunSnoc([], statement, g, grid, grid, Update(name, SetsOf([c]), key, KeyValue(grid[i], key)));
    assert [] + [statement] == [statement];
  }

  lemma OneChange(c: CellChange)
    ensures EditedRows([c]) == [c.rowIndex] && ChangesOf([c], c.rowIndex) == [c]
    ensures SetsOf([c]) == [(c.columnId, c.Stored())]
  {
    assert [c][..0] == [] && [c][1..] == [];
    assert EditedRows([]) == [] && ChangesOf([], c.rowIndex) == [];
  }

  lemma OneRow(i: nat, grid: seq<Row>, pending: seq<CellChange>, name: string, key: string, g: Grammar)
    requires i < |grid|
    ensures CompileRows([i], grid, pending, name, key, g) == [Compile(name, key, grid[i], ChangesOf(pending, i), g)]
  {
    assert [i][..0] == [];
    assert CompileRows([], grid, pending, name, key, g) == [];
  }

  /** A cell of row `i` is edited, to a value row `j` does not hold in that column. */
  function TestEdit(grid: seq<Row>, i: nat, j: nat, col: string): (c: CellChange)
    requires i < |grid| && j < |grid| && col in grid[i]
    ensures c.Cell() == (i, col) && EditsCell(c, grid) && c.Stored() == Text(c.newValue)
    ensures col in grid[j] ==> grid[j][col] != c.Stored()
  {
    var there := if col in grid[j] then Shown(grid[j][col]) else None;
    CellChange(i, col, Shown(grid[i][col]), Other(Shown(grid[i][col]), there))
  }

  /** A row without a key value is missed by its own statement, whichever of its cells is edited. */
  lemma NullKeyIsMissed(grid: seq<Row>, i: nat, col: string, name: string, key: string, g: Grammar)
    returns (pending: seq<CellChange>)
    requires WellFormed(g) && IsBareIdentifier(name) && i < |grid| && col in grid[i] && col != key
    requires key !in grid[i] || grid[i][key] == Null
    ensures Editable(pending, grid, key)
    ensures Applied(pending, grid, name, key, g, grid) != Some(Intended(grid, pending))
  {
    var c := TestEdit(grid, i, i, col);
    pending := [c];
    SingleEdit(grid, c, name, key, g);
    NullKeyUntouched(Update(name, [(c.columnId, c.Stored())], key, KeyValue(grid[i], key)), grid, i);
    IntendedHolds(grid, c);
  }

  lemma NullKeyUntouched(u: Update, table: seq<Row>, i: nat)
    requires i < |table| && (u.key !in table[i] || table[i][u.key] == Null)
    ensures RunUpdate(u, table)[i] == table[i]
  {
  }

  /** The edited cell of the grid as the user sees it. */
  lemma IntendedHolds(grid: seq<Row>, c: CellChange)
    requires c.rowIndex < |grid|
    ensures
      var row := Intended(grid, [c])[c.rowIndex];
      c.columnId in row && row[c.columnId] == c.Stored()
  {
    assert c in [c] && c.columnId in EditedColumns([c], c.rowIndex);
    assert Lookup([c], (c.rowIndex, c.columnId)) == Some(c);
  }

  /** A statement for a row reaches every other row that shares its key, whichever of its cells is edited. */
  lemma SharedKeySpreads(grid: seq<Row>, i: nat, j: nat, col: string, name: string, key: string, g: Grammar)
    returns (pending: seq<CellChange>)
    requires WellFormed(g) && IsBareIdentifier(name) && i < |grid| && j < |grid| && i != j && col in grid[i] && col != key
    requires key in grid[i] && key in grid[j] && grid[i][key] == grid[j][key] != Null
    ensures Editable(pending, grid, key)
    ensures Applied(pending, grid, name, key, g, grid) != Some(Intended(grid, pending))
  {
    var c := TestEdit(grid, i, j, col);
    pending := [c];
    SingleEdit(grid, c, name, key, g);
    OtherRowIsTaken(Update(name, [(c.columnId, c.Stored())], key, KeyValue(grid[i], key)), grid, j, c.columnId, c.Stored());
    OtherRowAsShown(grid, c, j);
  }

  lemma OtherRowIsTaken(u: Update, table: seq<Row>, j: nat, col: string, v: Val)
    requires u.sets == [(col, v)] && j < |table| && Matches(u, table[j]) && (col in table[j] ==> table[j][col] != v)
    ensures RunUpdate(u, table)[j] != table[j]
  {
    AssignOne(col, v, table[j]);
    assert RunUpdate(u, table)[j] == table[j][col := v];
  }

  /** A row that was not edited is shown as it is. */
  lemma OtherRowAsShown(grid: seq<Row>, c: CellChange, j: nat)
    requires j < |grid| && j != c.rowIndex
    ensures Intended(grid, [c])[j] == grid[j]
  {
    assert j !in EditedRows([c]);
    UneditedRow([c], grid[j], j);
  }

  lemma AssignOne(col: string, value: Val, row: Row)
    ensures Assign([(col, value)], row) == row[col := value]
  {
    assert [(col, value)][1..] == [];
  }

  /** The row has a cell that can be edited without touching its key. */
  predicate CanEdit(grid: seq<Row>, key: string, i: nat) {
    i < |grid| && exists col <- grid[i] :: col != key
  }

  /**
   Applying edits does what the grid shows, for every list of edits of its cells that leaves the
   key column alone, if and only if each row with such a cell can be told by its key.
   */
  lemma AppliesAsIntendedIff(grid: seq<Row>, name: string, key: string, g: Grammar)
    requires WellFormed(g) && IsBareIdentifier(name)
    ensures (forall i | CanEdit(grid, key, i) :: RowTold(grid, key, i)) <==>
            forall pending | Editable(pending, grid, key) ::
              Applied(pending, grid, name, key, g, grid) == Some(Intended(grid, pending))
  {
    if forall i | CanEdit(grid, key, i) :: RowTold(grid, key, i) {
      forall pending | Editable(pending, grid, key)
        ensures Applied(pending, grid, name, key, g, grid) == Some(Intended(grid, pending))
      {
        EditedCanEdit(pending, grid, key);
        AppliesAsIntended(pending, grid, name, key, g);
      }
    } else {
      var i :| CanEdit(grid, key, i) && !RowTold(grid, key, i);
      var pending := UntoldRowFails(grid, i, name, key, g);
    }
  }

  lemma EditedCanEdit(pending: seq<CellChange>, grid: seq<Row>, key: string)
    requires Editable(pending, grid, key)
    ensures forall r <- EditedRows(pending) :: CanEdit(grid, key, r)
  {
    forall r | r in EditedRows(pending) ensures CanEdit(grid, key, r) {
      var c :| c in pending && c.rowIndex == r;
      assert EditsCell(c, grid);
    }
  }

  lemma UntoldRowFails(grid: seq<Row>, i: nat, name: string, key: string, g: Grammar)
    returns (pending: seq<CellChange>)
    requires WellFormed(g) && IsBareIdentifier(name) && CanEdit(grid, key, i) && !RowTold(grid, key, i)
    ensures Editable(pending, grid, key)
    ensures Applied(pending, grid, name, key, g, grid) != Some(Intended(grid, pending))
  {
    var col :| col in grid[i] && col != key;
    if key !in grid[i] || grid[i][key] == Null {
      pending := NullKeyIsMissed(grid, i, col, name, key, g);
    } else {
      var j :| 0 <= j < |grid| && j != i && key in grid[j] && grid[j][key] == grid[i][key];
      pending := SharedKeySpreads(grid, i, j, col, name, key, g);
    }
  }

  /** Where every row has the fields of the result, that is: there is no field but the key, or the key tells all rows apart. */
  lemma ResultAppliesAsIntendedIff(fields: set<string>, grid: seq<Row>, name: string, key: string, g: Grammar)
    requires WellFormed(g) && IsBareIdentifier(name) && forall row <- grid :: row.Keys == fields
    ensures (fields <= {key} || KeysIdentify(grid, key)) <==>
            forall pending | Editable(pending, grid, key) ::
              Applied(pending, grid, name, key, g, grid) == Some(Intended(grid, pending))
  {
    AppliesAsIntendedIff(grid, name, key, g);
    if fields <= {key} {
      assert forall i | 0 <= i < |grid| :: grid[i] in grid && !CanEdit(grid, key, i);
    } else {
      var col :| col in fields && col != key;
      forall i | 0 <= i < |grid| ensures CanEdit(grid, key, i) {
        assert grid[i] in grid && col in grid[i];
      }
      ToldApart(grid, key);
    }
  }

  lemma ToldApart(grid: seq<Row>, key: string)
    ensures KeysIdentify(grid, key) <==> forall i | 0 <= i < |grid| :: RowTold(grid, key, i)
  {
    if forall i | 0 <= i < |grid| :: RowTold(grid, key, i) {
      forall i, j | 0 <= i < j < |grid| && key in grid[i] && key in grid[j]
        ensures grid[i][key] != grid[j][key]
      {
        assert RowTold(grid, key, i);
      }
      assert forall i | 0 <= i < |grid| :: RowTold(grid, key, i) ==> key in grid[i] && grid[i][key] != Null;
    }
  }

  /**
   When keys are edited too: the statement of row `last` reaches a row edited before it if and
   only if that row's edit took the key `last` still goes by.
   */
  lemma ReachesIffKeyTaken(rows: seq<nat>, last: nat, grid: seq<Row>, pending: seq<CellChange>, key: string, i: nat)
    requires KeysIdentify(grid, key) && InGrid(pending, grid) && i in rows && last !in rows && last < |grid|
    requires forall k | 0 <= k < |rows| :: rows[k] < |grid|
    requires UniqueCells(pending)
    ensures i < |grid|
    ensures
      var u := Update("", SetsOf(ChangesOf(pending, last)), key, KeyValue(grid[last], key));
      Matches(u, Overlay(rows, grid, pending, key, grid)[i]) <==>
        exists c <- pending :: c.Cell() == (i, key) && c.Stored() == grid[last][key]
  {
    OwnRow(rows, grid, key, i);
    KeyLaidOver(grid[i], pending, i, key, grid[last][key]);
    assert Overlay(rows, grid, pending, key, grid)[i] == OverlayRow(grid[i], pending, i);
  }

  /** The key of an overlaid row is another value exactly where an edit put that value there. */
  lemma KeyLaidOver(row: Row, pending: seq<CellChange>, i: nat, key: string, v: Val)
    requires UniqueCells(pending) && key in row && v != row[key]
    ensures key in OverlayRow(row, pending, i)
    ensures OverlayRow(row, pending, i)[key] == v <==> exists c <- pending :: c.Cell() == (i, key) && c.Stored() == v
  {
    var found := FindCell(pending, (i, key));
    if found == |pending| {
      NoCell(pending, (i, key));
      assert forall c <- pending :: c.Cell() != (i, key);
    } else {
      OnlyCell(pending, (i, key));
      assert OverlayRow(row, pending, i)[key] == pending[found].Stored() && pending[found] in pending;
    }
  }

  lemma OwnRow(rows: seq<nat>, grid: seq<Row>, key: string, i: nat)
    requires KeysIdentify(grid, key) && i in rows && forall k | 0 <= k < |rows| :: rows[k] < |grid|
    ensures i < |grid| && Owner(rows, grid, key, grid[i]) == Some(i)
  {
    var k :| 0 <= k < |rows| && rows[k] == i;
    assert Owner(rows, grid, key, grid[i]).Some?;
    assert Owner(rows, grid, key, grid[i]).value in rows;
  }

  lemma OnlyCell(pending: seq<CellChange>, cell: (nat, string))
    requires UniqueCells(pending) && FindCell(pending, cell) < |pending|
    ensures forall c <- pending :: c.Cell() == cell <==> c == pending[FindCell(pending, cell)]
  {
    forall c | c in pending && c.Cell() == cell
      ensures c == pending[FindCell(pending, cell)]
    {
      var m :| 0 <= m < |pending| && pending[m] == c;
      LookupAt(pending, m);
    }
  }
}
