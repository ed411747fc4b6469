/** `useInlineEditing` itself. */
module InlineHook {
  import opened Options
  import opened Sequences
  import opened Strings
  import opened SqlText
  import opened InlineEdits
  import opened UpdateText
  import opened InlineApply

  /** What Apply came to; `MissingRow` is the TypeError of a change whose row is gone. */
  datatype Outcome =
    | Skipped
    | NoKeyColumn
    | NoTableName
    | MissingRow
    | Submitted(statements: seq<Statement>)

  datatype Result = Result(fields: seq<string>, rows: seq<Row>)

  ghost predicate ByRow(order: seq<nat>, changesByRow: map<nat, seq<CellChange>>, pending: seq<CellChange>) {
    && order == EditedRows(pending)
    && (forall r :: r in changesByRow <==> r in order)
    && forall r <- changesByRow :: changesByRow[r] == ChangesOf(pending, r)
  }

  lemma {:induction false} NoChangesElsewhere(pending: seq<CellChange>, row: nat)
    requires row !in EditedRows(pending)
    ensures ChangesOf(pending, row) == []
  {
    if pending != [] {
      NoChangesElsewhere(pending[..|pending| - 1], row);
    }
  }

  lemma ChangeJoinsItsRow(order: seq<nat>, changesByRow: map<nat, seq<CellChange>>, pending: seq<CellChange>, change: CellChange)
    requires ByRow(order, changesByRow, pending)
    ensures
      var row := change.rowIndex;
      if row in changesByRow then ByRow(order, changesByRow[row := changesByRow[row] + [change]], pending + [change])
      else ByRow(order + [row], changesByRow[row := [] + [change]], pending + [change])
  {
    assert (pending + [change])[..|pending|] == pending;
    if change.rowIndex !in order {
      NoChangesElsewhere(pending, change.rowIndex);
    }
  }

  lemma RowIsCompiled(rows: seq<nat>, k: nat, grid: seq<Row>, pending: seq<CellChange>, table: string, key: string, g: Grammar)
    requires k < |rows| && forall i | 0 <= i <= k :: rows[i] < |grid|
    ensures CompileRows(rows[..k + 1], grid, pending, table, key, g)
         == CompileRows(rows[..k], grid, pending, table, key, g)
            + [Compile(table, key, grid[rows[k]], ChangesOf(pending, rows[k]), g)]
  {
    assert rows[..k + 1][..k] == rows[..k];
  }

  lemma RowIsMissing(pending: seq<CellChange>, grid: seq<Row>, row: nat)
    requires row in EditedRows(pending) && row >= |grid|
    ensures !InGrid(pending, grid)
  {
  }

  lemma AllRowsAreThere(pending: seq<CellChange>, grid: seq<Row>, table: string, key: string, g: Grammar)
    requires forall i | 0 <= i < |EditedRows(pending)| :: EditedRows(pending)[i] < |grid|
    ensures InGrid(pending, grid)
    ensures Compiled(pending, grid, table, key, g) == CompileRows(EditedRows(pending), grid, pending, table, key, g)
  {
    assert forall c <- pending :: c.rowIndex in EditedRows(pending);
  }

  lemma OneMoreEdit(history: seq<CellChange>, change: CellChange)
    ensures Pending(history + [change]) == Edited(Pending(history), change)
  {
    assert (history + [change])[..|history|] == history;
  }

  lemma PendingCellsAreUnique(history: seq<CellChange>)
    ensures UniqueCells(Pending(history))
  {
    PendingIsMap(history);
  }

  class InlineEditing {
    var editingEnabled: bool
    var pendingChanges: seq<CellChange>
    /** Every cell edit since the list was last cleared. */
    ghost var history: seq<CellChange>
    /** While Apply awaits its requests: the list it submitted, and the edits made since. */
    ghost var applying: bool
    ghost var sent: seq<CellChange>
    ghost var base: seq<CellChange>
    ghost var since: seq<CellChange>

    ghost predicate Valid()
      reads this
    {
      && pendingChanges == Pending(history)
      && (applying ==> history == base + since && UniqueCells(sent) && (base == [] || Pending(base) == sent))
    }

    constructor ()
      ensures Valid() && history == [] && !editingEnabled && !applying
    {
      editingEnabled, pendingChanges, history := false, [], [];
      applying, sent, base, since := false, [], [], [];
    }

    method HandleCellChange(change: CellChange)
      requires Valid()
      modifies this`pendingChanges, this`history, this`since
      ensures Valid() && history == old(history) + [change] && since == old(since) + [change]
    {
      OneMoreEdit(history, change);
      Assoc(base, since, [change]);
      pendingChanges := Edited(pendingChanges, change);
      history := history + [change];
      since := since + [change];
    }

    method HandleDiscardChanges()
      requires Valid()
      modifies this`pendingChanges, this`history, this`base, this`since
      ensures Valid() && history == [] && since == []
    {
      pendingChanges, history, base, since := [], [], [], [];
    }

    /** Groups the pending changes by row, in the order the rows were first edited. */
    method GroupByRow() returns (order: seq<nat>, changesByRow: map<nat, seq<CellChange>>)
      ensures ByRow(order, changesByRow, pendingChanges)
    {
      order, changesByRow := [], map[];
      for k := 0 to |pendingChanges|
        invariant ByRow(order, changesByRow, pendingChanges[..k])
      {
        var change := pendingChanges[k];
        assert pendingChanges[..k + 1] == pendingChanges[..k] + [change];
        ChangeJoinsItsRow(order, changesByRow, pendingChanges[..k], change);
        var existing := if change.rowIndex in changesByRow then changesByRow[change.rowIndex] else [];
        if change.rowIndex !in changesByRow {
          order := order + [change.rowIndex];
        }
        changesByRow := changesByRow[change.rowIndex := existing + [change]];
      }
      assert pendingChanges[..|pendingChanges|] == pendingChanges;
    }

    /** One statement per edited row; `None` where a change's row is gone. */
    method BuildStatements(order: seq<nat>, changesByRow: map<nat, seq<CellChange>>, grid: seq<Row>,
                           tableName: string, key: string, g: Grammar)
      returns (statements: Option<seq<Statement>>)
      requires ByRow(order, changesByRow, pendingChanges)
      ensures statements ==
              if InGrid(pendingChanges, grid) then Some(Compiled(pendingChanges, grid, tableName, key, g)) else None
    {
      var built: seq<Statement> := [];
      for k := 0 to |order|
        invariant forall i | 0 <= i < k :: order[i] < |grid|
        invariant built == CompileRows(order[..k], grid, pendingChanges, tableName, key, g)
      {
        var row := order[k];
        assert row in order;
        if row >= |grid| {
          RowIsMissing(pendingChanges, grid, row);
          return None;
        }
        RowIsCompiled(order, k, grid, pendingChanges, tableName, key, g);
        built := built + [Compile(tableName, key, grid[row], changesByRow[row], g)];
      }
      assert order[..|order|] == order;
      AllRowsAreThere(pendingChanges, grid, tableName, key, g);
      statements := Some(built);
    }

    ghost method AwaitRequests()
      requires Valid() && !applying
      modifies this`applying, this`sent, this`base, this`since
      ensures Valid() && applying && sent == pendingChanges && since == []
    {
      PendingCellsAreUnique(history);
      applying, sent, base, since := true, pendingChanges, history, [];
      assert history == base + [];
    }

    /**
     Apply up to its first request: the statements it goes on to submit mean, for every table, all
     pending changes laid over it at once, as far as the edited rows can be told apart by the key.
     */
    method BeginApply(dialect: Option<Dialect>, result: Option<Result>, tableName: string)
      returns (outcome: Outcome)
      requires Valid() && !applying
      modifies this`applying, this`sent, this`base, this`since
      ensures
        var pending, key := pendingChanges, if result.Some? then FindKeyColumn(result.value.fields) else None;
        if dialect.None? || result.None? || pending == [] then outcome == Skipped
        else if key.None? then outcome == NoKeyColumn
        else if !IsBareIdentifier(tableName) then outcome == NoTableName
        else if !InGrid(pending, result.value.rows) then outcome == MissingRow
        else
          && outcome == Submitted(
               Compiled(pending, result.value.rows, tableName, key.value, GrammarOf(dialect.value)))
          && MeansOverlay(outcome.statements, pending, result.value.rows, key.value, GrammarOf(dialect.value))
      ensures Valid() && (applying <==> outcome.Submitted?)
      ensures applying ==> sent == pendingChanges && since == []
    {
      if dialect.None? || result.None? || pendingChanges == [] { return Skipped; }
      var pkColumn := FindKeyColumn(result.value.fields);
      if pkColumn.None? { return NoKeyColumn; }
      var order, changesByRow := GroupByRow();
      if !IsBareIdentifier(tableName) { return NoTableName; }

      var grid, key, g := result.value.rows, pkColumn.value, GrammarOf(dialect.value);
      var statements := BuildStatements(order, changesByRow, grid, tableName, key, g);
      if statements.None? { return MissingRow; }
      PendingCellsAreUnique(history);
      SubmittedMeansOverlay(pendingChanges, grid, tableName, key, g);
      AwaitRequests();
      outcome := Submitted(statements.value);
    }

    /**
     The rest of Apply, once the last request has answered: the list is cleared, with every change
     in it that was made since and never submitted.
     */
    method FinishApply()
      requires Valid() && applying
      modifies this
      ensures Valid() && !applying && pendingChanges == [] && history == [] && !editingEnabled
      ensures forall c | c !in old(sent) :: c in old(pendingChanges) <==> MadeSince(old(since), c)
      ensures old(since) == [] ==> forall c <- old(pendingChanges) :: c in old(sent)
    {
      LostIff(base, since, sent);
      pendingChanges, history, editingEnabled, applying := [], [], false, false;
    }

    /** Apply with no edit during its requests. */
    method HandleApplyChanges(dialect: Option<Dialect>, result: Option<Result>, tableName: string)
      returns (outcome: Outcome)
      requires Valid() && !applying
      modifies this
      ensures
        var pending, key := old(pendingChanges), if result.Some? then FindKeyColumn(result.value.fields) else None;
        if dialect.None? || result.None? || pending == [] then outcome == Skipped
        else if key.None? then outcome == NoKeyColumn
        else if !IsBareIdentifier(tableName) then outcome == NoTableName
        else if !InGrid(pending, result.value.rows) then outcome == MissingRow
        else
          && outcome == Submitted(
               Compiled(pending, result.value.rows, tableName, key.value, GrammarOf(dialect.value)))
          && MeansOverlay(outcome.statements, pending, result.value.rows, key.value, GrammarOf(dialect.value))
      ensures Valid() && !applying
      ensures if outcome.Submitted? then pendingChanges == [] && !editingEnabled
              else pendingChanges == old(pendingChanges) && editingEnabled == old(editingEnabled)
    {
      outcome := BeginApply(dialect, result, tableName);
      if outcome.Submitted? {
        FinishApply();
      }
    }
  }

  // ---------------------------------------------------------------------------
  // Edits made while Apply awaits its requests

  /** The change is the last edit of its cell made since, and a real one. */
  predicate MadeSince(since: seq<CellChange>, c: CellChange) {
    LastEdit(since, c.Cell()) == Some(c) && c.Real()
  }

  lemma {:induction false} LastEditOfBoth(base: seq<CellChange>, since: seq<CellChange>, cell: (nat, string))
    ensures LastEdit(base + since, cell) ==
      if LastEdit(since, cell).Some? then LastEdit(since, cell) else LastEdit(base, cell)
  {
    if since == [] {
      assert base + since == base;
    } else {
      LastEditOfBoth(base, since[..|since| - 1], cell);
      assert (base + since)[..|base + since| - 1] == base + since[..|since| - 1];
    }
  }

  lemma InListIff(list: seq<CellChange>, c: CellChange)
    requires UniqueCells(list)
    ensures c in list <==> Lookup(list, c.Cell()) == Some(c)
  {
    if c in list {
      var i :| 0 <= i < |list| && list[i] == c;
      LookupAt(list, i);
    }
  }

  lemma InPendingIff(history: seq<CellChange>, c: CellChange)
    ensures c in Pending(history) <==> MadeSince(history, c)
  {
    PendingIsMap(history);
    InListIff(Pending(history), c);
  }

  /**
   A change that was not submitted is in the list that Apply clears at its end if and only if it
   was made while Apply awaited its requests; a discard in between empties `base`.
   */
  lemma LostIff(base: seq<CellChange>, since: seq<CellChange>, sent: seq<CellChange>)
    requires base == [] || Pending(base) == sent
    ensures forall c | c !in sent :: c in Pending(base + since) <==> MadeSince(since, c)
    ensures since == [] ==> forall c <- Pending(base + since) :: c in sent
  {
    forall c | c !in sent
      ensures c in Pending(base + since) <==> MadeSince(since, c)
    {
      InPendingIff(base + since, c);
      LastEditOfBoth(base, since, c.Cell());
      InPendingIff(base, c);
    }
    if since == [] {
      assert base + since == base;
    }
  }

  /** Nothing is lost exactly where every last edit made since was submitted already. */
  lemma NothingLostIff(base: seq<CellChange>, since: seq<CellChange>, sent: seq<CellChange>)
    requires base == [] || Pending(base) == sent
    ensures (forall c <- Pending(base + since) :: c in sent) <==> (forall c | MadeSince(since, c) :: c in sent)
  {
    LostIff(base, since, sent);
    forall c | MadeSince(since, c) && c !in sent ensures c in Pending(base + since) {}
  }

  /** Run on any table, the statements lay the changes over the rows with the edited keys. */
  ghost predicate MeansOverlay(statements: seq<Statement>, pending: seq<CellChange>, grid: seq<Row>, key: string,
                               g: Grammar)
  {
    KeysDistinct(EditedRows(pending), grid, key) && NoKeyTaken(EditedRows(pending), grid, pending, key) ==>
      forall table :: RunStatements(statements, g, table)
        == Some(Overlay(EditedRows(pending), grid, pending, key, table))
  }

  lemma SubmittedMeansOverlay(pending: seq<CellChange>, grid: seq<Row>, name: string, key: string, g: Grammar)
    requires WellFormed(g) && IsBareIdentifier(name) && UniqueCells(pending) && InGrid(pending, grid)
    ensures MeansOverlay(Compiled(pending, grid, name, key, g), pending, grid, key, g)
  {
    if KeysDistinct(EditedRows(pending), grid, key) && NoKeyTaken(EditedRows(pending), grid, pending, key) {
      forall table
        ensures RunStatements(Compiled(pending, grid, name, key, g), g, table)
             == Some(Overlay(EditedRows(pending), grid, pending, key, table))
      {
        ApplyIsOverlay(pending, grid, name, key, g, table);
      }
    }
  }
}
